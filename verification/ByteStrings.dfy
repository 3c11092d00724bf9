/** Byte strings: the lexicographic key order of bytes.Compare and little-endian integers. */
module ByteStrings {

  newtype Byte = b: int | 0 <= b < 256

  type Bytes = seq<Byte>

  const U32_SIZE := 0x1_0000_0000
  const U64_SIZE := 0x1_0000_0000_0000_0000

  type U32 = n: nat | n < U32_SIZE

  /** bytes.Compare(a, b) < 0. */
  predicate Less(a: Bytes, b: Bytes) {
    b != [] && (a == [] || a[0] < b[0] || (a[0] == b[0] && Less(a[1..], b[1..])))
  }

  predicate AtMost(a: Bytes, b: Bytes) {
    a == b || Less(a, b)
  }

  /** a and b agree before index i, where a ends or has the smaller byte. */
  ghost predicate DecidedAt(a: Bytes, b: Bytes, i: nat) {
    && i <= |a| && i < |b| && a[..i] == b[..i]
    && (i < |a| ==> a[i] < b[i])
  }

  /** Lexicographic order: the first differing byte decides, and a proper prefix is smaller. */
  lemma {:induction false} LessExact(a: Bytes, b: Bytes)
    ensures Less(a, b) <==> exists i: nat :: DecidedAt(a, b, i)
  {
    if a == [] || b == [] {
      if b != [] {
        assert DecidedAt(a, b, 0);
      }
    } else {
      LessExact(a[1..], b[1..]);
      if Less(a, b) {
        if a[0] < b[0] {
          assert DecidedAt(a, b, 0);
        } else {
          var i: nat :| DecidedAt(a[1..], b[1..], i);
          assert a[..i + 1] == [a[0]] + a[1..][..i] && b[..i + 1] == [b[0]] + b[1..][..i];
          assert DecidedAt(a, b, i + 1);
        }
      }
      if i: nat :| DecidedAt(a, b, i) {
        if i > 0 {
          assert a[0] == a[..i][0] == b[..i][0] == b[0];
          assert a[1..][..i - 1] == a[..i][1..] && b[1..][..i - 1] == b[..i][1..];
          assert DecidedAt(a[1..], b[1..], i - 1);
        }
      }
    }
  }

  lemma LessIrreflexive(a: Bytes)
    ensures !Less(a, a)
  {
  }

  lemma {:induction false} LessTransitive(a: Bytes, b: Bytes, c: Bytes)
    requires Less(a, b) && Less(b, c)
    ensures Less(a, c)
  {
    if a != [] && a[0] == b[0] == c[0] {
      LessTransitive(a[1..], b[1..], c[1..]);
    }
  }

  lemma {:induction false} LessTotal(a: Bytes, b: Bytes)
    ensures Less(a, b) || a == b || Less(b, a)
  {
    if a != [] && b != [] && a[0] == b[0] {
      LessTotal(a[1..], b[1..]);
      assert a == [a[0]] + a[1..] && b == [b[0]] + b[1..];
    }
  }

  lemma {:induction false} LessAsymmetric(a: Bytes, b: Bytes)
    requires Less(a, b)
    ensures !Less(b, a) && a != b
  {
    LessIrreflexive(a);
    if Less(b, a) {
      LessTransitive(a, b, a);
    }
  }

  lemma AtMostTransitive(a: Bytes, b: Bytes, c: Bytes)
    requires AtMost(a, b) && AtMost(b, c)
    ensures AtMost(a, c)
  {
    hide Less;
    if a != b && b != c {
      LessTransitive(a, b, c);
    }
  }

  lemma AtMostOrLess(a: Bytes, b: Bytes)
    ensures AtMost(a, b) <==> !Less(b, a)
  {
    hide Less;
    LessTotal(a, b);
    if a == b {
      LessIrreflexive(a);
    } else if Less(a, b) {
      LessAsymmetric(a, b);
    }
  }

  function Pow256(w: nat): nat {
    if w == 0 then 1 else 256 * Pow256(w - 1)
  }

  /** binary.LittleEndian.PutUint16/32/64 for w = 2, 4, 8: the w low-order bytes of n, lowest first. */
  function PutUint(n: nat, w: nat): (b: Bytes)
    ensures |b| == w
  {
    if w == 0 then [] else [(n % 256) as Byte] + PutUint(n / 256, w - 1)
  }

  /** binary.LittleEndian.Uint16/32/64, on a slice of that many bytes. */
  function Uint(b: Bytes): nat {
    if b == [] then 0 else b[0] as nat + 256 * Uint(b[1..])
  }

  lemma {:induction false} UintOfPutUint(n: nat, w: nat)
    requires n < Pow256(w)
    ensures Uint(PutUint(n, w)) == n
  {
    if w > 0 {
      assert PutUint(n, w)[1..] == PutUint(n / 256, w - 1);
      UintOfPutUint(n / 256, w - 1);
    }
  }

  lemma {:induction false} PutUintOfUint(b: Bytes)
    ensures Uint(b) < Pow256(|b|)
    ensures PutUint(Uint(b), |b|) == b
  {
    if b != [] {
      PutUintOfUint(b[1..]);
      var low, high := b[0] as nat, Uint(b[1..]);
      assert (low + 256 * high) / 256 == high && (low + 256 * high) % 256 == low;
      assert b == [b[0]] + b[1..];
    }
  }

  lemma Pow256Values()
    ensures Pow256(2) == 0x1_0000
    ensures Pow256(4) == U32_SIZE
    ensures Pow256(8) == U64_SIZE
  {
    assert Pow256(2) == 0x1_0000;
    assert Pow256(4) == 256 * 256 * Pow256(2);
    assert Pow256(6) == 256 * 256 * Pow256(4);
    assert Pow256(8) == 256 * 256 * Pow256(6);
  }

  /** A stored 32-bit or 64-bit field reads back what was written. */
  lemma U32RoundTrip(n: nat)
    requires n < U32_SIZE
    ensures Uint(PutUint(n, 4)) == n
  {
    Pow256Values();
    UintOfPutUint(n, 4);
  }

  lemma U64RoundTrip(n: nat)
    requires n < U64_SIZE
    ensures Uint(PutUint(n, 8)) == n
  {
    Pow256Values();
    UintOfPutUint(n, 8);
  }

  lemma U32Bound(b: Bytes)
    requires |b| == 4
    ensures Uint(b) < U32_SIZE && PutUint(Uint(b), 4) == b
  {
    Pow256Values();
    PutUintOfUint(b);
  }

  /** Four bytes as a number, lowest first, and back. */
  lemma LittleEndian32(b0: Byte, b1: Byte, b2: Byte, b3: Byte)
    ensures var n := b0 as nat + 0x100 * b1 as nat + 0x1_0000 * b2 as nat + 0x100_0000 * b3 as nat;
            Uint([b0, b1, b2, b3]) == n && PutUint(n, 4) == [b0, b1, b2, b3]
  {
    var b: Bytes := [b0, b1, b2, b3];
    assert b[1..] == [b1, b2, b3] && b[1..][1..] == [b2, b3] && b[1..][1..][1..] == [b3];
    assert Uint([b3]) == b3 as nat + 256 * Uint([b3][1..]);
    assert Uint([b2, b3]) == b2 as nat + 256 * Uint([b3]);
    assert Uint([b1, b2, b3]) == b1 as nat + 256 * Uint([b2, b3]);
    PutUintOfUint(b);
  }

  lemma {:induction false} UintOfConcat(a: Bytes, b: Bytes)
    ensures Uint(a + b) == Uint(a) + Pow256(|a|) * Uint(b)
  {
    if a == [] {
      assert a + b == b;
    } else {
      assert (a + b)[1..] == a[1..] + b;
      UintOfConcat(a[1..], b);
      assert 256 * (Pow256(|a| - 1) * Uint(b)) == Pow256(|a|) * Uint(b);
    }
  }

  /** Eight bytes are the low half and then the high half. */
  lemma LittleEndian64(low: Bytes, high: Bytes)
    requires |low| == |high| == 4
    ensures PutUint(Uint(low) + U32_SIZE * Uint(high), 8) == low + high
  {
    Pow256Values();
    UintOfConcat(low, high);
    PutUintOfUint(low + high);
  }

  lemma ConcatAssociative<T>(a: seq<T>, b: seq<T>, c: seq<T>)
    ensures a + b + c == a + (b + c)
  {
  }

  lemma ConcatSplit<T>(a: seq<T>, b: seq<T>)
    ensures (a + b)[..|a|] == a && (a + b)[|a|..] == b
  {
  }

  lemma SliceOfConcat<T>(a: seq<T>, b: seq<T>, lo: nat, hi: nat)
    requires lo <= hi <= |a|
    ensures (a + b)[lo..hi] == a[lo..hi]
  {
  }
}
