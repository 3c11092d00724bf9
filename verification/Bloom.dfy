/** The Bloom filter: building, querying and storing it, and why it has no false negatives. */
module BloomFilter {

  import opened ByteStrings
  import Murmur

  const NUM_HASH_FUNCTIONS := 3

  const SEED0: bv32 := 0x00000000
  const SEED1: bv32 := 0x9747b28c
  const SEED2: bv32 := 0x5f3759df

  datatype Filter = Filter(bits: Bytes, m: nat, k: nat) {
    /** The bit array covers every position below m. */
    predicate WellFormed() {
      m <= 8 * |bits|
    }
  }

  function Seed(i: nat): bv32
    requires i < NUM_HASH_FUNCTIONS
  {
    if i == 0 then SEED0 else if i == 1 then SEED1 else SEED2
  }

  /** The position hash function i assigns to a key in an array of m bits. */
  function Position(key: Bytes, i: nat, m: nat): (pos: nat)
    requires i < NUM_HASH_FUNCTIONS && m > 0
    ensures pos < m
  {
    (Murmur.Hash(key, Seed(i)) as int) % m
  }

  // ---------------------------------------------------------------------------------------------
  // Bits
  // ---------------------------------------------------------------------------------------------

  function SetIn(v: bv8, i: nat): bv8
    requires i < 8
  {
    v | (1 << i)
  }

  predicate IsSetIn(v: bv8, i: nat)
    requires i < 8
  {
    v & (1 << i) != 0
  }

  function OrBit(b: Byte, i: nat): Byte
    requires i < 8
  {
    SetIn(b as bv8, i) as Byte
  }

  predicate TestBit(b: Byte, i: nat)
    requires i < 8
  {
    IsSetIn(b as bv8, i)
  }

  lemma BitsOfByte(v: bv8)
    ensures (v as Byte) as bv8 == v
  {
  }

  lemma OrTests(v: bv8, i: nat, j: nat)
    requires i < 8 && j < 8
    ensures ((v | (1 << i)) & (1 << j) != 0) == (i == j || v & (1 << j) != 0)
  {
  }

  lemma OrBitTests(b: Byte, i: nat, j: nat)
    requires i < 8 && j < 8
    ensures TestBit(OrBit(b, i), j) == (i == j || TestBit(b, j))
  {
    var v := b as bv8;
    assert IsSetIn(SetIn(v, i), j) == (i == j || IsSetIn(v, j)) by {
      OrTests(v, i, j);
    }
    hide SetIn, IsSetIn;
    BitsOfByte(SetIn(v, i));
  }

  lemma ZeroByteTests(i: nat)
    requires i < 8
    ensures !TestBit(0, i)
  {
  }

  predicate GetBit(bits: Bytes, pos: nat)
    requires pos < 8 * |bits|
  {
    TestBit(bits[pos / 8], pos % 8)
  }

  function WithBit(bits: Bytes, pos: nat): (r: Bytes)
    requires pos < 8 * |bits|
    ensures |r| == |bits|
  {
    bits[pos / 8 := OrBit(bits[pos / 8], pos % 8)]
  }

  /** Setting a bit sets that bit and clears or sets no other. */
  lemma WithBitGets(bits: Bytes, p: nat, q: nat)
    requires p < 8 * |bits| && q < 8 * |bits|
    ensures GetBit(WithBit(bits, p), q) == (p == q || GetBit(bits, q))
  {
    hide OrBit, TestBit;
    if p / 8 == q / 8 {
      OrBitTests(bits[p / 8], p % 8, q % 8);
    }
  }

  method SetBit(bits: array<Byte>, pos: nat)
    requires pos < 8 * bits.Length
    modifies bits
    ensures bits[..] == WithBit(old(bits[..]), pos)
  {
    hide OrBit;
    bits[pos / 8] := OrBit(bits[pos / 8], pos % 8);
  }

  // ---------------------------------------------------------------------------------------------
  // Build
  // ---------------------------------------------------------------------------------------------

  function WithKey(bits: Bytes, m: nat, key: Bytes): (r: Bytes)
    requires 0 < m <= 8 * |bits|
    ensures |r| == |bits|
  {
    WithBit(WithBit(WithBit(bits, Position(key, 0, m)), Position(key, 1, m)), Position(key, 2, m))
  }

  /** The bit array of m bits after inserting the keys in order. */
  function BitsOf(keys: seq<Bytes>, m: nat): (r: Bytes)
    requires m > 0 && m % 8 == 0
    ensures |r| == m / 8
  {
    if keys == [] then seq(m / 8, _ => 0) else WithKey(BitsOf(keys[..|keys| - 1], m), m, keys[|keys| - 1])
  }

  function FilterOf(keys: seq<Bytes>, m: nat): (f: Filter)
    requires keys != [] ==> m > 0 && m % 8 == 0
    ensures f.WellFormed() && f.k == NUM_HASH_FUNCTIONS
  {
    if keys == [] then Filter([], 0, NUM_HASH_FUNCTIONS) else Filter(BitsOf(keys, m), m, NUM_HASH_FUNCTIONS)
  }

  function Ceil(x: real): int {
    -((-x).Floor)
  }

  /** m = ceil(n * bitsPerKey), rounded up to a multiple of 8; real arithmetic stands for float64. */
  function BitCount(n: nat, bitsPerKey: real): (m: nat)
    requires bitsPerKey > 0.0
    ensures m % 8 == 0 && (n > 0 ==> m > 0)
    ensures n as real * bitsPerKey <= m as real < n as real * bitsPerKey + 8.0
  {
    var bits := n as real * bitsPerKey;
    assert bits >= 0.0;
    assert n > 0 ==> bits > 0.0;
    ((Ceil(bits) + 7) / 8) * 8
  }

  lemma BitsSnoc(keys: seq<Bytes>, m: nat, n: nat)
    requires m > 0 && m % 8 == 0 && n < |keys|
    ensures BitsOf(keys[..n + 1], m) == WithKey(BitsOf(keys[..n], m), m, keys[n])
  {
    hide WithKey;
    assert keys[..n + 1][..n] == keys[..n];
  }

  method Build(keys: seq<Bytes>, bitsPerKey: real) returns (f: Filter)
    requires bitsPerKey > 0.0
    ensures f == FilterOf(keys, BitCount(|keys|, bitsPerKey))
  {
    if |keys| == 0 {
      return Filter([], 0, NUM_HASH_FUNCTIONS);
    }
    hide WithKey, BitCount;
    var m := BitCount(|keys|, bitsPerKey);
    var bits := new Byte[m / 8](_ => 0);
    assert bits[..] == BitsOf([], m);
    hide BitsOf;
    assert keys[..0] == [];
    for n := 0 to |keys|
      invariant bits[..] == BitsOf(keys[..n], m)
    {
      BitsSnoc(keys, m, n);
      Insert(bits, m, keys[n]);
    }
    assert keys[..|keys|] == keys;
    f := Filter(bits[..], m, NUM_HASH_FUNCTIONS);
  }

  /** One round of Build's loop. */
  method Insert(bits: array<Byte>, m: nat, key: Bytes)
    requires 0 < m <= 8 * bits.Length
    modifies bits
    ensures bits[..] == WithKey(old(bits[..]), m, key)
  {
    hide WithBit, Position;
    var p0 := Probe(key, 0, m);
    var p1 := Probe(key, 1, m);
    var p2 := Probe(key, 2, m);
    SetBit(bits, p0);
    SetBit(bits, p1);
    SetBit(bits, p2);
  }

  method Probe(key: Bytes, i: nat, m: nat) returns (pos: nat)
    requires i < NUM_HASH_FUNCTIONS && m > 0
    ensures pos == Position(key, i, m)
  {
    var h := Murmur.MurmurHash3(key, Seed(i));
    pos := (h as int) % m;
  }

  predicate MayContain(f: Filter, key: Bytes)
    requires f.WellFormed()
  {
    f.m != 0 && forall i :: 0 <= i < NUM_HASH_FUNCTIONS ==> GetBit(f.bits, Position(key, i, f.m))
  }

  /** MayContain's answer on any filter; a stored one may claim bits it does not have, and indexing them panics. */
  datatype Verdict = No | Maybe | OutOfRange

  function TestFrom(f: Filter, key: Bytes, i: nat): Verdict
    requires f.m > 0 && i <= NUM_HASH_FUNCTIONS
    decreases NUM_HASH_FUNCTIONS - i
  {
    if i == NUM_HASH_FUNCTIONS then Maybe
    else if Position(key, i, f.m) >= 8 * |f.bits| then OutOfRange
    else if !GetBit(f.bits, Position(key, i, f.m)) then No
    else TestFrom(f, key, i + 1)
  }

  function Test(f: Filter, key: Bytes): Verdict {
    if f.m == 0 then No else TestFrom(f, key, 0)
  }

  method Query(f: Filter, key: Bytes) returns (v: Verdict)
    ensures v == Test(f, key)
  {
    hide GetBit, Position;
    if f.m == 0 {
      return No;
    }
    var p0 := Probe(key, 0, f.m);
    var p1 := Probe(key, 1, f.m);
    var p2 := Probe(key, 2, f.m);
    var size := 8 * |f.bits|;
    assert TestFrom(f, key, 3) == Maybe;
    if p0 >= size {
      return OutOfRange;
    }
    if !GetBit(f.bits, p0) {
      return No;
    }
    if p1 >= size {
      return OutOfRange;
    }
    if !GetBit(f.bits, p1) {
      return No;
    }
    if p2 >= size {
      return OutOfRange;
    }
    return if GetBit(f.bits, p2) then Maybe else No;
  }

  /** On a filter that has all its bits, the answer is whether every position is set. */
  lemma TestExact(f: Filter, key: Bytes)
    requires f.WellFormed()
    ensures Test(f, key) == if MayContain(f, key) then Maybe else No
  {
    hide GetBit, Position;
    if f.m > 0 {
      assert TestFrom(f, key, 3) == Maybe;
      assert TestFrom(f, key, 2) == if GetBit(f.bits, Position(key, 2, f.m)) then Maybe else No;
      assert TestFrom(f, key, 1) == if GetBit(f.bits, Position(key, 1, f.m)) then TestFrom(f, key, 2) else No;
    }
  }

  // ---------------------------------------------------------------------------------------------
  // Storage
  // ---------------------------------------------------------------------------------------------

  function Encode(f: Filter): Bytes
    requires f.k < 256
  {
    [f.k as Byte] + PutUint(f.m, 4) + f.bits
  }

  function Decode(data: Bytes): Filter {
    if |data| < 5 then Filter([], 0, 0) else Filter(data[5..], Uint(data[1..5]), data[0] as nat)
  }

  lemma DecodeEncode(f: Filter)
    requires f.k < 256 && f.m < U32_SIZE
    ensures Decode(Encode(f)) == f
  {
    var data := Encode(f);
    assert data[1..5] == PutUint(f.m, 4);
    U32RoundTrip(f.m);
  }

  // ---------------------------------------------------------------------------------------------
  // What the filter answers
  // ---------------------------------------------------------------------------------------------

  /** The hash under one of the filter's seeds, reduced modulo the size. */
  function HashBit(key: Bytes, seed: bv32, m: nat): nat
    requires m > 0
  {
    (Murmur.Hash(key, seed) as int) % m
  }

  ghost predicate Hits(key: Bytes, m: nat, pos: nat)
    requires m > 0
  {
    pos == HashBit(key, 0, m) || pos == HashBit(key, 0x9747b28c, m) || pos == HashBit(key, 0x5f3759df, m)
  }

  /** Some inserted key hashes to this position. */
  ghost predicate Covered(keys: seq<Bytes>, m: nat, pos: nat)
    requires m > 0
  {
    exists i :: 0 <= i < |keys| && Hits(keys[i], m, pos)
  }

  lemma PositionsAreHashes(key: Bytes, m: nat)
    requires m > 0
    ensures Position(key, 0, m) == HashBit(key, 0, m)
    ensures Position(key, 1, m) == HashBit(key, 0x9747b28c, m)
    ensures Position(key, 2, m) == HashBit(key, 0x5f3759df, m)
  {
    hide Murmur.Hash;
  }

  /** A bit of the built array is set exactly when some inserted key hashes there. */
  lemma {:induction false} BitsExact(keys: seq<Bytes>, m: nat, pos: nat)
    requires m > 0 && m % 8 == 0 && pos < m
    ensures GetBit(BitsOf(keys, m), pos) <==> Covered(keys, m, pos)
  {
    hide WithBit, Position, HashBit;
    if keys == [] {
      ZeroByteTests(pos % 8);
    } else {
      hide GetBit;
      var n := |keys| - 1;
      var rest, key := keys[..n], keys[n];
      BitsExact(rest, m, pos);
      PositionsAreHashes(key, m);
      var b0 := BitsOf(rest, m);
      var b1 := WithBit(b0, Position(key, 0, m));
      var b2 := WithBit(b1, Position(key, 1, m));
      WithBitGets(b0, Position(key, 0, m), pos);
      WithBitGets(b1, Position(key, 1, m), pos);
      WithBitGets(b2, Position(key, 2, m), pos);
      assert forall i :: 0 <= i < n ==> rest[i] == keys[i];
    }
  }

  /** A query is answered "maybe" exactly when each of its three hash bits was hit by some inserted key. */
  lemma MayContainExact(keys: seq<Bytes>, m: nat, key: Bytes)
    requires keys != [] && m > 0 && m % 8 == 0
    ensures MayContain(FilterOf(keys, m), key)
       <==> && Covered(keys, m, HashBit(key, 0, m))
            && Covered(keys, m, HashBit(key, 0x9747b28c, m))
            && Covered(keys, m, HashBit(key, 0x5f3759df, m))
  {
    hide GetBit, Position, Covered, BitsOf, HashBit;
    PositionsAreHashes(key, m);
    forall i | 0 <= i < NUM_HASH_FUNCTIONS
      ensures GetBit(BitsOf(keys, m), Position(key, i, m)) <==> Covered(keys, m, Position(key, i, m))
    {
      BitsExact(keys, m, Position(key, i, m));
    }
    assert MayContain(FilterOf(keys, m), key) <==> forall i :: 0 <= i < 3 ==> Covered(keys, m, Position(key, i, m));
  }

  /** No false negatives, through Build, Encode and Decode, for any positive size that is a multiple of 8. */
  lemma NoFalseNegatives(keys: seq<Bytes>, m: nat, key: Bytes)
    requires key in keys && m > 0 && m % 8 == 0 && m < U32_SIZE
    ensures var f := Decode(Encode(FilterOf(keys, m)));
            f.WellFormed() && MayContain(f, key)
  {
    hide Decode, Encode, MayContain, HashBit;
    DecodeEncode(FilterOf(keys, m));
    MayContainExact(keys, m, key);
    var j :| 0 <= j < |keys| && keys[j] == key;
    assert Hits(keys[j], m, HashBit(key, 0, m)) && Hits(keys[j], m, HashBit(key, 0x9747b28c, m));
    assert Hits(keys[j], m, HashBit(key, 0x5f3759df, m));
  }

  /** The three hashes of a key are pairwise distinct before they are reduced modulo m. */
  lemma ThreeHashesDistinct(key: Bytes, i: nat, j: nat)
    requires i < j < NUM_HASH_FUNCTIONS
    ensures Murmur.Hash(key, Seed(i)) != Murmur.Hash(key, Seed(j))
  {
    hide Murmur.Hash;
    Murmur.InjectiveInSeed(key, Seed(i), Seed(j));
  }

  /** A stored filter, written out: k, then m with its lowest byte first, then the bits. */
  lemma KnownFilter()
    ensures Encode(Filter([0xa0, 0x01], 16, 3)) == [3, 16, 0, 0, 0, 0xa0, 0x01]
  {
    LittleEndian32(16, 0, 0, 0);
    hide PutUint, Uint;
  }

  /** Bit 0 of a byte is its lowest. */
  lemma KnownBits()
    ensures WithBit([0, 0], 0) == [1, 0] && WithBit([0, 0], 7) == [128, 0] && WithBit([0, 0], 9) == [0, 2]
  {
    OrsIntoZero();
    hide OrBit;
  }

  lemma OrsIntoZero()
    ensures OrBit(0, 0) == 1 && OrBit(0, 7) == 128 && OrBit(0, 1) == 2
  {
  }
}
