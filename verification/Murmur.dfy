/** MurmurHash3 on 32-bit words, and the inputs on which it can never collide. */
module Murmur {

  import opened ByteStrings

  function Rotl15(x: bv32): bv32 { (x << 15) | (x >> 17) }
  function Rotl13(x: bv32): bv32 { (x << 13) | (x >> 19) }
  function MulC1(x: bv32): bv32 { x * 0xcc9e2d51 }
  function MulC2(x: bv32): bv32 { x * 0x1b873593 }
  function Affine(x: bv32): bv32 { x * 5 + 0xe6546b64 }
  function Xor(x: bv32, y: bv32): bv32 { x ^ y }
  function XorShift16(x: bv32): bv32 { x ^ (x >> 16) }
  function XorShift13(x: bv32): bv32 { x ^ (x >> 13) }
  function MulF1(x: bv32): bv32 { x * 0x85ebca6b }
  function MulF2(x: bv32): bv32 { x * 0xc2b2ae35 }

  function Fmix32(h: bv32): bv32 {
    XorShift16(MulF2(XorShift13(MulF1(XorShift16(h)))))
  }

  /** k *= c1; k = rotl32(k, 15); k *= c2. */
  function Scramble(k: bv32): bv32 {
    MulC2(Rotl15(MulC1(k)))
  }

  function MixBlock(h: bv32, k: bv32): bv32 {
    Affine(Rotl13(Xor(h, Scramble(k))))
  }

  function Word(b0: Byte, b1: Byte, b2: Byte, b3: Byte): bv32 {
    (b0 as bv8 as bv32) | ((b1 as bv8 as bv32) << 8) | ((b2 as bv8 as bv32) << 16) | ((b3 as bv8 as bv32) << 24)
  }

  /** The i-th 4-byte block of the key, read little-endian. */
  function Block(key: Bytes, i: nat): bv32
    requires 4 * i + 4 <= |key|
  {
    Word(key[4 * i], key[4 * i + 1], key[4 * i + 2], key[4 * i + 3])
  }

  /** The hash state after the first n blocks. */
  function AfterBlocks(key: Bytes, seed: bv32, n: nat): bv32
    requires 4 * n <= |key|
  {
    if n == 0 then seed else MixBlock(AfterBlocks(key, seed, n - 1), Block(key, n - 1))
  }

  /** The 1 to 3 bytes left after the blocks, as one word. */
  function TailWord(tail: Bytes): bv32
    requires |tail| <= 3
  {
    Word(if |tail| > 0 then tail[0] else 0, if |tail| > 1 then tail[1] else 0, if |tail| > 2 then tail[2] else 0, 0)
  }

  function MixTail(h: bv32, tail: Bytes): bv32
    requires |tail| <= 3
  {
    if tail == [] then h else Xor(h, Scramble(TailWord(tail)))
  }

  function Length(n: nat): bv32 { (n % U32_SIZE) as bv32 }

  function Finish(h: bv32, length: nat): bv32 {
    Fmix32(Xor(h, Length(length)))
  }

  function Hash(key: Bytes, seed: bv32): bv32 {
    var nblocks := |key| / 4;
    Finish(MixTail(AfterBlocks(key, seed, nblocks), key[4 * nblocks..]), |key|)
  }

  method MurmurHash3(key: Bytes, seed: bv32) returns (h: bv32)
    ensures h == Hash(key, seed)
  {
    hide Block, Rotl13, Rotl15, MulC1, MulC2, Affine, Xor, Fmix32, TailWord, Length;
    h := seed;
    var length := |key|;
    var nblocks := length / 4;
    for i := 0 to nblocks
      invariant h == AfterBlocks(key, seed, i)
    {
      var k := Block(key, i);
      k := MulC1(k);
      k := Rotl15(k);
      k := MulC2(k);
      h := Xor(h, k);
      h := Rotl13(h);
      h := Affine(h);
    }
    var tail := key[4 * nblocks..];
    if |tail| > 0 {
      var k := TailWord(tail);
      k := MulC1(k);
      k := Rotl15(k);
      k := MulC2(k);
      h := Xor(h, k);
    }
    h := Xor(h, Length(length));
    h := Fmix32(h);
  }

  // ---------------------------------------------------------------------------------------------
  // Every mixing step is a bijection of the 32-bit words: its inverse is written down
  // ---------------------------------------------------------------------------------------------

  function Rotr15(x: bv32): bv32 { (x << 17) | (x >> 15) }
  function Rotr13(x: bv32): bv32 { (x << 19) | (x >> 13) }
  function DivC1(x: bv32): bv32 { x * 0xdee13bb1 }
  function DivC2(x: bv32): bv32 { x * 0x56ed309b }
  function Unaffine(x: bv32): bv32 { (x - 0xe6546b64) * 0xcccccccd }
  function XorUnshift16(x: bv32): bv32 { x ^ (x >> 16) }
  function XorUnshift13(x: bv32): bv32 { x ^ (x >> 13) ^ (x >> 26) }
  function DivF1(x: bv32): bv32 { x * 0xa5cb9243 }
  function DivF2(x: bv32): bv32 { x * 0x7ed1b41d }

  lemma Rotl15Inverse(x: bv32)
    ensures Rotr15(Rotl15(x)) == x
  {
  }

  lemma Rotl13Inverse(x: bv32)
    ensures Rotr13(Rotl13(x)) == x
  {
  }

  lemma MulC1Inverse(x: bv32)
    ensures DivC1(MulC1(x)) == x
  {
    assert DivC1(x * 0xcc9e2d51) == x;
  }

  lemma MulC2Inverse(x: bv32)
    ensures DivC2(MulC2(x)) == x
  {
    assert DivC2(x * 0x1b873593) == x;
  }

  lemma MulF1Inverse(x: bv32)
    ensures DivF1(MulF1(x)) == x
  {
    assert DivF1(x * 0x85ebca6b) == x;
  }

  lemma MulF2Inverse(x: bv32)
    ensures DivF2(MulF2(x)) == x
  {
    assert DivF2(x * 0xc2b2ae35) == x;
  }

  lemma AffineInverse(x: bv32)
    ensures Unaffine(Affine(x)) == x
  {
    assert Unaffine(x * 5 + 0xe6546b64) == x;
  }

  lemma XorShift13Inverse(x: bv32)
    ensures XorUnshift13(XorShift13(x)) == x
  {
    assert XorUnshift13(x ^ (x >> 13)) == x;
  }

  lemma XorShift16Inverse(x: bv32)
    ensures XorUnshift16(XorShift16(x)) == x
  {
    assert XorUnshift16(x ^ (x >> 16)) == x;
  }

  lemma XorInverse(x: bv32, y: bv32)
    ensures Xor(Xor(x, y), y) == x && Xor(y, Xor(y, x)) == x
  {
  }

  ghost function Unscramble(w: bv32): bv32 {
    DivC1(Rotr15(DivC2(w)))
  }

  ghost function Unfmix32(h: bv32): bv32 {
    XorUnshift16(DivF1(XorUnshift13(DivF2(XorUnshift16(h)))))
  }

  lemma ScrambleInverse(k: bv32)
    ensures Unscramble(Scramble(k)) == k
  {
    hide MulC1, MulC2, Rotl15, DivC1, DivC2, Rotr15;
    MulC1Inverse(k);
    Rotl15Inverse(MulC1(k));
    MulC2Inverse(Rotl15(MulC1(k)));
  }

  lemma Fmix32Inverse(h: bv32)
    ensures Unfmix32(Fmix32(h)) == h
  {
    hide MulF1, MulF2, XorShift13, XorShift16, DivF1, DivF2, XorUnshift13, XorUnshift16;
    var h1 := XorShift16(h);
    var h2 := MulF1(h1);
    var h3 := XorShift13(h2);
    var h4 := MulF2(h3);
    XorShift16Inverse(h);
    MulF1Inverse(h1);
    XorShift13Inverse(h2);
    MulF2Inverse(h3);
    XorShift16Inverse(h4);
  }

  /** A block step loses neither the state it started from nor the block it mixed in. */
  lemma MixBlockInjective(g: bv32, h: bv32, j: bv32, k: bv32)
    requires MixBlock(g, j) == MixBlock(h, k)
    ensures (g == h) == (j == k)
  {
    hide Affine, Unaffine, Rotl13, Rotr13, Xor, Scramble, Unscramble;
    var u, v := Xor(g, Scramble(j)), Xor(h, Scramble(k));
    AffineInverse(Rotl13(u));
    AffineInverse(Rotl13(v));
    Rotl13Inverse(u);
    Rotl13Inverse(v);
    XorInverse(g, Scramble(j));
    XorInverse(h, Scramble(k));
    XorInverse(Scramble(j), g);
    XorInverse(Scramble(k), h);
    ScrambleInverse(j);
    ScrambleInverse(k);
  }

  lemma WordBytes(b0: bv8, b1: bv8, b2: bv8, b3: bv8)
    ensures var w := (b0 as bv32) | ((b1 as bv32) << 8) | ((b2 as bv32) << 16) | ((b3 as bv32) << 24);
            && (w & 0xFF) as bv8 == b0
            && ((w >> 8) & 0xFF) as bv8 == b1
            && ((w >> 16) & 0xFF) as bv8 == b2
            && (w >> 24) as bv8 == b3
  {
  }

  /** The bit pattern of n, counted up from zero. */
  ghost function BitsOf(n: nat): (v: bv8)
    requires n < 256
    ensures v as int == n
  {
    if n == 0 then 0 else BitsOf(n - 1) + 1
  }

  lemma ByteBits(b: Byte)
    ensures (b as bv8) as Byte == b
  {
    var v := BitsOf(b as nat);
    assert (v as Byte) as bv8 == v;
  }

  lemma WordInjective(a0: Byte, a1: Byte, a2: Byte, a3: Byte, b0: Byte, b1: Byte, b2: Byte, b3: Byte)
    requires Word(a0, a1, a2, a3) == Word(b0, b1, b2, b3)
    ensures a0 == b0 && a1 == b1 && a2 == b2 && a3 == b3
  {
    WordBytes(a0 as bv8, a1 as bv8, a2 as bv8, a3 as bv8);
    WordBytes(b0 as bv8, b1 as bv8, b2 as bv8, b3 as bv8);
    ByteBits(a0); ByteBits(a1); ByteBits(a2); ByteBits(a3);
    ByteBits(b0); ByteBits(b1); ByteBits(b2); ByteBits(b3);
  }

  // ---------------------------------------------------------------------------------------------
  // Whole-hash consequences
  // ---------------------------------------------------------------------------------------------

  /** Blocks n0 onwards carry distinct states to distinct states. */
  lemma {:induction false} LaterBlocksKeepApart(a: Bytes, b: Bytes, s: bv32, t: bv32, n0: nat, n: nat)
    requires n0 <= n && 4 * n <= |a| && |a| == |b|
    requires forall i :: n0 <= i < n ==> Block(a, i) == Block(b, i)
    requires AfterBlocks(a, s, n0) != AfterBlocks(b, t, n0)
    ensures AfterBlocks(a, s, n) != AfterBlocks(b, t, n)
  {
    hide Block, MixBlock;
    if n0 < n {
      LaterBlocksKeepApart(a, b, s, t, n0, n - 1);
      if AfterBlocks(a, s, n) == AfterBlocks(b, t, n) {
        MixBlockInjective(AfterBlocks(a, s, n - 1), AfterBlocks(b, t, n - 1), Block(a, n - 1), Block(b, n - 1));
      }
    }
  }

  lemma FinishInjective(g: bv32, h: bv32, length: nat)
    requires Finish(g, length) == Finish(h, length)
    ensures g == h
  {
    hide Fmix32, Unfmix32, Xor, Length;
    Fmix32Inverse(Xor(g, Length(length)));
    Fmix32Inverse(Xor(h, Length(length)));
    XorInverse(g, Length(length));
    XorInverse(h, Length(length));
  }

  /** Once the states differ, or only the tails do, the finished hashes differ. */
  lemma FinishKeepsApart(g: bv32, h: bv32, s: Bytes, t: Bytes)
    requires |s| == |t| <= 3
    requires (g == h) != (s == t)
    ensures forall n :: Finish(MixTail(g, s), n) != Finish(MixTail(h, t), n)
  {
    hide Finish, Xor, Scramble, Unscramble, TailWord;
    if s != [] {
      XorInverse(g, Scramble(TailWord(s)));
      XorInverse(h, Scramble(TailWord(t)));
      XorInverse(Scramble(TailWord(s)), g);
      XorInverse(Scramble(TailWord(t)), h);
      ScrambleInverse(TailWord(s));
      ScrambleInverse(TailWord(t));
      if TailWord(s) == TailWord(t) {
        TailWordInjective(s, t);
      }
    }
    forall n | Finish(MixTail(g, s), n) == Finish(MixTail(h, t), n)
      ensures false
    {
      FinishInjective(MixTail(g, s), MixTail(h, t), n);
    }
  }

  lemma TailWordInjective(s: Bytes, t: Bytes)
    requires |s| == |t| <= 3 && TailWord(s) == TailWord(t)
    ensures s == t
  {
    WordInjective(if |s| > 0 then s[0] else 0, if |s| > 1 then s[1] else 0, if |s| > 2 then s[2] else 0, 0,
                  if |t| > 0 then t[0] else 0, if |t| > 1 then t[1] else 0, if |t| > 2 then t[2] else 0, 0);
  }

  /** For every key the hash is injective in its seed. */
  lemma InjectiveInSeed(key: Bytes, s: bv32, t: bv32)
    requires s != t
    ensures Hash(key, s) != Hash(key, t)
  {
    hide Block, MixBlock, Finish, MixTail;
    var n := |key| / 4;
    LaterBlocksKeepApart(key, key, s, t, 0, n);
    FinishKeepsApart(AfterBlocks(key, s, n), AfterBlocks(key, t, n), key[4 * n..], key[4 * n..]);
  }

  lemma {:induction false} AgreeBefore(a: Bytes, b: Bytes, seed: bv32, n: nat)
    requires 4 * n <= |a| && |a| == |b| && forall k :: 0 <= k < 4 * n ==> a[k] == b[k]
    ensures AfterBlocks(a, seed, n) == AfterBlocks(b, seed, n)
  {
    hide MixBlock, Word;
    if n > 0 {
      AgreeBefore(a, b, seed, n - 1);
    }
  }

  /** Two keys of one length that differ only inside block j never collide, whatever the seed. */
  lemma NoCollisionInOneBlock(a: Bytes, b: Bytes, j: nat, seed: bv32)
    requires |a| == |b| && 4 * j + 4 <= |a| && a != b
    requires forall k :: 0 <= k < |a| && !(4 * j <= k < 4 * j + 4) ==> a[k] == b[k]
    ensures Hash(a, seed) != Hash(b, seed)
  {
    hide Word, MixBlock, Finish, MixTail;
    var n := |a| / 4;
    AgreeBefore(a, b, seed, j);
    if Block(a, j) == Block(b, j) {
      WordInjective(a[4 * j], a[4 * j + 1], a[4 * j + 2], a[4 * j + 3],
                    b[4 * j], b[4 * j + 1], b[4 * j + 2], b[4 * j + 3]);
      assert false;
    }
    var h := AfterBlocks(a, seed, j);
    if MixBlock(h, Block(a, j)) == MixBlock(h, Block(b, j)) {
      MixBlockInjective(h, h, Block(a, j), Block(b, j));
    }
    LaterBlocksKeepApart(a, b, seed, seed, j + 1, n);
    assert a[4 * n..] == b[4 * n..];
    FinishKeepsApart(AfterBlocks(a, seed, n), AfterBlocks(b, seed, n), a[4 * n..], b[4 * n..]);
  }

  /** Two keys of one length that differ only in the bytes after the last block never collide. */
  lemma NoCollisionInTail(a: Bytes, b: Bytes, seed: bv32)
    requires |a| == |b| && a != b
    requires forall k :: 0 <= k < 4 * (|a| / 4) ==> a[k] == b[k]
    ensures Hash(a, seed) != Hash(b, seed)
  {
    hide Block, MixBlock, Finish, MixTail;
    var n := |a| / 4;
    AgreeBefore(a, b, seed, n);
    var s, t := a[4 * n..], b[4 * n..];
    assert a[..4 * n] == b[..4 * n];
    assert a == a[..4 * n] + s && b == b[..4 * n] + t;
    FinishKeepsApart(AfterBlocks(a, seed, n), AfterBlocks(b, seed, n), s, t);
  }

  lemma ByteValue(b: Byte, v: bv8)
    requires v as int == b as int
    ensures b as bv8 == v
  {
    assert (v as Byte) as bv8 == v;
  }

  lemma SmallLengths()
    ensures Length(0) == 0 && Length(2) == 2 && Length(3) == 3 && Length(4) == 4 && Length(13) == 13
  {
  }

  lemma WordValue(b0: Byte, b1: Byte, b2: Byte, b3: Byte, v0: bv8, v1: bv8, v2: bv8, v3: bv8)
    requires v0 as int == b0 as int && v1 as int == b1 as int && v2 as int == b2 as int && v3 as int == b3 as int
    ensures Word(b0, b1, b2, b3)
         == (v0 as bv32) | ((v1 as bv32) << 8) | ((v2 as bv32) << 16) | ((v3 as bv32) << 24)
  {
    ByteValue(b0, v0);
    ByteValue(b1, v1);
    ByteValue(b2, v2);
    ByteValue(b3, v3);
  }

  lemma KnownWords()
    ensures Word(0x74, 0x65, 0x73, 0x74) == 0x74736574
    ensures Word(0x48, 0x65, 0x6c, 0x6c) == 0x6c6c6548
    ensures Word(0x6f, 0x2c, 0x20, 0x77) == 0x77202c6f
    ensures Word(0x6f, 0x72, 0x6c, 0x64) == 0x646c726f
    ensures Word(0x21, 0, 0, 0) == 0x21
    ensures Word(0x61, 0x62, 0, 0) == 0x6261 && Word(0x61, 0x61, 0, 0) == 0x6161
    ensures Word(0x61, 0x62, 0x63, 0) == 0x636261
  {
    WordValue(0x74, 0x65, 0x73, 0x74, 0x74, 0x65, 0x73, 0x74);
    WordValue(0x48, 0x65, 0x6c, 0x6c, 0x48, 0x65, 0x6c, 0x6c);
    WordValue(0x6f, 0x2c, 0x20, 0x77, 0x6f, 0x2c, 0x20, 0x77);
    WordValue(0x6f, 0x72, 0x6c, 0x64, 0x6f, 0x72, 0x6c, 0x64);
    WordValue(0x21, 0, 0, 0, 0x21, 0, 0, 0);
    WordValue(0x61, 0x61, 0, 0, 0x61, 0x61, 0, 0);
    WordValue(0x61, 0x62, 0, 0, 0x61, 0x62, 0, 0);
    WordValue(0x61, 0x62, 0x63, 0, 0x61, 0x62, 0x63, 0);
  }

  lemma KnownMixes()
    ensures Fmix32(Xor(0, 0)) == 0 && Fmix32(Xor(1, 0)) == 0x514e28b7
    ensures Fmix32(Xor(MixBlock(0, 0x74736574), 4)) == 0xba6bd213
    ensures Fmix32(Xor(Xor(MixBlock(MixBlock(MixBlock(0, 0x6c6c6548), 0x77202c6f), 0x646c726f), Scramble(0x21)), 13))
         == 0xc0363e43
    ensures Fmix32(Xor(Xor(0, Scramble(0x6261)), 2)) == 0x9bbfd75f
    ensures Fmix32(Xor(Xor(0x9747b28c, Scramble(0x6161)), 2)) == 0x5d211726
    ensures Fmix32(Xor(Xor(0, Scramble(0x636261)), 3)) == 0xb3dd93fa
    ensures Fmix32(Xor(Xor(0x9747b28c, Scramble(0x636261)), 3)) == 0xc84a62dd
  {
  }

  const TEST: Bytes := [0x74, 0x65, 0x73, 0x74]
  const HELLO: Bytes := [0x48, 0x65, 0x6c, 0x6c, 0x6f, 0x2c, 0x20, 0x77, 0x6f, 0x72, 0x6c, 0x64, 0x21]

  /** The published MurmurHash3_x86_32 values of keys with no tail and with tails of every length. */
  lemma KnownHashes()
    ensures Hash([], 0) == 0 && Hash([], 1) == 0x514e28b7
    ensures Hash(TEST, 0) == 0xba6bd213
    ensures Hash(HELLO, 0) == 0xc0363e43
    ensures Hash([0x61, 0x62], 0) == 0x9bbfd75f && Hash([0x61, 0x61], 0x9747b28c) == 0x5d211726
    ensures Hash([0x61, 0x62, 0x63], 0) == 0xb3dd93fa && Hash([0x61, 0x62, 0x63], 0x9747b28c) == 0xc84a62dd
  {
    KnownWords();
    KnownMixes();
    SmallLengths();
    hide Fmix32, Xor, MixBlock, Scramble, Word, Length;
    assert AfterBlocks(TEST, 0, 1) == MixBlock(AfterBlocks(TEST, 0, 0), Block(TEST, 0));
    assert AfterBlocks(HELLO, 0, 1) == MixBlock(AfterBlocks(HELLO, 0, 0), Block(HELLO, 0));
    assert AfterBlocks(HELLO, 0, 2) == MixBlock(AfterBlocks(HELLO, 0, 1), Block(HELLO, 1));
    assert AfterBlocks(HELLO, 0, 3) == MixBlock(AfterBlocks(HELLO, 0, 2), Block(HELLO, 2));
    assert HELLO[12..] == [0x21];
    assert TEST[4..] == [];
    var ab: Bytes, aa: Bytes, abc: Bytes := [0x61, 0x62], [0x61, 0x61], [0x61, 0x62, 0x63];
    assert ab[0..] == ab && aa[0..] == aa && abc[0..] == abc;
  }

  /** Blocks are read little-endian: byte i of the word is byte i of the block. */
  lemma BlockBytes(key: Bytes, i: nat)
    requires 4 * i + 4 <= |key|
    ensures var w := Block(key, i);
            && (w & 0xFF) as bv8 == key[4 * i] as bv8
            && ((w >> 8) & 0xFF) as bv8 == key[4 * i + 1] as bv8
            && ((w >> 16) & 0xFF) as bv8 == key[4 * i + 2] as bv8
            && (w >> 24) as bv8 == key[4 * i + 3] as bv8
  {
    WordBytes(key[4 * i] as bv8, key[4 * i + 1] as bv8, key[4 * i + 2] as bv8, key[4 * i + 3] as bv8);
  }

  /** So are the 1 to 3 bytes of a tail, with zeros above them. */
  lemma TailBytes(tail: Bytes)
    requires |tail| <= 3
    ensures var w := TailWord(tail);
            && (w & 0xFF) as bv8 == (if |tail| > 0 then tail[0] as bv8 else 0)
            && ((w >> 8) & 0xFF) as bv8 == (if |tail| > 1 then tail[1] as bv8 else 0)
            && ((w >> 16) & 0xFF) as bv8 == (if |tail| > 2 then tail[2] as bv8 else 0)
            && (w >> 24) as bv8 == 0
  {
    var b0: Byte, b1: Byte, b2: Byte := if |tail| > 0 then tail[0] else 0, if |tail| > 1 then tail[1] else 0,
                                       if |tail| > 2 then tail[2] else 0;
    ByteValue(0, 0);
    WordBytes(b0 as bv8, b1 as bv8, b2 as bv8, 0);
  }
}
