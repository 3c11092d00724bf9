/** The SSTable file format and the writer that prints it. */
module SSTableWriter {

  import opened ByteStrings
  import opened Tables
  import Bloom = BloomFilter

  const MAGIC := 0x5661756C744B5600
  const VERSION := 1
  const FOOTER_SIZE := 48
  const DEFAULT_BLOCK_SIZE := 4096
  const ENTRY_HEADER_SIZE := 9
  const FLAG_NORMAL: Byte := 0x00
  const FLAG_TOMBSTONE: Byte := 0x01
  const BITS_PER_KEY: real := 9.6

  datatype IndexEntry = IndexEntry(firstKey: Bytes, blockOffset: nat, blockLen: nat)

  // ---------------------------------------------------------------------------------------------
  // The format
  // ---------------------------------------------------------------------------------------------

  function ValueOf(c: Cell): Bytes {
    match c
    case Live(bytes) => bytes
    case Tombstone => []
  }

  /** What is stored of a cell: the value up to its 32-bit length field, so all of it below 4 GiB. */
  function KeptCell(c: Cell): (k: Cell)
    ensures |ValueOf(c)| < U32_SIZE ==> k == c
  {
    match c
    case Live(bytes) => Live(bytes[..|bytes| % U32_SIZE])
    case Tombstone => Tombstone
  }

  function KeptEntry(e: Entry): Entry {
    Entry(e.key, KeptCell(e.cell))
  }

  function KeptEntries(es: seq<Entry>): (r: seq<Entry>)
    ensures |r| == |es| && forall i :: 0 <= i < |es| ==> r[i] == KeptEntry(es[i])
  {
    seq(|es|, i requires 0 <= i < |es| => KeptEntry(es[i]))
  }

  lemma KeptSnoc(es: seq<Entry>, e: Entry)
    ensures KeptEntries(es + [e]) == KeptEntries(es) + [KeptEntry(e)]
  {
  }

  function FlagOf(c: Cell): Byte {
    if c.Tombstone? then FLAG_TOMBSTONE else FLAG_NORMAL
  }

  function EncodeEntry(e: Entry): (b: Bytes)
    ensures |b| == ENTRY_HEADER_SIZE + |e.key| + |ValueOf(e.cell)|
  {
    PutUint(|e.key|, 4) + PutUint(|ValueOf(e.cell)|, 4) + [FlagOf(e.cell)] + e.key + ValueOf(e.cell)
  }

  function EncodeEntries(es: seq<Entry>): (b: Bytes)
    ensures b == [] <==> es == []
  {
    if es == [] then [] else EncodeEntries(es[..|es| - 1]) + EncodeEntry(es[|es| - 1])
  }

  /** A data block: its entries and the checksum of their bytes. */
  function Block(crc: Bytes -> U32, es: seq<Entry>): (b: Bytes)
    ensures |b| == |EncodeEntries(es)| + 4
  {
    EncodeEntries(es) + PutUint(crc(EncodeEntries(es)), 4)
  }

  function DataBytes(crc: Bytes -> U32, blocks: seq<seq<Entry>>): Bytes {
    if blocks == [] then [] else DataBytes(crc, blocks[..|blocks| - 1]) + Block(crc, blocks[|blocks| - 1])
  }

  ghost predicate NonEmpty(blocks: seq<seq<Entry>>) {
    forall i :: 0 <= i < |blocks| ==> blocks[i] != []
  }

  /** The sparse index: the first key, offset and length of every block. */
  function IndexOf(crc: Bytes -> U32, blocks: seq<seq<Entry>>): (ix: seq<IndexEntry>)
    requires NonEmpty(blocks)
    ensures |ix| == |blocks|
  {
    if blocks == [] then [] else
      var before, last := blocks[..|blocks| - 1], blocks[|blocks| - 1];
      IndexOf(crc, before) + [IndexEntry(last[0].key, |DataBytes(crc, before)|, |Block(crc, last)|)]
  }

  function EncodeIndexEntry(ie: IndexEntry): (b: Bytes)
    ensures |b| == 16 + |ie.firstKey|
  {
    PutUint(|ie.firstKey|, 4) + ie.firstKey + PutUint(ie.blockOffset, 8) + PutUint(ie.blockLen, 4)
  }

  function EncodeIndex(ix: seq<IndexEntry>): Bytes {
    if ix == [] then [] else EncodeIndex(ix[..|ix| - 1]) + EncodeIndexEntry(ix[|ix| - 1])
  }

  datatype Footer = Footer(indexOffset: nat, indexLen: nat, bloomOffset: nat, bloomLen: nat, numEntries: nat)

  function EncodeFooter(f: Footer): (b: Bytes)
    ensures |b| == FOOTER_SIZE
  {
    PutUint(f.indexOffset, 8) + PutUint(f.indexLen, 4) + PutUint(f.bloomOffset, 8) + PutUint(f.bloomLen, 4)
    + PutUint(f.numEntries, 8) + PutUint(MAGIC, 8) + PutUint(VERSION, 2) + PutUint(0, 6)
  }

  /** The whole file for these data blocks, with a Bloom filter of m bits. */
  function FileOf(crc: Bytes -> U32, blocks: seq<seq<Entry>>, m: nat): Bytes
    requires NonEmpty(blocks) && m % 8 == 0 && (Flatten(blocks) != [] ==> m > 0)
  {
    var data := DataBytes(crc, blocks);
    var index := EncodeIndex(IndexOf(crc, blocks));
    var keys := KeysOf(Flatten(blocks));
    var bloom := Bloom.Encode(Bloom.FilterOf(keys, m));
    data + index + bloom + EncodeFooter(Footer(|data|, |index|, |data| + |index|, |bloom|, |keys|))
  }

  // Every list of the format grows at its end.

  lemma EncodeEntriesSnoc(es: seq<Entry>, e: Entry)
    ensures EncodeEntries(es + [e]) == EncodeEntries(es) + EncodeEntry(e)
    ensures KeysOf(es + [e]) == KeysOf(es) + [e.key]
  {
    assert (es + [e])[..|es|] == es;
  }

  lemma EncodeIndexSnoc(ix: seq<IndexEntry>, ie: IndexEntry)
    ensures EncodeIndex([]) == []
    ensures EncodeIndex(ix + [ie]) == EncodeIndex(ix) + EncodeIndexEntry(ie)
  {
    assert (ix + [ie])[..|ix|] == ix;
  }

  lemma BlocksSnoc(crc: Bytes -> U32, blocks: seq<seq<Entry>>, es: seq<Entry>)
    requires NonEmpty(blocks) && es != []
    ensures var more := blocks + [es];
            && NonEmpty(more)
            && Flatten(more) == Flatten(blocks) + es
            && DataBytes(crc, more) == DataBytes(crc, blocks) + Block(crc, es)
            && IndexOf(crc, more)
               == IndexOf(crc, blocks) + [IndexEntry(es[0].key, |DataBytes(crc, blocks)|, |Block(crc, es)|)]
  {
    assert (blocks + [es])[..|blocks|] == blocks;
  }

  // ---------------------------------------------------------------------------------------------
  // The writer
  // ---------------------------------------------------------------------------------------------

  /** A block is cut as soon as it reaches the target size, and not before. */
  ghost predicate Full(es: seq<Entry>, blockSize: nat) {
    && es != []
    && |EncodeEntries(es[..|es| - 1])| < blockSize <= |EncodeEntries(es)|
  }

  ghost predicate Extended(before: seq<seq<Entry>>, after: seq<seq<Entry>>, blockSize: nat) {
    after != [] && before == after[..|after| - 1] && Full(after[|after| - 1], blockSize)
  }

  /** The entry that Add's arguments stand for, as it is stored. */
  function Added(key: Bytes, value: Bytes, isDeleted: bool): Entry {
    KeptEntry(Entry(key, if isDeleted then Tombstone else Live(value)))
  }

  /** NewWriter's block size. */
  function BlockSizeOf(blockSize: int): nat {
    if blockSize <= 0 then DEFAULT_BLOCK_SIZE else blockSize
  }

  class Writer {
    const crc: Bytes -> U32
    const blockSize: nat
    var out: Bytes
    var offset: nat
    var blockBuf: Bytes
    var blockStart: nat
    var index: seq<IndexEntry>
    var allKeys: seq<Bytes>
    var numEntries: nat
    var firstKey: Bytes
    ghost var blocks: seq<seq<Entry>>
    ghost var pending: seq<Entry>

    ghost predicate Valid()
      reads this
    {
      && blockSize > 0
      && NonEmpty(blocks)
      && out == DataBytes(crc, blocks) && offset == |out|
      && index == IndexOf(crc, blocks)
      && blockBuf == EncodeEntries(pending)
      && allKeys == KeysOf(Entries()) && numEntries == |allKeys|
      && (pending != [] ==> firstKey == pending[0].key && blockStart == offset)
    }

    ghost function Entries(): seq<Entry>
      reads this
    {
      Flatten(blocks) + pending
    }

    constructor (crc: Bytes -> U32, blockSize: int)
      ensures Valid() && Entries() == [] && blocks == [] && |blockBuf| < this.blockSize && this.crc == crc
      ensures this.blockSize == BlockSizeOf(blockSize)
    {
      this.crc := crc;
      this.blockSize := if blockSize <= 0 then DEFAULT_BLOCK_SIZE else blockSize;
      out, offset, blockBuf, blockStart := [], 0, [], 0;
      index, allKeys, numEntries, firstKey := [], [], 0, [];
      blocks, pending := [], [];
    }

    /** ok is false, and nothing is added, for the empty key the source refuses. */
    method Add(key: Bytes, value: Bytes, isDeleted: bool) returns (ok: bool)
      requires Valid() && |blockBuf| < blockSize
      modifies this
      ensures Valid() && |blockBuf| < blockSize
      ensures ok == (key != [])
      ensures Entries() == old(Entries()) + if ok then [Added(key, value, isDeleted)] else []
      ensures blocks == old(blocks) || Extended(old(blocks), blocks, blockSize)
    {
      hide EncodeEntries, DataBytes, IndexOf, Flatten, KeysOf;
      if |key| == 0 {
        return false;
      }
      ok := true;
      AddToBlock(key, value, isDeleted);
      if |blockBuf| >= blockSize {
        FlushBlock();
        assert blocks[..|blocks| - 1] == old(blocks);
      }
    }

    /** Add's entry, appended to the block buffer and the lists kept for Finish. */
    method AddToBlock(key: Bytes, value: Bytes, isDeleted: bool)
      requires Valid() && key != []
      modifies this
      ensures Valid() && blocks == old(blocks)
      ensures pending == old(pending) + [Added(key, value, isDeleted)]
      ensures Entries() == old(Entries()) + [Added(key, value, isDeleted)]
      ensures blockBuf == old(blockBuf) + EncodeEntry(Added(key, value, isDeleted))
    {
      hide EncodeEntries, DataBytes, IndexOf, Flatten, KeysOf, PutUint;
      if |blockBuf| == 0 {
        firstKey, blockStart := key, offset;
      }
      var valLen, flag := |value| % U32_SIZE, FLAG_NORMAL;
      if isDeleted {
        valLen, flag := 0, FLAG_TOMBSTONE;
      }
      var stored := value[..valLen];
      ghost var e := Added(key, value, isDeleted);
      EncodeEntriesSnoc(pending, e);
      EncodeEntriesSnoc(Entries(), e);
      ConcatAssociative(Flatten(blocks), pending, [e]);
      blockBuf := blockBuf + (PutUint(|key|, 4) + PutUint(valLen, 4) + [flag] + key + stored);
      allKeys := allKeys + [key];
      numEntries := numEntries + 1;
      pending := pending + [e];
    }

    method FlushBlock()
      requires Valid()
      modifies this
      ensures Valid() && Entries() == old(Entries())
      ensures pending == [] && blockBuf == []
      ensures blocks == old(blocks) + if old(pending) == [] then [] else [old(pending)]
    {
      hide EncodeEntries, DataBytes, IndexOf, Flatten, KeysOf, PutUint;
      if |blockBuf| == 0 {
        return;
      }
      var checksum := crc(blockBuf);
      out := out + blockBuf;
      offset := offset + |blockBuf|;
      out := out + PutUint(checksum, 4);
      offset := offset + 4;
      index := index + [IndexEntry(firstKey, blockStart, |blockBuf| + 4)];
      BlocksSnoc(crc, blocks, pending);
      ConcatAssociative(DataBytes(crc, blocks), blockBuf, PutUint(checksum, 4));
      assert Flatten(blocks) + pending + [] == Flatten(blocks) + pending;
      blockBuf, firstKey := [], [];
      blocks, pending := blocks + [pending], [];
    }

    /** Finish's index section. */
    method WriteIndex()
      modifies this`out, this`offset
      ensures out == old(out) + EncodeIndex(index)
      ensures offset == old(offset) + |EncodeIndex(index)|
    {
      hide EncodeIndex, PutUint;
      ghost var data := out;
      EncodeIndexSnoc([], IndexEntry([], 0, 0));
      assert index[..0] == [];
      for i := 0 to |index|
        invariant out == data + EncodeIndex(index[..i])
        invariant offset == old(offset) + |EncodeIndex(index[..i])|
      {
        var ie := index[i];
        var entry := PutUint(|ie.firstKey|, 4) + ie.firstKey + PutUint(ie.blockOffset, 8)
                     + PutUint(ie.blockLen, 4);
        EncodeIndexSnoc(index[..i], ie);
        assert index[..i + 1] == index[..i] + [ie];
        ConcatAssociative(data, EncodeIndex(index[..i]), entry);
        out := out + entry;
        offset := offset + |entry|;
      }
      assert index[..|index|] == index;
    }

    /** Flushes what is left and appends the index, the Bloom filter and the footer. */
    method Finish()
      requires Valid() && |blockBuf| < blockSize
      modifies this
      ensures NonEmpty(blocks) && Flatten(blocks) == old(Entries())
      ensures blocks == old(blocks) + if old(pending) == [] then [] else [old(pending)]
      ensures out == FileOf(crc, blocks, Bloom.BitCount(|old(Entries())|, BITS_PER_KEY))
    {
      hide EncodeEntries, DataBytes, IndexOf, EncodeIndex, EncodeFooter, Flatten, KeysOf, PutUint;
      hide Bloom.FilterOf, Bloom.Encode, Bloom.BitCount;
      ghost var es := Entries();
      FlushBlock();
      assert Flatten(blocks) == es by {
        assert Flatten(blocks) + [] == Flatten(blocks);
      }
      var indexOffset := offset;
      WriteIndex();
      var indexLen := offset - indexOffset;
      var bloomOffset := offset;
      var f := Bloom.Build(allKeys, BITS_PER_KEY);
      var encoded := Bloom.Encode(f);
      out := out + encoded;
      offset := offset + |encoded|;
      var bloomLen := offset - bloomOffset;
      out := out + EncodeFooter(Footer(indexOffset, indexLen, bloomOffset, bloomLen, numEntries));
    }
  }

  // ---------------------------------------------------------------------------------------------
  // Whole files
  // ---------------------------------------------------------------------------------------------

  /** What Finish leaves in a file: these entries, cut into full blocks. */
  ghost predicate Prints(crc: Bytes -> U32, file: Bytes, blocks: seq<seq<Entry>>, es: seq<Entry>) {
    && NonEmpty(blocks) && Flatten(blocks) == es
    && file == FileOf(crc, blocks, Bloom.BitCount(|es|, BITS_PER_KEY))
  }

  /** Every block but the last was cut as soon as it reached the block size, and the last not later. */
  ghost predicate CutAt(blocks: seq<seq<Entry>>, blockSize: nat) {
    forall i :: 0 <= i < |blocks| ==>
      && blocks[i] != [] && |EncodeEntries(blocks[i][..|blocks[i]| - 1])| < blockSize
      && (i < |blocks| - 1 ==> blockSize <= |EncodeEntries(blocks[i])|)
  }

  ghost predicate AllFull(blocks: seq<seq<Entry>>, blockSize: nat) {
    forall i :: 0 <= i < |blocks| ==> Full(blocks[i], blockSize)
  }

  lemma CutAtEnd(blocks: seq<seq<Entry>>, last: seq<Entry>, blockSize: nat)
    requires AllFull(blocks, blockSize) && |EncodeEntries(last)| < blockSize
    ensures CutAt(blocks + if last == [] then [] else [last], blockSize)
  {
    if last != [] {
      var n := |last| - 1;
      assert EncodeEntries(last) == EncodeEntries(last[..n]) + EncodeEntry(last[n]);
      hide EncodeEntries, EncodeEntry;
    } else {
      assert blocks + [] == blocks;
    }
  }

  lemma NoneFull(blockSize: nat)
    ensures AllFull([], blockSize)
  {
  }

  lemma WriterPending(w: Writer)
    requires w.Valid()
    ensures w.blockBuf == EncodeEntries(w.pending)
  {
  }

  /** The file is what the writer makes of these entries at this block size. */
  ghost predicate IsPrintOf(crc: Bytes -> U32, file: Bytes, es: seq<Entry>, blockSize: int) {
    exists blocks :: Prints(crc, file, blocks, KeptEntries(es)) && CutAt(blocks, BlockSizeOf(blockSize))
  }

  /** Adds every entry and finishes; ok is false at the first empty key, which Add refuses. */
  method PrintEntries(crc: Bytes -> U32, es: seq<Entry>, blockSize: int)
    returns (ok: bool, file: Bytes)
    ensures ok == forall e | e in es :: e.key != []
    ensures ok ==> IsPrintOf(crc, file, es, blockSize)
  {
    hide FileOf, Bloom.BitCount, Flatten, Writer.Valid, Writer.Entries, EncodeEntries, CutAt, KeptCell;
    var w := new Writer(crc, blockSize);
    assert KeptEntries([]) == [];
    for i := 0 to |es|
      invariant fresh(w) && w.crc == crc && w.Valid() && |w.blockBuf| < w.blockSize
      invariant w.Entries() == KeptEntries(es[..i]) && AllFull(w.blocks, w.blockSize)
      invariant forall e | e in es[..i] :: e.key != []
    {
      ok := w.Add(es[i].key, ValueOf(es[i].cell), es[i].cell.Tombstone?);
      if !ok {
        assert es[i] in es;
        return false, [];
      }
      KeptSnoc(es[..i], es[i]);
      assert es[..i + 1] == es[..i] + [es[i]];
    }
    assert es[..|es|] == es;
    WriterPending(w);
    CutAtEnd(w.blocks, w.pending, w.blockSize);
    w.Finish();
    ok, file := true, w.out;
    assert Prints(crc, file, w.blocks, KeptEntries(es)) && CutAt(w.blocks, BlockSizeOf(blockSize));
  }
}
