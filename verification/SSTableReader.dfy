/** Opening an SSTable file, looking a key up in it, and iterating over it, on any bytes at all. */
module SSTableReader {

  import opened ByteStrings
  import opened Tables
  import opened SSTableWriter
  import Bloom = BloomFilter

  datatype Result<+T> = Ok(value: T) | Failed

  /** What Get reports: a value, a tombstone, no entry, an error, or a panic on a filter short of bits. */
  datatype Answer = Found(value: Bytes) | Deleted | Absent | Corrupt | Panicked

  /** os.File.ReadAt: all n bytes at the offset, or an error. */
  function ReadAt(file: Bytes, offset: nat, n: nat): Result<Bytes> {
    if offset >= U64_SIZE / 2 then Failed
    else if n == 0 then Ok([])
    else if offset + n <= |file| then Ok(file[offset..offset + n])
    else Failed
  }

  // ---------------------------------------------------------------------------------------------
  // Open
  // ---------------------------------------------------------------------------------------------

  /** One index entry at the start of the remaining bytes; it takes 16 bytes and its key. */
  function ParseIndexEntry(data: Bytes): (r: Result<IndexEntry>)
    ensures r.Ok? ==> 16 + |r.value.firstKey| <= |data|
  {
    if |data| < 4 then Failed
    else
      var keyLen := Uint(data[..4]);
      if 4 + keyLen + 12 > |data| then Failed
      else
        Ok(IndexEntry(data[4..4 + keyLen], Uint(data[4 + keyLen..12 + keyLen]),
                      Uint(data[12 + keyLen..16 + keyLen])))
  }

  function ParseIndex(data: Bytes): Result<seq<IndexEntry>>
    decreases |data|
  {
    if data == [] then Ok([])
    else
      match ParseIndexEntry(data)
      case Failed => Failed
      case Ok(ie) =>
        Prepend([ie], ParseIndex(data[16 + |ie.firstKey|..]))
  }

  lemma IndexEntryAt(data: Bytes, o: nat)
    requires o <= |data|
    ensures var r := ParseIndexEntry(data[o..]);
            if o + 4 > |data| then r.Failed?
            else
              var k := Uint(data[o..o + 4]);
              if o + 4 + k + 12 > |data| then r.Failed?
              else && r == Ok(IndexEntry(data[o + 4..o + 4 + k], Uint(data[o + 4 + k..o + 12 + k]),
                                         Uint(data[o + 12 + k..o + 16 + k])))
                   && data[o..][16 + k..] == data[o + 16 + k..]
  {
    hide Uint;
    var rest := data[o..];
    if o + 4 <= |data| {
      assert data[o..o + 4] == rest[..4];
      var k := Uint(data[o..o + 4]);
      if o + 16 + k <= |data| {
        assert data[o + 4..o + 4 + k] == rest[4..4 + k];
        assert data[o + 4 + k..o + 12 + k] == rest[4 + k..12 + k];
        assert data[o + 12 + k..o + 16 + k] == rest[12 + k..16 + k];
      }
    }
  }

  method ParseIndexBlock(data: Bytes) returns (r: Result<seq<IndexEntry>>)
    ensures r == ParseIndex(data)
  {
    hide Uint, ParseIndexEntry;
    var entries: seq<IndexEntry> := [];
    var offset := 0;
    assert data[0..] == data && [] + entries == entries;
    PrependStep([], IndexEntry([], 0, 0), ParseIndex(data));
    while offset < |data|
      invariant offset <= |data|
      invariant ParseIndex(data) == Prepend(entries, ParseIndex(data[offset..]))
    {
      IndexEntryAt(data, offset);
      if offset + 4 > |data| {
        return Failed;
      }
      var keyLen := Uint(data[offset..offset + 4]);
      offset := offset + 4;
      if offset + keyLen + 12 > |data| {
        return Failed;
      }
      var firstKey := data[offset..offset + keyLen];
      offset := offset + keyLen;
      var blockOffset := Uint(data[offset..offset + 8]);
      offset := offset + 8;
      var blockLen := Uint(data[offset..offset + 4]);
      offset := offset + 4;
      PrependStep(entries, IndexEntry(firstKey, blockOffset, blockLen), ParseIndex(data[offset..]));
      entries := entries + [IndexEntry(firstKey, blockOffset, blockLen)];
    }
    assert entries + [] == entries;
    return Ok(entries);
  }

  function Prepend<T>(before: seq<T>, rest: Result<seq<T>>): Result<seq<T>> {
    if rest.Ok? then Ok(before + rest.value) else Failed
  }

  lemma PrependStep<T>(before: seq<T>, x: T, rest: Result<seq<T>>)
    ensures Prepend(before, Prepend([x], rest)) == Prepend(before + [x], rest)
    ensures Prepend([], rest) == rest
  {
    if rest.Ok? {
      ConcatAssociative(before, [x], rest.value);
      assert [] + rest.value == rest.value;
    }
  }

  datatype Reader = Reader(file: Bytes, index: seq<IndexEntry>, filter: Bloom.Filter, numEntries: nat)

  function ParseFooter(b: Bytes): Footer
    requires |b| == FOOTER_SIZE
  {
    Footer(Uint(b[0..8]), Uint(b[8..12]), Uint(b[12..20]), Uint(b[20..24]), Uint(b[24..32]))
  }

  function OpenFile(file: Bytes): Result<Reader> {
    if |file| < FOOTER_SIZE then Failed
    else
      var footer := file[|file| - FOOTER_SIZE..];
      var f := ParseFooter(footer);
      if Uint(footer[32..40]) != MAGIC || Uint(footer[40..42]) != VERSION then Failed
      else
        match ReadAt(file, f.indexOffset, f.indexLen)
        case Failed => Failed
        case Ok(indexBuf) =>
          match ParseIndex(indexBuf)
          case Failed => Failed
          case Ok(index) =>
            match ReadAt(file, f.bloomOffset, f.bloomLen)
            case Failed => Failed
            case Ok(bloomBuf) => Ok(Reader(file, index, Bloom.Decode(bloomBuf), f.numEntries))
  }

  method Open(file: Bytes) returns (r: Result<Reader>)
    ensures r == OpenFile(file)
  {
    hide Uint, ParseIndex, Bloom.Decode;
    if |file| < FOOTER_SIZE {
      return Failed;
    }
    var footer := file[|file| - FOOTER_SIZE..];
    var f := ParseFooter(footer);
    if Uint(footer[32..40]) != MAGIC {
      return Failed;
    }
    if Uint(footer[40..42]) != VERSION {
      return Failed;
    }
    var indexBuf := ReadAt(file, f.indexOffset, f.indexLen);
    if indexBuf.Failed? {
      return Failed;
    }
    var index := ParseIndexBlock(indexBuf.value);
    if index.Failed? {
      return Failed;
    }
    var bloomBuf := ReadAt(file, f.bloomOffset, f.bloomLen);
    if bloomBuf.Failed? {
      return Failed;
    }
    return Ok(Reader(file, index.value, Bloom.Decode(bloomBuf.value), f.numEntries));
  }

  // ---------------------------------------------------------------------------------------------
  // Get
  // ---------------------------------------------------------------------------------------------

  /** The binary search over index[lo..hi], having found `result` so far; -1 is "before the first block". */
  function Search(index: seq<IndexEntry>, key: Bytes, lo: nat, hi: int, result: int): (r: int)
    requires hi < |index|
    ensures r == result || lo <= r <= hi
    decreases hi - lo + 1
  {
    if lo > hi then result
    else
      var mid := (lo + hi) / 2;
      if AtMost(index[mid].firstKey, key) then Search(index, key, mid + 1, hi, mid)
      else Search(index, key, lo, mid - 1, result)
  }

  function SearchIndex(index: seq<IndexEntry>, key: Bytes): (r: int)
    ensures -1 <= r < |index|
  {
    Search(index, key, 0, |index| - 1, -1)
  }

  method FindBlock(index: seq<IndexEntry>, key: Bytes) returns (result: int)
    ensures result == SearchIndex(index, key)
  {
    hide AtMost;
    var lo, hi := 0, |index| - 1;
    result := -1;
    while lo <= hi
      invariant 0 <= lo && hi < |index|
      invariant Search(index, key, lo, hi, result) == SearchIndex(index, key)
      decreases hi - lo + 1
    {
      var mid := (lo + hi) / 2;
      if AtMost(index[mid].firstKey, key) {
        result := mid;
        lo := mid + 1;
      } else {
        hi := mid - 1;
      }
    }
  }

  /** A data block without its checksum, if the checksum matches. */
  function ReadBlock(crc: Bytes -> U32, file: Bytes, offset: nat, length: nat): Result<Bytes> {
    match ReadAt(file, offset, length)
    case Failed => Failed
    case Ok(buf) =>
      if |buf| < 4 then Failed
      else if Uint(buf[|buf| - 4..]) != crc(buf[..|buf| - 4]) then Failed
      else Ok(buf[..|buf| - 4])
  }

  /** One entry at the start of a block's remaining bytes. */
  datatype Parsed = Parsed(key: Bytes, value: Bytes, flag: Byte, size: nat)

  function ParseEntry(data: Bytes): (r: Result<Parsed>)
    ensures r.Ok? ==> ENTRY_HEADER_SIZE <= r.value.size <= |data|
  {
    if |data| < ENTRY_HEADER_SIZE then Failed
    else
      var keyLen, valLen := Uint(data[..4]), Uint(data[4..8]);
      var size := ENTRY_HEADER_SIZE + keyLen + valLen;
      if size > |data| then Failed
      else
        Ok(Parsed(data[ENTRY_HEADER_SIZE..ENTRY_HEADER_SIZE + keyLen], data[ENTRY_HEADER_SIZE + keyLen..size],
                  data[8], size))
  }

  lemma EntryAt(data: Bytes, o: nat)
    requires o <= |data|
    ensures var r := ParseEntry(data[o..]);
            if o + ENTRY_HEADER_SIZE > |data| then r.Failed?
            else
              var p, k, v := o + ENTRY_HEADER_SIZE, Uint(data[o..o + 4]), Uint(data[o + 4..o + 8]);
              if p + k + v > |data| then r.Failed?
              else && r == Ok(Parsed(data[p..p + k], data[p + k..p + k + v], data[o + 8], ENTRY_HEADER_SIZE + k + v))
                   && data[o..][r.value.size..] == data[p + k + v..]
  {
    hide Uint;
    var rest := data[o..];
    if o + ENTRY_HEADER_SIZE <= |data| {
      assert data[o..o + 4] == rest[..4] && data[o + 4..o + 8] == rest[4..8];
      var p, k, v := o + ENTRY_HEADER_SIZE, Uint(data[o..o + 4]), Uint(data[o + 4..o + 8]);
      if p + k + v <= |data| {
        assert data[p..p + k] == rest[ENTRY_HEADER_SIZE..ENTRY_HEADER_SIZE + k];
        assert data[p + k..p + k + v] == rest[ENTRY_HEADER_SIZE + k..ENTRY_HEADER_SIZE + k + v];
      }
    }
  }

  function ScanBlock(data: Bytes, key: Bytes): Answer
    decreases |data|
  {
    if data == [] then Absent
    else
      match ParseEntry(data)
      case Failed => Corrupt
      case Ok(p) =>
        if p.key == key then (if p.flag == FLAG_TOMBSTONE then Deleted else Found(p.value))
        else if Less(key, p.key) then Absent
        else ScanBlock(data[p.size..], key)
  }

  method Scan(data: Bytes, key: Bytes) returns (r: Answer)
    ensures r == ScanBlock(data, key)
  {
    hide Uint, ParseEntry, Less;
    var offset := 0;
    assert data[0..] == data;
    while offset < |data|
      invariant offset <= |data|
      invariant ScanBlock(data[offset..], key) == ScanBlock(data, key)
    {
      EntryAt(data, offset);
      if offset + ENTRY_HEADER_SIZE > |data| {
        return Corrupt;
      }
      var keyLen := Uint(data[offset..offset + 4]);
      var valLen := Uint(data[offset + 4..offset + 8]);
      var flags := data[offset + 8];
      offset := offset + ENTRY_HEADER_SIZE;
      if offset + keyLen + valLen > |data| {
        return Corrupt;
      }
      var entryKey := data[offset..offset + keyLen];
      offset := offset + keyLen;
      if entryKey == key {
        return if flags == FLAG_TOMBSTONE then Deleted else Found(data[offset..offset + valLen]);
      }
      if Less(key, entryKey) {
        return Absent;
      }
      offset := offset + valLen;
    }
    return Absent;
  }

  function Lookup(crc: Bytes -> U32, r: Reader, key: Bytes): Answer {
    match Bloom.Test(r.filter, key)
    case No => Absent
    case OutOfRange => Panicked
    case Maybe =>
      var i := SearchIndex(r.index, key);
      if i < 0 then Absent
      else
        match ReadBlock(crc, r.file, r.index[i].blockOffset, r.index[i].blockLen)
        case Failed => Corrupt
        case Ok(data) => ScanBlock(data, key)
  }

  /** Reader.Get. */
  method Get(crc: Bytes -> U32, r: Reader, key: Bytes) returns (a: Answer)
    ensures a == Lookup(crc, r, key)
  {
    hide Bloom.Test, SearchIndex, ReadBlock, ScanBlock;
    var may := Bloom.Query(r.filter, key);
    if may != Bloom.Maybe {
      return if may == Bloom.No then Absent else Panicked;
    }
    var i := FindBlock(r.index, key);
    if i < 0 {
      return Absent;
    }
    var data := ReadBlock(crc, r.file, r.index[i].blockOffset, r.index[i].blockLen);
    if data.Failed? {
      return Corrupt;
    }
    a := Scan(data.value, key);
  }

  // ---------------------------------------------------------------------------------------------
  // Iteration
  // ---------------------------------------------------------------------------------------------

  function EntryOf(p: Parsed): Entry {
    Entry(p.key, if p.flag == FLAG_TOMBSTONE then Tombstone else Live(p.value))
  }

  /** The entries of a block's remaining bytes up to the first that does not parse, if any. */
  datatype Decoded = Decoded(entries: seq<Entry>, clean: bool)

  function DecodeBlock(data: Bytes): Decoded
    decreases |data|
  {
    if data == [] then Decoded([], true)
    else
      match ParseEntry(data)
      case Failed => Decoded([], false)
      case Ok(p) =>
        var rest := DecodeBlock(data[p.size..]);
        Decoded([EntryOf(p)] + rest.entries, rest.clean)
  }

  /** What iteration yields from block i on: it ends at the first block or entry that does not read. */
  function EntriesFrom(crc: Bytes -> U32, r: Reader, i: nat): seq<Entry>
    decreases |r.index| - i, 1
  {
    if i >= |r.index| then []
    else
      match ReadBlock(crc, r.file, r.index[i].blockOffset, r.index[i].blockLen)
      case Failed => []
      case Ok(data) => RestOf(crc, r, data, i)
  }

  /** What iteration yields from inside block i, with these bytes of it left. */
  function RestOf(crc: Bytes -> U32, r: Reader, data: Bytes, i: nat): seq<Entry>
    requires i < |r.index|
    decreases |r.index| - i, 0
  {
    var d := DecodeBlock(data);
    if d.clean then d.entries + EntriesFrom(crc, r, i + 1) else d.entries
  }

  lemma RestExhausted(crc: Bytes -> U32, r: Reader, i: nat)
    requires i < |r.index|
    ensures RestOf(crc, r, [], i) == EntriesFrom(crc, r, i + 1)
  {
    hide EntriesFrom;
    assert [] + EntriesFrom(crc, r, i + 1) == EntriesFrom(crc, r, i + 1);
  }

  lemma RestStep(crc: Bytes -> U32, r: Reader, data: Bytes, i: nat)
    requires data != [] && i < |r.index|
    ensures match ParseEntry(data)
            case Failed => RestOf(crc, r, data, i) == []
            case Ok(p) => RestOf(crc, r, data, i) == [EntryOf(p)] + RestOf(crc, r, data[p.size..], i)
  {
    hide ParseEntry, EntriesFrom;
    if ParseEntry(data).Ok? {
      var p := ParseEntry(data).value;
      ConcatAssociative([EntryOf(p)], DecodeBlock(data[p.size..]).entries, EntriesFrom(crc, r, i + 1));
    }
  }

  class Iterator {
    const crc: Bytes -> U32
    const reader: Reader
    var blockIndex: nat
    var blockData: Option<Bytes>
    var offset: nat
    var valid: bool
    var currKey: Bytes
    var currValue: Bytes
    var currDeleted: bool

    ghost predicate Positioned()
      reads this
    {
      blockData.Some? ==> blockIndex < |reader.index| && offset <= |blockData.value|
    }

    /** The entries the iterator has yet to deliver. */
    ghost function Remaining(): seq<Entry>
      requires Positioned()
      reads this
    {
      if blockData.None? then EntriesFrom(crc, reader, blockIndex)
      else RestOf(crc, reader, blockData.value[offset..], blockIndex)
    }

    ghost function Current(): Entry
      reads this
    {
      Entry(currKey, if currDeleted then Tombstone else Live(currValue))
    }

    constructor (crc: Bytes -> U32, reader: Reader)
      ensures Positioned() && this.crc == crc && this.reader == reader
      ensures Remaining() == EntriesFrom(crc, reader, 0)
    {
      this.crc, this.reader := crc, reader;
      blockIndex, blockData, offset, valid := 0, None, 0, true;
      currKey, currValue, currDeleted := [], [], false;
    }

    /** Delivers the next remaining entry, crossing block boundaries, or becomes invalid if there is none. */
    method Advance()
      requires Positioned()
      modifies this
      ensures valid == (old(Remaining()) != [])
      ensures valid ==> Positioned() && old(Remaining()) == [Current()] + Remaining()
    {
      hide ReadBlock, Uint, ParseEntry, DecodeBlock;
      ghost var all := Remaining();
      while true
        invariant Positioned() && Remaining() == all
        decreases |reader.index| - blockIndex, if blockData.None? then 1 else 0
      {
        if blockData.None? {
          if blockIndex >= |reader.index| {
            valid := false;
            return;
          }
          var ie := reader.index[blockIndex];
          var data := ReadBlock(crc, reader.file, ie.blockOffset, ie.blockLen);
          if data.Failed? {
            valid := false;
            return;
          }
          blockData := Some(data.value);
          offset := 0;
          assert data.value[0..] == data.value;
        }
        if offset >= |blockData.value| {
          assert blockData.value[offset..] == [];
          RestExhausted(crc, reader, blockIndex);
          blockIndex := blockIndex + 1;
          blockData := None;
          offset := 0;
          continue;
        }
        RestStep(crc, reader, blockData.value[offset..], blockIndex);
        TakeEntry();
        return;
      }
    }

    /** Advance's step within a loaded block that is not exhausted. */
    method TakeEntry()
      requires Positioned() && blockData.Some? && offset < |blockData.value|
      modifies this
      ensures valid == ParseEntry(old(blockData.value[offset..])).Ok?
      ensures valid ==> var p := ParseEntry(old(blockData.value[offset..])).value;
                        && Current() == EntryOf(p)
                        && Positioned() && blockIndex == old(blockIndex) && blockData == old(blockData)
                        && blockData.value[offset..] == old(blockData.value[offset..])[p.size..]
    {
      hide Uint, ParseEntry;
      var data := blockData.value;
      EntryAt(data, offset);
      if offset + ENTRY_HEADER_SIZE > |data| {
        valid := false;
        return;
      }
      var keyLen := Uint(data[offset..offset + 4]);
      var valLen := Uint(data[offset + 4..offset + 8]);
      var flags := data[offset + 8];
      offset := offset + ENTRY_HEADER_SIZE;
      if offset + keyLen + valLen > |data| {
        valid := false;
        return;
      }
      currKey := data[offset..offset + keyLen];
      offset := offset + keyLen;
      currDeleted := flags == FLAG_TOMBSTONE;
      assert valLen == 0 ==> data[offset..offset + valLen] == [];
      if !currDeleted && valLen > 0 {
        currValue := data[offset..offset + valLen];
      } else {
        currValue := [];
      }
      offset := offset + valLen;
      valid := true;
    }

    method SeekToFirst()
      modifies this
      ensures valid == (EntriesFrom(crc, reader, 0) != [])
      ensures valid ==> Positioned() && EntriesFrom(crc, reader, 0) == [Current()] + Remaining()
    {
      blockIndex, blockData, offset, valid := 0, None, 0, true;
      Advance();
    }
  }

  /** SeekToFirst, then Next until the iterator is invalid. */
  method ListAll(it: Iterator) returns (es: seq<Entry>)
    modifies it
    ensures es == EntriesFrom(it.crc, it.reader, 0)
  {
    hide EntriesFrom;
    ghost var all := EntriesFrom(it.crc, it.reader, 0);
    es := [];
    it.SeekToFirst();
    while it.valid
      invariant it.valid ==> it.Positioned() && all == es + ([it.Current()] + it.Remaining())
      invariant !it.valid ==> es == all
      decreases if it.valid then 1 + |it.Remaining()| else 0
    {
      var e := Entry(it.currKey, if it.currDeleted then Tombstone else Live(it.currValue));
      ConcatAssociative(es, [e], it.Remaining());
      es := es + [e];
      it.Advance();
      assert es + [] == es;
    }
  }
}
