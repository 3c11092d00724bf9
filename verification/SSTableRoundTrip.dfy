/** Reading back what the writer printed: lookups and iteration agree with the entry list. */
module SSTableRoundTrip {

  import opened ByteStrings
  import opened Tables
  import opened SSTableWriter
  import opened SSTableReader
  import Bloom = BloomFilter

  function AnswerOf(c: Option<Cell>): Answer {
    match c
    case None => Absent
    case Some(Tombstone) => Deleted
    case Some(Live(v)) => Found(v)
  }

  ghost predicate SmallEntries(es: seq<Entry>) {
    forall i :: 0 <= i < |es| ==> |es[i].key| < U32_SIZE && |ValueOf(es[i].cell)| < U32_SIZE
  }

  // ---------------------------------------------------------------------------------------------
  // Entries and blocks
  // ---------------------------------------------------------------------------------------------

  lemma {:induction false} EncodeEntriesConcat(a: seq<Entry>, b: seq<Entry>)
    ensures EncodeEntries(a + b) == EncodeEntries(a) + EncodeEntries(b)
  {
    hide EncodeEntry;
    if b == [] {
      assert a + b == a;
      assert EncodeEntries(a) + [] == EncodeEntries(a);
    } else {
      hide EncodeEntries;
      var n := |b| - 1;
      EncodeEntriesConcat(a, b[..n]);
      EncodeEntriesConcatSnoc(a, b[..n], b[n]);
      assert b[..n] + [b[n]] == b;
    }
  }

  lemma EncodeEntriesConcatSnoc(a: seq<Entry>, b: seq<Entry>, e: Entry)
    requires EncodeEntries(a + b) == EncodeEntries(a) + EncodeEntries(b)
    ensures EncodeEntries(a + (b + [e])) == EncodeEntries(a) + EncodeEntries(b + [e])
  {
    hide EncodeEntry, EncodeEntries;
    EncodeEntriesSnoc(a + b, e);
    EncodeEntriesSnoc(b, e);
    ConcatAssociative(a, b, [e]);
    ConcatAssociative(EncodeEntries(a), EncodeEntries(b), EncodeEntry(e));
  }

  lemma EncodeEntriesFront(es: seq<Entry>)
    requires es != []
    ensures EncodeEntries(es) == EncodeEntry(es[0]) + EncodeEntries(es[1..])
  {
    hide EncodeEntry;
    EncodeEntriesConcat([es[0]], es[1..]);
    assert [es[0]] + es[1..] == es;
    EncodeEntriesSnoc([], es[0]);
    assert [] + [es[0]] == [es[0]];
    assert EncodeEntries([]) + EncodeEntry(es[0]) == EncodeEntry(es[0]);
  }

  lemma ParseEncoded(e: Entry, tail: Bytes)
    requires |e.key| < U32_SIZE && |ValueOf(e.cell)| < U32_SIZE
    ensures ParseEntry(EncodeEntry(e) + tail)
         == Ok(Parsed(e.key, ValueOf(e.cell), FlagOf(e.cell), |EncodeEntry(e)|))
    ensures (EncodeEntry(e) + tail)[|EncodeEntry(e)|..] == tail
  {
    hide Uint, PutUint;
    var keyField, valField, v := PutUint(|e.key|, 4), PutUint(|ValueOf(e.cell)|, 4), ValueOf(e.cell);
    U32RoundTrip(|e.key|);
    U32RoundTrip(|v|);
    var b := EncodeEntry(e) + tail;
    assert b == keyField + (valField + ([FlagOf(e.cell)] + (e.key + (v + tail))));
    assert b[..4] == keyField && b[4..8] == valField;
    assert b[9..9 + |e.key|] == e.key;
    assert b[9 + |e.key|..9 + |e.key| + |v|] == v;
  }

  /** Scanning a printed block finds exactly what the sorted entry list holds. */
  lemma {:induction false} ScanEncoded(es: seq<Entry>, key: Bytes)
    requires Sorted(es) && SmallEntries(es)
    ensures ScanBlock(EncodeEntries(es), key) == AnswerOf(Find(es, key))
  {
    hide ParseEntry, EncodeEntry, Less;
    if es != [] {
      EncodeEntriesFront(es);
      hide EncodeEntries;
      ParseEncoded(es[0], EncodeEntries(es[1..]));
      LessTotal(es[0].key, key);
      if Less(key, es[0].key) {
        AbsentBefore(es, key);
        LessAsymmetric(key, es[0].key);
      } else if key != es[0].key {
        LessAsymmetric(es[0].key, key);
        ScanEncoded(es[1..], key);
      }
    }
  }

  /** A key below the first key of a sorted list is not in it. */
  lemma AbsentBefore(es: seq<Entry>, key: Bytes)
    requires Sorted(es) && (es != [] ==> Less(key, es[0].key))
    ensures Find(es, key) == None
  {
    forall i | 0 <= i < |es|
      ensures es[i].key != key
    {
      if i > 0 {
        LessTransitive(key, es[0].key, es[i].key);
      }
      LessIrreflexive(key);
    }
    FindNone(es, key);
  }

  /** Decoding a printed block gives back its entries. */
  lemma {:induction false} DecodeEncoded(es: seq<Entry>)
    requires SmallEntries(es)
    ensures DecodeBlock(EncodeEntries(es)) == Decoded(es, true)
  {
    hide ParseEntry, EncodeEntry;
    if es != [] {
      EncodeEntriesFront(es);
      hide EncodeEntries;
      ParseEncoded(es[0], EncodeEntries(es[1..]));
      DecodeEncoded(es[1..]);
      assert [es[0]] + es[1..] == es;
    }
  }

  /** Each index entry locates its block's bytes. */
  lemma {:induction false} BlockAt(crc: Bytes -> U32, blocks: seq<seq<Entry>>, i: nat)
    requires NonEmpty(blocks) && i < |blocks|
    ensures var ie, data := IndexOf(crc, blocks)[i], DataBytes(crc, blocks);
            && ie.firstKey == blocks[i][0].key
            && ie.blockLen == |Block(crc, blocks[i])|
            && ie.blockOffset + ie.blockLen <= |data|
            && data[ie.blockOffset..ie.blockOffset + ie.blockLen] == Block(crc, blocks[i])
  {
    hide Block, IndexOf, DataBytes;
    var n := |blocks| - 1;
    var before, last := blocks[..n], blocks[n];
    BlocksSnoc(crc, before, last);
    assert before + [last] == blocks;
    if i < n {
      BlockAt(crc, before, i);
      var ie := IndexOf(crc, before)[i];
      SliceOfConcat(DataBytes(crc, before), Block(crc, last), ie.blockOffset, ie.blockOffset + ie.blockLen);
    } else {
      ConcatSplit(DataBytes(crc, before), Block(crc, last));
    }
  }

  lemma ReadBlockAt(crc: Bytes -> U32, blocks: seq<seq<Entry>>, rest: Bytes, i: nat)
    requires NonEmpty(blocks) && i < |blocks| && |DataBytes(crc, blocks)| < U64_SIZE / 2
    ensures var ie := IndexOf(crc, blocks)[i];
            ReadBlock(crc, DataBytes(crc, blocks) + rest, ie.blockOffset, ie.blockLen)
            == Ok(EncodeEntries(blocks[i]))
  {
    hide DataBytes, IndexOf, EncodeEntries, Uint, PutUint;
    BlockAt(crc, blocks, i);
    var ie, body := IndexOf(crc, blocks)[i], EncodeEntries(blocks[i]);
    var buf := (DataBytes(crc, blocks) + rest)[ie.blockOffset..ie.blockOffset + ie.blockLen];
    assert buf == Block(crc, blocks[i]);
    ConcatSplit(body, PutUint(crc(body), 4));
    U32RoundTrip(crc(body));
  }

  // ---------------------------------------------------------------------------------------------
  // Index
  // ---------------------------------------------------------------------------------------------

  ghost predicate SmallIndex(ix: seq<IndexEntry>) {
    forall i :: 0 <= i < |ix| ==>
      |ix[i].firstKey| < U32_SIZE && ix[i].blockOffset < U64_SIZE && ix[i].blockLen < U32_SIZE
  }

  lemma {:induction false} EncodeIndexConcat(a: seq<IndexEntry>, b: seq<IndexEntry>)
    ensures EncodeIndex(a + b) == EncodeIndex(a) + EncodeIndex(b)
  {
    hide EncodeIndexEntry;
    if b == [] {
      assert a + b == a;
    } else {
      var n := |b| - 1;
      EncodeIndexConcat(a, b[..n]);
      EncodeIndexSnoc(a + b[..n], b[n]);
      assert a + b == a + b[..n] + [b[n]];
      ConcatAssociative(EncodeIndex(a), EncodeIndex(b[..n]), EncodeIndexEntry(b[n]));
    }
  }

  lemma ParseEncodedIndexEntry(ie: IndexEntry, tail: Bytes)
    requires |ie.firstKey| < U32_SIZE && ie.blockOffset < U64_SIZE && ie.blockLen < U32_SIZE
    ensures ParseIndexEntry(EncodeIndexEntry(ie) + tail) == Ok(ie)
    ensures (EncodeIndexEntry(ie) + tail)[16 + |ie.firstKey|..] == tail
  {
    hide Uint, PutUint;
    var k := |ie.firstKey|;
    var keyField, offField, lenField := PutUint(k, 4), PutUint(ie.blockOffset, 8), PutUint(ie.blockLen, 4);
    U32RoundTrip(k);
    U64RoundTrip(ie.blockOffset);
    U32RoundTrip(ie.blockLen);
    var b := EncodeIndexEntry(ie) + tail;
    assert b == keyField + (ie.firstKey + (offField + (lenField + tail)));
    assert b[..4] == keyField && b[4..4 + k] == ie.firstKey;
    assert b[4 + k..12 + k] == offField && b[12 + k..16 + k] == lenField;
  }

  lemma {:induction false} ParseEncodedIndex(ix: seq<IndexEntry>)
    requires SmallIndex(ix)
    ensures ParseIndex(EncodeIndex(ix)) == Ok(ix)
  {
    hide ParseIndexEntry, EncodeIndexEntry;
    if ix != [] {
      EncodeIndexConcat([ix[0]], ix[1..]);
      assert [ix[0]] + ix[1..] == ix;
      EncodeIndexSnoc([], ix[0]);
      assert [] + [ix[0]] == [ix[0]];
      assert EncodeIndex([]) + EncodeIndexEntry(ix[0]) == EncodeIndexEntry(ix[0]);
      hide EncodeIndex;
      ParseEncodedIndexEntry(ix[0], EncodeIndex(ix[1..]));
      ParseEncodedIndex(ix[1..]);
    }
  }

  // ---------------------------------------------------------------------------------------------
  // Open
  // ---------------------------------------------------------------------------------------------

  /** Every stored size fits its field: 32-bit lengths, and offsets that are valid int64 values. */
  ghost predicate Fits(crc: Bytes -> U32, blocks: seq<seq<Entry>>, m: nat)
    requires NonEmpty(blocks)
  {
    && SmallEntries(Flatten(blocks))
    && (forall i :: 0 <= i < |blocks| ==> |Block(crc, blocks[i])| < U32_SIZE)
    && |DataBytes(crc, blocks)| + |EncodeIndex(IndexOf(crc, blocks))| < U64_SIZE / 2
    && |EncodeIndex(IndexOf(crc, blocks))| < U32_SIZE
    && |Flatten(blocks)| < U64_SIZE
    && m < U32_SIZE
  }

  lemma FooterRoundTrip(f: Footer)
    requires f.indexOffset < U64_SIZE && f.indexLen < U32_SIZE && f.bloomOffset < U64_SIZE && f.bloomLen < U32_SIZE
    requires f.numEntries < U64_SIZE
    ensures var b := EncodeFooter(f);
            ParseFooter(b) == f && Uint(b[32..40]) == MAGIC && Uint(b[40..42]) == VERSION
  {
    hide Uint, PutUint;
    var b := EncodeFooter(f);
    U64RoundTrip(f.indexOffset);
    U32RoundTrip(f.indexLen);
    U64RoundTrip(f.bloomOffset);
    U32RoundTrip(f.bloomLen);
    U64RoundTrip(f.numEntries);
    U64RoundTrip(MAGIC);
    Pow256Values();
    UintOfPutUint(VERSION, 2);
    assert b[0..8] == PutUint(f.indexOffset, 8) && b[8..12] == PutUint(f.indexLen, 4);
    assert b[12..20] == PutUint(f.bloomOffset, 8) && b[20..24] == PutUint(f.bloomLen, 4);
    assert b[24..32] == PutUint(f.numEntries, 8) && b[32..40] == PutUint(MAGIC, 8);
    assert b[40..42] == PutUint(VERSION, 2);
  }

  lemma {:induction false} FlattenMembers(blocks: seq<seq<Entry>>, i: nat)
    requires i < |blocks|
    ensures Flatten(blocks) == Flatten(blocks[..i]) + blocks[i] + Flatten(blocks[i + 1..])
    decreases |blocks|
  {
    var n := |blocks| - 1;
    if i == n {
      assert Flatten(blocks[..i]) + blocks[i] + [] == Flatten(blocks[..i]) + blocks[i];
    } else {
      var before := blocks[..n];
      FlattenMembers(before, i);
      assert before[..i] == blocks[..i] && before[i + 1..] == blocks[i + 1..][..n - i - 1];
      assert blocks[i + 1..][n - i - 1] == blocks[n];
      ConcatAssociative(Flatten(blocks[..i]) + blocks[i], Flatten(before[i + 1..]), blocks[n]);
    }
  }

  lemma IndexIsSmall(crc: Bytes -> U32, blocks: seq<seq<Entry>>, m: nat)
    requires NonEmpty(blocks) && Fits(crc, blocks, m)
    ensures SmallIndex(IndexOf(crc, blocks))
  {
    hide DataBytes, IndexOf, Block, EncodeIndex, Flatten;
    forall i | 0 <= i < |blocks|
      ensures |blocks[i][0].key| < U32_SIZE
    {
      FlattenMembers(blocks, i);
      var before := Flatten(blocks[..i]);
      assert Flatten(blocks)[|before|] == blocks[i][0];
    }
    forall i | 0 <= i < |blocks|
      ensures var ie := IndexOf(crc, blocks)[i];
              |ie.firstKey| < U32_SIZE && ie.blockOffset < U64_SIZE && ie.blockLen < U32_SIZE
    {
      BlockAt(crc, blocks, i);
    }
  }

  /** A printed file opens, with the index and the filter the writer had. */
  lemma OpenPrinted(crc: Bytes -> U32, blocks: seq<seq<Entry>>, m: nat)
    requires NonEmpty(blocks) && m % 8 == 0 && (Flatten(blocks) != [] ==> m > 0) && Fits(crc, blocks, m)
    ensures var keys := KeysOf(Flatten(blocks));
            OpenFile(FileOf(crc, blocks, m))
            == Ok(Reader(FileOf(crc, blocks, m), IndexOf(crc, blocks), Bloom.FilterOf(keys, m), |keys|))
  {
    hide DataBytes, IndexOf, EncodeIndex, EncodeFooter, Flatten, KeysOf, OpenFile, ParseIndex;
    hide Bloom.FilterOf, Bloom.Encode, Bloom.Decode, Less;
    var keys := KeysOf(Flatten(blocks));
    var filter := Bloom.FilterOf(keys, m);
    FilterIsSmall(keys, m);
    Bloom.DecodeEncode(filter);
    IndexIsSmall(crc, blocks, m);
    ParseEncodedIndex(IndexOf(crc, blocks));
    OpenSections(DataBytes(crc, blocks), EncodeIndex(IndexOf(crc, blocks)), Bloom.Encode(filter), |keys|);
  }

  /** Open, on any three sections followed by the footer that describes them. */
  lemma OpenSections(data: Bytes, index: Bytes, bloom: Bytes, n: nat)
    requires |data| + |index| < U64_SIZE / 2 && |index| < U32_SIZE && |bloom| < U32_SIZE && n < U64_SIZE
    requires ParseIndex(index).Ok?
    ensures var file := data + index + bloom + EncodeFooter(Footer(|data|, |index|, |data| + |index|, |bloom|, n));
            OpenFile(file) == Ok(Reader(file, ParseIndex(index).value, Bloom.Decode(bloom), n))
  {
    hide EncodeFooter, ParseFooter, ParseIndex, Uint, Bloom.Decode;
    var footer := Footer(|data|, |index|, |data| + |index|, |bloom|, n);
    FooterRoundTrip(footer);
    Sections(data, index, bloom, EncodeFooter(footer));
  }

  lemma FilterIsSmall(keys: seq<Bytes>, m: nat)
    requires m % 8 == 0 && (keys != [] ==> m > 0) && m < U32_SIZE
    ensures var f := Bloom.FilterOf(keys, m);
            f.m < U32_SIZE && f.k < 256 && |Bloom.Encode(f)| < U32_SIZE
  {
  }

  lemma Sections(data: Bytes, index: Bytes, bloom: Bytes, footer: Bytes)
    ensures var file := data + index + bloom + footer;
            && file[|data|..|data| + |index|] == index
            && file[|data| + |index|..|data| + |index| + |bloom|] == bloom
            && file[|file| - |footer|..] == footer
            && file == data + (index + bloom + footer)
  {
  }

  // ---------------------------------------------------------------------------------------------
  // Search
  // ---------------------------------------------------------------------------------------------

  ghost predicate IndexSorted(index: seq<IndexEntry>) {
    forall i, j :: 0 <= i < j < |index| ==> Less(index[i].firstKey, index[j].firstKey)
  }

  ghost predicate UpToAtMost(index: seq<IndexEntry>, key: Bytes, n: int)
    requires n <= |index|
  {
    forall i :: 0 <= i < n ==> AtMost(index[i].firstKey, key)
  }

  ghost predicate FromAbove(index: seq<IndexEntry>, key: Bytes, n: nat) {
    forall i :: n <= i < |index| ==> !AtMost(index[i].firstKey, key)
  }

  lemma PivotAtMost(index: seq<IndexEntry>, key: Bytes, mid: nat)
    requires IndexSorted(index) && mid < |index| && AtMost(index[mid].firstKey, key)
    ensures UpToAtMost(index, key, mid + 1)
  {
    hide Less;
    forall i | 0 <= i < mid
      ensures AtMost(index[i].firstKey, key)
    {
      if index[mid].firstKey != key {
        LessTransitive(index[i].firstKey, index[mid].firstKey, key);
      }
    }
  }

  lemma PivotAbove(index: seq<IndexEntry>, key: Bytes, mid: nat)
    requires IndexSorted(index) && mid < |index| && !AtMost(index[mid].firstKey, key)
    ensures FromAbove(index, key, mid)
  {
    hide Less;
    forall i | mid < i < |index|
      ensures !AtMost(index[i].firstKey, key)
    {
      if Less(index[i].firstKey, key) {
        LessTransitive(index[mid].firstKey, index[i].firstKey, key);
      }
    }
  }

  /** The binary search lands on the last block whose first key is not above the key. */
  lemma {:induction false} SearchIsRightmost(index: seq<IndexEntry>, key: Bytes, lo: nat, hi: int)
    requires IndexSorted(index) && lo <= hi + 1 <= |index|
    requires UpToAtMost(index, key, lo) && FromAbove(index, key, hi + 1)
    ensures var r := Search(index, key, lo, hi, lo - 1);
            UpToAtMost(index, key, r + 1) && FromAbove(index, key, r + 1)
    decreases hi - lo + 1
  {
    hide AtMost, UpToAtMost, FromAbove;
    if lo <= hi {
      var mid := (lo + hi) / 2;
      if AtMost(index[mid].firstKey, key) {
        PivotAtMost(index, key, mid);
        SearchIsRightmost(index, key, mid + 1, hi);
      } else {
        PivotAbove(index, key, mid);
        SearchIsRightmost(index, key, lo, mid - 1);
      }
    }
  }

  // ---------------------------------------------------------------------------------------------
  // Get
  // ---------------------------------------------------------------------------------------------

  lemma SortedConcat(a: seq<Entry>, b: seq<Entry>)
    requires Sorted(a + b)
    ensures Sorted(a) && Sorted(b)
    ensures forall i, j :: 0 <= i < |a| && 0 <= j < |b| ==> Less(a[i].key, b[j].key)
  {
    var c := a + b;
    forall i, j | 0 <= i < j < |a|
      ensures Less(a[i].key, a[j].key)
    {
      assert c[i] == a[i] && c[j] == a[j];
    }
    forall i, j | 0 <= i < j < |b|
      ensures Less(b[i].key, b[j].key)
    {
      assert c[|a| + i] == b[i] && c[|a| + j] == b[j];
    }
    forall i, j | 0 <= i < |a| && 0 <= j < |b|
      ensures Less(a[i].key, b[j].key)
    {
      assert c[i] == a[i] && c[|a| + j] == b[j];
    }
  }

  /** The first key of a later block is the first key of what follows it. */
  lemma {:induction false} FlattenHead(blocks: seq<seq<Entry>>)
    requires NonEmpty(blocks) && blocks != []
    ensures Flatten(blocks) != [] && Flatten(blocks)[0] == blocks[0][0]
  {
    FlattenMembers(blocks, 0);
    assert Flatten(blocks[..0]) == [];
  }

  lemma FirstKeysSorted(blocks: seq<seq<Entry>>, i: nat, j: nat)
    requires NonEmpty(blocks) && Sorted(Flatten(blocks)) && i < j < |blocks|
    ensures Less(blocks[i][0].key, blocks[j][0].key)
  {
    hide Flatten, Less;
    FlattenMembers(blocks, j);
    SortedConcat(Flatten(blocks[..j]) + blocks[j], Flatten(blocks[j + 1..]));
    SortedConcat(Flatten(blocks[..j]), blocks[j]);
    FlattenMembers(blocks[..j], i);
    var before := Flatten(blocks[..j][..i]);
    assert Flatten(blocks[..j])[|before|] == blocks[i][0];
  }

  /** A key at or above the first key of block i and below that of the next can only be in block i. */
  lemma OnlyInBlock(blocks: seq<seq<Entry>>, i: nat, key: Bytes)
    requires NonEmpty(blocks) && Sorted(Flatten(blocks)) && i < |blocks|
    requires AtMost(blocks[i][0].key, key)
    requires i + 1 < |blocks| ==> Less(key, blocks[i + 1][0].key)
    ensures Sorted(blocks[i])
    ensures Find(Flatten(blocks), key) == Find(blocks[i], key)
  {
    hide Flatten, Less, Find;
    var before, after := Flatten(blocks[..i]), Flatten(blocks[i + 1..]);
    FlattenMembers(blocks, i);
    SortedConcat(before + blocks[i], after);
    SortedConcat(before, blocks[i]);
    FindConcat(before + blocks[i], after, key);
    FindConcat(before, blocks[i], key);
    forall k | 0 <= k < |before|
      ensures before[k].key != key
    {
      LessAsymmetric(before[k].key, blocks[i][0].key);
      if before[k].key == key {
        LessIrreflexive(key);
      }
    }
    FindNone(before, key);
    if i + 1 < |blocks| {
      FlattenHead(blocks[i + 1..]);
      AbsentBefore(after, key);
    } else {
      assert blocks[i + 1..] == [];
      EmptyFlatten();
      FindNone(after, key);
    }
  }

  lemma EmptyFlatten()
    ensures Flatten([]) == []
  {
  }

  lemma BlockIsSmall(blocks: seq<seq<Entry>>, i: nat)
    requires SmallEntries(Flatten(blocks)) && i < |blocks|
    ensures SmallEntries(blocks[i])
  {
    hide Flatten;
    FlattenMembers(blocks, i);
    var before := Flatten(blocks[..i]);
    forall k | 0 <= k < |blocks[i]|
      ensures |blocks[i][k].key| < U32_SIZE && |ValueOf(blocks[i][k].cell)| < U32_SIZE
    {
      assert Flatten(blocks)[|before| + k] == blocks[i][k];
    }
  }

  /** A reader whose index, filter and data blocks come from these blocks. */
  ghost predicate Serves(crc: Bytes -> U32, r: Reader, blocks: seq<seq<Entry>>)
    requires NonEmpty(blocks)
  {
    && r.index == IndexOf(crc, blocks)
    && DataBytes(crc, blocks) <= r.file && |DataBytes(crc, blocks)| < U64_SIZE / 2
    && r.filter.WellFormed()
    && forall e :: e in Flatten(blocks) ==> Bloom.MayContain(r.filter, e.key)
  }

  /** The three-stage lookup: no block can hold the key, or the block found is the only one that can. */
  lemma LookupServed(crc: Bytes -> U32, r: Reader, blocks: seq<seq<Entry>>, key: Bytes)
    requires NonEmpty(blocks) && Serves(crc, r, blocks)
    requires Sorted(Flatten(blocks)) && SmallEntries(Flatten(blocks))
    ensures Lookup(crc, r, key) == AnswerOf(Find(Flatten(blocks), key))
  {
    hide Flatten, DataBytes, IndexOf, Bloom.MayContain, Bloom.Test, ReadBlock, ScanBlock, Less, Find, EncodeEntries;
    Bloom.TestExact(r.filter, key);
    if !Bloom.MayContain(r.filter, key) {
      if Find(Flatten(blocks), key).Some? {
        var k := FindWitness(Flatten(blocks), key);
      }
    } else {
      IndexIsSorted(crc, blocks);
      SearchIsRightmost(r.index, key, 0, |r.index| - 1);
      var i := SearchIndex(r.index, key);
      if i >= 0 {
        BlockAt(crc, blocks, i);
        if i + 1 < |blocks| {
          BlockAt(crc, blocks, i + 1);
          LessTotal(key, blocks[i + 1][0].key);
        }
        OnlyInBlock(blocks, i, key);
        var n := |DataBytes(crc, blocks)|;
        assert r.file == DataBytes(crc, blocks) + r.file[n..];
        ReadBlockAt(crc, blocks, r.file[n..], i);
        BlockIsSmall(blocks, i);
        ScanEncoded(blocks[i], key);
      } else if blocks == [] {
        EmptyFlatten();
        FindNone(Flatten(blocks), key);
      } else {
        BlockAt(crc, blocks, 0);
        LessTotal(key, blocks[0][0].key);
        FlattenHead(blocks);
        AbsentBefore(Flatten(blocks), key);
      }
    }
  }

  lemma IndexIsSorted(crc: Bytes -> U32, blocks: seq<seq<Entry>>)
    requires NonEmpty(blocks) && Sorted(Flatten(blocks))
    ensures IndexSorted(IndexOf(crc, blocks))
  {
    hide Flatten, DataBytes, IndexOf, Less;
    forall i, j | 0 <= i < j < |blocks|
      ensures Less(IndexOf(crc, blocks)[i].firstKey, IndexOf(crc, blocks)[j].firstKey)
    {
      BlockAt(crc, blocks, i);
      BlockAt(crc, blocks, j);
      FirstKeysSorted(blocks, i, j);
    }
  }

  /**
   * For every strictly increasing entry list, however it was cut into blocks: the printed file opens,
   * and a lookup returns exactly the list's value, tombstone or absence for every key.
   */
  lemma PrintedFileServes(crc: Bytes -> U32, blocks: seq<seq<Entry>>, m: nat)
    requires NonEmpty(blocks) && m % 8 == 0 && (Flatten(blocks) != [] ==> m > 0) && Fits(crc, blocks, m)
    requires Sorted(Flatten(blocks))
    ensures var r := OpenFile(FileOf(crc, blocks, m));
            && r.Ok? && Serves(crc, r.value, blocks)
            && forall key :: Lookup(crc, r.value, key) == AnswerOf(Find(Flatten(blocks), key))
  {
    hide Flatten, DataBytes, IndexOf, Bloom.MayContain, Lookup, OpenFile, EncodeIndex, Bloom.FilterOf, Find, Less;
    OpenPrinted(crc, blocks, m);
    var r := OpenFile(FileOf(crc, blocks, m)).value;
    var es := Flatten(blocks);
    forall e | e in es
      ensures Bloom.MayContain(r.filter, e.key)
    {
      var i :| 0 <= i < |es| && es[i] == e;
      assert KeysOf(es)[i] == e.key;
      Bloom.NoFalseNegatives(KeysOf(es), m, e.key);
      FilterIsSmall(KeysOf(es), m);
      Bloom.DecodeEncode(r.filter);
    }
    assert DataBytes(crc, blocks) <= r.file;
    forall key
      ensures Lookup(crc, r, key) == AnswerOf(Find(es, key))
    {
      LookupServed(crc, r, blocks, key);
    }
  }

  // ---------------------------------------------------------------------------------------------
  // Iteration
  // ---------------------------------------------------------------------------------------------

  lemma {:induction false} EntriesServed(crc: Bytes -> U32, r: Reader, blocks: seq<seq<Entry>>, i: nat)
    requires NonEmpty(blocks) && Serves(crc, r, blocks) && SmallEntries(Flatten(blocks)) && i <= |blocks|
    ensures EntriesFrom(crc, r, i) == Flatten(blocks[i..])
    decreases |blocks| - i
  {
    hide DataBytes, IndexOf, ReadBlock, DecodeBlock, EncodeEntries, Bloom.MayContain, Flatten;
    EmptyFlatten();
    if i < |blocks| {
      EntriesServed(crc, r, blocks, i + 1);
      var n := |DataBytes(crc, blocks)|;
      assert r.file == DataBytes(crc, blocks) + r.file[n..];
      ReadBlockAt(crc, blocks, r.file[n..], i);
      BlockIsSmall(blocks, i);
      DecodeEncoded(blocks[i]);
      FlattenMembers(blocks[i..], 0);
      assert blocks[i..][..0] == [] && blocks[i..][1..] == blocks[i + 1..];
      assert [] + blocks[i] == blocks[i];
    } else {
      assert blocks[i..] == [];
    }
  }

  /** SeekToFirst and Next over a printed file yield exactly the added entries, in order. */
  lemma PrintedFileIterates(crc: Bytes -> U32, blocks: seq<seq<Entry>>, m: nat)
    requires NonEmpty(blocks) && m % 8 == 0 && (Flatten(blocks) != [] ==> m > 0) && Fits(crc, blocks, m)
    requires Sorted(Flatten(blocks))
    ensures var r := OpenFile(FileOf(crc, blocks, m));
            r.Ok? && EntriesFrom(crc, r.value, 0) == Flatten(blocks)
  {
    hide DataBytes, IndexOf, OpenFile, EntriesFrom, Serves, Lookup, Fits, Flatten;
    PrintedFileServes(crc, blocks, m);
    var r := OpenFile(FileOf(crc, blocks, m)).value;
    assert SmallEntries(Flatten(blocks)) by {
      FitsIsSmall(crc, blocks, m);
    }
    EntriesServed(crc, r, blocks, 0);
    assert blocks[0..] == blocks;
  }

  lemma FitsIsSmall(crc: Bytes -> U32, blocks: seq<seq<Entry>>, m: nat)
    requires NonEmpty(blocks) && Fits(crc, blocks, m)
    ensures SmallEntries(Flatten(blocks))
  {
  }

  // ---------------------------------------------------------------------------------------------
  // Damaged files
  // ---------------------------------------------------------------------------------------------

  /** A file that opens ends with a footer that carries the magic number and the version. */
  lemma OpenedIsMarked(file: Bytes)
    requires OpenFile(file).Ok?
    ensures |file| >= FOOTER_SIZE
    ensures file[|file| - 16..|file| - 8] == PutUint(MAGIC, 8) && file[|file| - 8..|file| - 6] == PutUint(VERSION, 2)
  {
    var footer := file[|file| - FOOTER_SIZE..];
    PutUintOfUint(footer[32..40]);
    PutUintOfUint(footer[40..42]);
    assert footer[32..40] == file[|file| - 16..|file| - 8] && footer[40..42] == file[|file| - 8..|file| - 6];
  }

  /** These bytes of the file are the data and the checksum of exactly that data. */
  ghost predicate BlockStored(crc: Bytes -> U32, file: Bytes, offset: nat, length: nat, data: Bytes) {
    && length >= 4 && offset + length <= |file|
    && file[offset..offset + length] == data + PutUint(crc(data), 4)
  }

  /** A block is read exactly when it is stored with its own checksum. */
  lemma ReadIsChecked(crc: Bytes -> U32, file: Bytes, offset: nat, length: nat, data: Bytes)
    requires offset < U64_SIZE / 2
    ensures ReadBlock(crc, file, offset, length) == Ok(data) <==> BlockStored(crc, file, offset, length, data)
  {
    hide Uint, PutUint;
    if length >= 4 && offset + length <= |file| {
      var buf := file[offset..offset + length];
      U32Bound(buf[length - 4..]);
      U32RoundTrip(crc(data));
      assert buf == buf[..length - 4] + buf[length - 4..];
    }
  }

  /** A lookup whose block is not stored with its own checksum reports an error, unless the filter rules it out. */
  lemma DamagedBlockReported(crc: Bytes -> U32, r: Reader, key: Bytes)
    requires r.filter.WellFormed() && SearchIndex(r.index, key) >= 0
    requires var ie := r.index[SearchIndex(r.index, key)];
             ie.blockOffset < U64_SIZE / 2
             && forall data :: !BlockStored(crc, r.file, ie.blockOffset, ie.blockLen, data)
    ensures Lookup(crc, r, key) == if Bloom.MayContain(r.filter, key) then Corrupt else Absent
  {
    hide ReadBlock, ScanBlock, BlockStored, Bloom.MayContain, Bloom.Test;
    Bloom.TestExact(r.filter, key);
    var ie := r.index[SearchIndex(r.index, key)];
    var b := ReadBlock(crc, r.file, ie.blockOffset, ie.blockLen);
    if b.Ok? {
      ReadIsChecked(crc, r.file, ie.blockOffset, ie.blockLen, b.value);
    }
  }

  /** Entries before damage inside a block are found; a key beyond them is an error, not an absence. */
  lemma {:induction false} ScanDamaged(es: seq<Entry>, bad: Bytes, key: Bytes)
    requires Sorted(es) && SmallEntries(es) && bad != [] && ParseEntry(bad).Failed?
    ensures ScanBlock(EncodeEntries(es) + bad, key)
         == if Find(es, key).Some? then AnswerOf(Find(es, key))
            else if exists i :: 0 <= i < |es| && Less(key, es[i].key) then Absent
            else Corrupt
  {
    hide ParseEntry, EncodeEntry, Less;
    if es == [] {
      assert EncodeEntries(es) + bad == bad;
    } else {
      EncodeEntriesFront(es);
      hide EncodeEntries;
      var rest := EncodeEntries(es[1..]) + bad;
      ConcatAssociative(EncodeEntry(es[0]), EncodeEntries(es[1..]), bad);
      ParseEncoded(es[0], rest);
      LessTotal(es[0].key, key);
      if Less(key, es[0].key) {
        AbsentBefore(es, key);
        LessAsymmetric(key, es[0].key);
      } else {
        ScanDamaged(es[1..], bad, key);
        AtMostOrLess(es[0].key, key);
        assert forall i :: 0 < i < |es| ==> es[i] == es[1..][i - 1];
      }
    }
  }

  /** Iterating a block stops silently at damage, after the entries before it. */
  lemma {:induction false} DecodeDamaged(es: seq<Entry>, bad: Bytes)
    requires SmallEntries(es) && bad != [] && ParseEntry(bad).Failed?
    ensures DecodeBlock(EncodeEntries(es) + bad) == Decoded(es, false)
  {
    hide ParseEntry, EncodeEntry;
    if es == [] {
      assert EncodeEntries(es) + bad == bad;
    } else {
      EncodeEntriesFront(es);
      hide EncodeEntries;
      ConcatAssociative(EncodeEntry(es[0]), EncodeEntries(es[1..]), bad);
      ParseEncoded(es[0], EncodeEntries(es[1..]) + bad);
      DecodeDamaged(es[1..], bad);
      assert [es[0]] + es[1..] == es;
    }
  }

  // ---------------------------------------------------------------------------------------------
  // The format, written out
  // ---------------------------------------------------------------------------------------------

  /** A value and a tombstone: key length, value length, flag, key, value. */
  lemma KnownEntries()
    ensures EncodeEntry(Entry([0x6b], Live([0x76, 0x77]))) == [1, 0, 0, 0, 2, 0, 0, 0, 0x00, 0x6b, 0x76, 0x77]
    ensures EncodeEntry(Entry([0x6b], Tombstone)) == [1, 0, 0, 0, 0, 0, 0, 0, 0x01, 0x6b]
  {
    LittleEndian32(0, 0, 0, 0);
    LittleEndian32(1, 0, 0, 0);
    LittleEndian32(2, 0, 0, 0);
    hide PutUint, Uint;
  }

  /** An index entry: key length, key, block offset, block length. */
  lemma KnownIndexEntry()
    ensures EncodeIndexEntry(IndexEntry([0x6b], 0x2_0000_0001, 16))
         == [1, 0, 0, 0] + [0x6b] + [1, 0, 0, 0, 2, 0, 0, 0] + [16, 0, 0, 0]
  {
    LittleEndian32(1, 0, 0, 0);
    LittleEndian32(2, 0, 0, 0);
    LittleEndian32(16, 0, 0, 0);
    LittleEndian64([1, 0, 0, 0], [2, 0, 0, 0]);
    hide PutUint, Uint;
  }

  /** The footer: index offset and length, filter offset and length, entry count, magic, version, padding. */
  lemma KnownFooter()
    ensures EncodeFooter(Footer(1, 2, 3, 4, 5))
         == [1, 0, 0, 0, 0, 0, 0, 0] + [2, 0, 0, 0] + [3, 0, 0, 0, 0, 0, 0, 0] + [4, 0, 0, 0]
            + [5, 0, 0, 0, 0, 0, 0, 0] + [0x00, 0x56, 0x4b, 0x74, 0x6c, 0x75, 0x61, 0x56] + [1, 0]
            + [0, 0, 0, 0, 0, 0]
  {
    LittleEndian32(0, 0, 0, 0);
    LittleEndian32(2, 0, 0, 0);
    LittleEndian32(4, 0, 0, 0);
    FooterWords();
    hide PutUint, Uint;
  }

  lemma FooterWords()
    ensures PutUint(1, 8) == [1, 0, 0, 0, 0, 0, 0, 0] && PutUint(3, 8) == [3, 0, 0, 0, 0, 0, 0, 0]
    ensures PutUint(5, 8) == [5, 0, 0, 0, 0, 0, 0, 0]
    ensures PutUint(MAGIC, 8) == [0x00, 0x56, 0x4b, 0x74, 0x6c, 0x75, 0x61, 0x56]
    ensures PutUint(1, 2) == [1, 0] && PutUint(0, 6) == [0, 0, 0, 0, 0, 0]
  {
    OneByte64(1);
    OneByte64(3);
    OneByte64(5);
    MagicBytes();
    ShortWords();
    hide PutUint;
  }

  lemma OneByte64(b: Byte)
    ensures PutUint(b as nat, 8) == [b, 0, 0, 0, 0, 0, 0, 0]
  {
    LittleEndian32(b, 0, 0, 0);
    LittleEndian32(0, 0, 0, 0);
    LittleEndian64([b, 0, 0, 0], [0, 0, 0, 0]);
    hide PutUint, Uint;
  }

  lemma MagicBytes()
    ensures PutUint(MAGIC, 8) == [0x00, 0x56, 0x4b, 0x74, 0x6c, 0x75, 0x61, 0x56]
  {
    LittleEndian32(0x00, 0x56, 0x4b, 0x74);
    LittleEndian32(0x6c, 0x75, 0x61, 0x56);
    LittleEndian64([0x00, 0x56, 0x4b, 0x74], [0x6c, 0x75, 0x61, 0x56]);
    hide PutUint, Uint;
  }

  lemma ShortWords()
    ensures PutUint(1, 2) == [1, 0] && PutUint(0, 6) == [0, 0, 0, 0, 0, 0]
  {
    LittleEndian32(0, 0, 0, 0);
    assert PutUint(0, 1) == [0];
    assert PutUint(0, 5) == [0] + PutUint(0, 4);
    assert PutUint(0, 6) == [0] + PutUint(0, 5);
  }
}
