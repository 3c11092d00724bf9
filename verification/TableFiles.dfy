/** SSTable files as the tables they hold: what makes a file sound, and that every printed file is. */
module TableFiles {

  import opened ByteStrings
  import opened Tables
  import opened Merge
  import opened SSTableWriter
  import opened SSTableReader
  import opened TableSizes
  import SSTableRoundTrip
  import Bloom = BloomFilter

  /** The .sst files of the directory, by id. */
  type Disk = map<nat, Bytes>

  function EntriesOf(crc: Bytes -> U32, r: Reader): seq<Entry> {
    EntriesFrom(crc, r, 0)
  }

  /** A sorted table without empty keys, whose lookups and iteration agree. */
  ghost predicate Sound(crc: Bytes -> U32, r: Reader) {
    var es := EntriesOf(crc, r);
    && Sorted(es) && Storable(es)
    && forall key :: Lookup(crc, r, key) == SSTableRoundTrip.AnswerOf(Find(es, key))
  }

  /** The entries that Add takes in and stores whole. */
  ghost predicate Storable(es: seq<Entry>) {
    forall e | e in es :: e.key != [] && |ValueOf(e.cell)| < U32_SIZE
  }

  predicate Opens(file: Bytes) {
    OpenFile(file).Ok?
  }

  function EntriesIn(crc: Bytes -> U32, file: Bytes): seq<Entry>
    requires Opens(file)
  {
    EntriesOf(crc, OpenFile(file).value)
  }

  ghost predicate SoundFile(crc: Bytes -> U32, file: Bytes) {
    Opens(file) && Sound(crc, OpenFile(file).value)
  }

  /** Every file is sound or does not open at all, as one that a crash cut short. */
  ghost predicate SoundDisk(crc: Bytes -> U32, disk: Disk) {
    forall id | id in disk :: Opens(disk[id]) ==> SoundFile(crc, disk[id])
  }

  /** The tables on disk; files that do not open are skipped. */
  function TablesOf(crc: Bytes -> U32, disk: Disk): Dir {
    map id | id in disk && Opens(disk[id]) :: EntriesIn(crc, disk[id])
  }

  lemma TablesPut(crc: Bytes -> U32, disk: Disk, id: nat, file: Bytes)
    requires Opens(file)
    ensures TablesOf(crc, disk[id := file]) == TablesOf(crc, disk)[id := EntriesIn(crc, file)]
  {
    hide Opens, EntriesIn;
  }

  lemma TablesSkip(crc: Bytes -> U32, disk: Disk, id: nat, file: Bytes)
    requires !Opens(file) && id !in TablesOf(crc, disk)
    ensures TablesOf(crc, disk[id := file]) == TablesOf(crc, disk)
  {
    hide Opens, EntriesIn;
  }

  lemma TablesRemove(crc: Bytes -> U32, disk: Disk, ids: set<nat>)
    ensures TablesOf(crc, disk - ids) == TablesOf(crc, disk) - ids
  {
    hide Opens, EntriesIn;
  }

  lemma KeptWhole(es: seq<Entry>)
    requires Storable(es)
    ensures KeptEntries(es) == es
  {
    hide KeptCell;
    forall i | 0 <= i < |es|
      ensures KeptEntry(es[i]) == es[i]
    {
      assert es[i] in es;
    }
  }

  /** Files below 512 MiB: every length and offset in them fits its field, the filter's bit count included. */
  const SOUND_LIMIT := U32_SIZE / 8

  lemma {:induction false} EntriesWithin(es: seq<Entry>, i: nat)
    ensures |es| <= |EncodeEntries(es)|
    ensures i < |es| ==> |EncodeEntry(es[i])| <= |EncodeEntries(es)|
  {
    hide EncodeEntry;
    if es != [] {
      var n := |es| - 1;
      EntriesWithin(es[..n], i);
    }
  }

  lemma {:induction false} FlattenWithin(crc: Bytes -> U32, blocks: seq<seq<Entry>>, i: nat)
    ensures |Flatten(blocks)| <= |DataBytes(crc, blocks)|
    ensures i < |Flatten(blocks)| ==> |EncodeEntry(Flatten(blocks)[i])| <= |DataBytes(crc, blocks)|
  {
    hide EncodeEntry, EncodeEntries;
    if blocks != [] {
      var n := |blocks| - 1;
      var before := |Flatten(blocks[..n])|;
      FlattenWithin(crc, blocks[..n], i);
      EntriesWithin(blocks[n], if i < before then 0 else i - before);
    }
  }

  /** A small file stays within every field of the format. */
  lemma SmallFileFits(crc: Bytes -> U32, blocks: seq<seq<Entry>>, m: nat)
    requires NonEmpty(blocks) && m % 8 == 0 && (Flatten(blocks) != [] ==> m > 0) && (Flatten(blocks) == [] ==> m == 0)
    requires |FileOf(crc, blocks, m)| < SOUND_LIMIT
    ensures SSTableRoundTrip.Fits(crc, blocks, m)
  {
    hide DataBytes, Flatten, EncodeIndex, EncodeFooter, Block, IndexOf;
    FlattenWithin(crc, blocks, 0);
    forall i | 0 <= i < |Flatten(blocks)|
      ensures |Flatten(blocks)[i].key| < U32_SIZE && |ValueOf(Flatten(blocks)[i].cell)| < U32_SIZE
    {
      FlattenWithin(crc, blocks, i);
    }
    forall i | 0 <= i < |blocks|
      ensures |Block(crc, blocks[i])| < U32_SIZE
    {
      SSTableRoundTrip.BlockAt(crc, blocks, i);
    }
  }

  /** What the writer prints for a sorted list opens, answers every lookup like the list, and lists it. */
  lemma PrintedIsSound(crc: Bytes -> U32, file: Bytes, blocks: seq<seq<Entry>>, es: seq<Entry>)
    requires Prints(crc, file, blocks, es) && Sorted(es) && Storable(es) && |file| < SOUND_LIMIT
    ensures SoundFile(crc, file) && EntriesIn(crc, file) == es
  {
    hide SSTableRoundTrip.Fits, OpenFile, Lookup, EntriesFrom, FileOf, Flatten, Sorted, Find;
    var m := Bloom.BitCount(|es|, BITS_PER_KEY);
    NoBits(|es|);
    SmallFileFits(crc, blocks, m);
    SSTableRoundTrip.PrintedFileServes(crc, blocks, m);
    SSTableRoundTrip.PrintedFileIterates(crc, blocks, m);
  }

  /** Entries that weigh less than the limit print to a sound file, at any block size. */
  lemma SmallPrintIsSound(crc: Bytes -> U32, file: Bytes, es: seq<Entry>, blockSize: int)
    requires IsPrintOf(crc, file, es, blockSize) && Sorted(es) && Storable(es) && Weight(es) + 53 < SOUND_LIMIT
    ensures SoundFile(crc, file) && EntriesIn(crc, file) == es
  {
    hide Prints, CutAt, Sorted, Storable, SoundFile, EntriesIn, Weight;
    var blocks :| Prints(crc, file, blocks, KeptEntries(es)) && CutAt(blocks, BlockSizeOf(blockSize));
    KeptWhole(es);
    PrintedBound(crc, file, blocks, es);
    PrintedIsSound(crc, file, blocks, es);
  }

  /** The tables of these files merge into one that prints to a sound file. */
  ghost predicate SmallInputs(dir: Dir, ids: set<nat>) {
    ids <= dir.Keys && WeightOf(dir, ids) + 53 < SOUND_LIMIT
  }

  lemma NoBits(n: nat)
    ensures n == 0 ==> Bloom.BitCount(n, BITS_PER_KEY) == 0
  {
  }

  /** Opens the file and iterates over all of it. */
  method ListFile(crc: Bytes -> U32, file: Bytes) returns (r: Result<seq<Entry>>)
    ensures r == if Opens(file) then Ok(EntriesIn(crc, file)) else Failed
  {
    hide OpenFile, EntriesFrom;
    var reader := Open(file);
    if reader.Failed? {
      return Failed;
    }
    var it := new SSTableReader.Iterator(crc, reader.value);
    var es := ListAll(it);
    return Ok(es);
  }
}
