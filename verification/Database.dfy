/** DB itself: its methods over the log's bytes, the skip lists and the files' bytes, as steps of the store. */
module Database {

  import opened ByteStrings
  import opened Tables
  import opened Merge
  import opened CompactionSoundness
  import opened SkipLists
  import opened SSTableReader
  import opened Store
  import opened StoreCalls
  import opened StoreInvariants
  import opened TableFiles
  import opened TableSizes
  import Bloom = BloomFilter
  import SSTableRoundTrip
  import SSTableWriter
  import MemTables
  import Tiers
  import Compaction
  import Log = WriteAheadLog
  import WalRecovery

  // ---------------------------------------------------------------------------------------------
  // Log records
  // ---------------------------------------------------------------------------------------------

  function RecordOf(w: Write): Log.Record {
    match w.cell
    case Live(v) => Log.Record(Log.OP_SET, w.key, v)
    case Tombstone => Log.Record(Log.OP_DELETE, w.key, [])
  }

  function WriteOf(r: Log.Record): Write {
    Write(r.key, if r.op == Log.OP_DELETE then Tombstone else Live(r.value))
  }

  function RecordsOf(ws: seq<Write>): (rs: seq<Log.Record>)
    ensures |rs| == |ws| && forall i :: 0 <= i < |ws| ==> rs[i] == RecordOf(ws[i])
  {
    seq(|ws|, i requires 0 <= i < |ws| => RecordOf(ws[i]))
  }

  function WritesOf(rs: seq<Log.Record>): (ws: seq<Write>)
    ensures |ws| == |rs| && forall i :: 0 <= i < |rs| ==> ws[i] == WriteOf(rs[i])
  {
    seq(|rs|, i requires 0 <= i < |rs| => WriteOf(rs[i]))
  }

  ghost predicate Loggable(ws: seq<Write>) {
    Log.AllLoggable(RecordsOf(ws))
  }

  // ---------------------------------------------------------------------------------------------
  // Directory listings
  // ---------------------------------------------------------------------------------------------

  ghost predicate Ascending(ids: seq<nat>) {
    forall i, j :: 0 <= i < j < |ids| ==> ids[i] < ids[j]
  }

  /** filepath.Glob and sort.Strings: fixed-width hexadecimal names sort as their ids do. */
  method ListFiles(disk: Disk) returns (ids: seq<nat>)
    ensures Ascending(ids) && IdSet(ids) == disk.Keys
  {
    var rest := disk.Keys;
    ids := [];
    while rest != {}
      invariant rest <= disk.Keys && IdSet(ids) == disk.Keys - rest
      invariant Ascending(ids) && forall id, j | id in rest && 0 <= j < |ids| :: id < ids[j]
      decreases rest
    {
      assert exists id :: id in rest && forall j | j in rest :: j <= id by {
        var _ := MaxOf(rest);
      }
      var id :| id in rest && forall j | j in rest :: j <= id;
      IdSetPrepend(id, ids);
      rest := rest - {id};
      ids := [id] + ids;
    }
  }

  lemma IdSetPrepend(id: nat, ids: seq<nat>)
    ensures IdSet([id] + ids) == {id} + IdSet(ids)
  {
    assert forall j | j in IdSet(ids) :: exists i :: 0 <= i < |ids| && ids[i] == j == ([id] + ids)[i + 1];
    assert ([id] + ids)[0] == id;
  }

  /** The listed file comes after all before it. */
  lemma ListedStep(ids: seq<nat>, i: nat)
    requires Ascending(ids) && i < |ids|
    ensures IdSet(ids[..i + 1]) == IdSet(ids[..i]) + {ids[i]}
    ensures forall j | j in IdSet(ids[..i]) :: j < ids[i]
  {
    assert ids[..i + 1] == ids[..i] + [ids[i]];
    Compaction.IdSetSnoc(ids[..i], ids[i]);
  }

  /** Adding a newest file puts it first in descending order. */
  lemma DescTop(dir: Dir, ids: set<nat>, id: nat)
    requires ids <= dir.Keys && id in dir && forall j | j in ids :: j < id
    ensures Desc(dir, ids + {id}) == [Handle(id, dir[id])] + Desc(dir, ids)
    ensures NextAfter(ids + {id}) == id + 1 && NextAfter(ids) <= id + 1
  {
    assert MaxOf(ids + {id}) == id;
    assert ids + {id} - {id} == ids;
  }

  // ---------------------------------------------------------------------------------------------
  // The database
  // ---------------------------------------------------------------------------------------------

  /** An open reader, and the id of its file. */
  datatype OpenTable = OpenTable(id: nat, reader: Reader)

  ghost function HandlesOf(crc: Bytes -> U32, ts: seq<OpenTable>): (hs: seq<Handle>)
    ensures |hs| == |ts| && forall i :: 0 <= i < |ts| ==> hs[i] == Handle(ts[i].id, EntriesOf(crc, ts[i].reader))
  {
    seq(|ts|, i requires 0 <= i < |ts| => Handle(ts[i].id, EntriesOf(crc, ts[i].reader)))
  }

  ghost predicate AllSound(crc: Bytes -> U32, ts: seq<OpenTable>) {
    forall i :: 0 <= i < |ts| ==> Sound(crc, ts[i].reader)
  }

  /** Get's third stage: the first reader that says anything but "absent" decides. */
  function FirstAnswer(crc: Bytes -> U32, ts: seq<OpenTable>, key: Bytes): Answer {
    if ts == [] then Absent
    else
      var a := Lookup(crc, ts[0].reader, key);
      if a == Absent then FirstAnswer(crc, ts[1..], key) else a
  }

  /** Over sound files the lookups in bytes answer like the search through the tables. */
  lemma {:induction false} FirstAnswerExact(crc: Bytes -> U32, ts: seq<OpenTable>, key: Bytes)
    requires AllSound(crc, ts)
    ensures FirstAnswer(crc, ts, key) == SSTableRoundTrip.AnswerOf(Store.Search(HandlesOf(crc, ts), key))
  {
    hide Lookup, EntriesOf, Sorted, Storable, Find;
    if ts != [] {
      assert Sound(crc, ts[0].reader);
      assert HandlesOf(crc, ts)[1..] == HandlesOf(crc, ts[1..]);
      FirstAnswerExact(crc, ts[1..], key);
    }
  }

  /** The newest reader that says anything but "absent" decides, an error included; without one it is absent. */
  lemma {:induction false} FirstAnswerAt(crc: Bytes -> U32, ts: seq<OpenTable>, key: Bytes, i: nat)
    requires i <= |ts| && forall j :: 0 <= j < i ==> Lookup(crc, ts[j].reader, key) == Absent
    requires i < |ts| ==> Lookup(crc, ts[i].reader, key) != Absent
    ensures FirstAnswer(crc, ts, key) == if i < |ts| then Lookup(crc, ts[i].reader, key) else Absent
  {
    hide Lookup;
    if i > 0 {
      assert forall j :: 0 <= j < i - 1 ==> ts[1..][j] == ts[j + 1];
      FirstAnswerAt(crc, ts[1..], key, i - 1);
    }
  }

  /** What the caller gets: a value or nothing. */
  function Returned(a: Answer): Option<Bytes> {
    if a.Found? then Some(a.value) else None
  }

  /** Get's three stages: what memory holds for the key, else what the readers answer. */
  function AnswerIn(s: State, crc: Bytes -> U32, ts: seq<OpenTable>, key: Bytes): Answer {
    if InMemory(s, key).Some? then SSTableRoundTrip.AnswerOf(InMemory(s, key)) else FirstAnswer(crc, ts, key)
  }

  lemma AnswerIsView(s: State, crc: Bytes -> U32, ts: seq<OpenTable>, key: Bytes)
    requires AllSound(crc, ts) && s.readers == HandlesOf(crc, ts)
    ensures var a := AnswerIn(s, crc, ts, key);
            && !a.Corrupt? && !a.Panicked? && Returned(a) == View(s, key)
            && (Inv(s) ==> Returned(a) == Model(s, key))
  {
    hide AllSound, HandlesOf, FirstAnswer, Store.Search, Inv, Model;
    FirstAnswerExact(crc, ts, key);
    ViewedInInv(s, key);
  }

  /** flushMemTable's effect: the table's file is on disk, its reader is first, and the engine lists it. */
  ghost predicate FileAdded(s: State, id: nat, s': State) {
    s.immutable.Some? && exists es ::
      && MemTables.Represents(es, s.immutable.value)
      && s' == s.(dir := s.dir[id := es], readers := [Handle(id, es)] + s.readers, files := s.files + {id},
                  flush := Registered(id))
  }

  /** The file is what the writer makes of the table's entries in key order. */
  ghost predicate TablePrinted(crc: Bytes -> U32, file: Bytes, t: Table, blockSize: int) {
    exists es :: MemTables.Represents(es, t) && SSTableWriter.IsPrintOf(crc, file, es, blockSize)
  }

  /** A table whose bytes and entry count keep its file within the format's fields. */
  ghost predicate SmallTable(t: Table) {
    2 * Footprint(t) + 31 * |t| + 53 < SOUND_LIMIT
  }

  /** The flush writes nothing, or a small table. */
  ghost predicate FlushFits(t: Table, fails: bool) {
    fails || [] in t || SmallTable(t)
  }

  /** The flush writes nothing, or the table's file under its id. */
  ghost predicate FlushPrints(s: State, fails: bool, crc: Bytes -> U32, blockSize: int, disk: Disk) {
    s.flush.Rotated? && s.immutable.Some? &&
    (!fails && [] !in s.immutable.value ==>
       s.flush.id in disk && TablePrinted(crc, disk[s.flush.id], s.immutable.value, blockSize))
  }

  /** A flush that took its id is over: the table is the newest file, or lost to reads if that failed. */
  ghost predicate FlushEnded(s: State, fails: bool, s': State) {
    s.immutable.Some? &&
    if fails || [] in s.immutable.value then s' == s.(immutable := None, flush := Idle)
    else exists es :: Stored(s, es, s')
  }

  class DB {
    const crc: Bytes -> U32
    const memTableSize: nat
    const blockSize: int
    const log: Log.Wal
    const compact: Compaction.Engine
    var active: SkipList
    var immutable: SkipList?
    var nextFileID: nat
    var readers: seq<OpenTable>       // newest first
    ghost var history: seq<Write>     // every write logged, in order
    ghost var flush: Flush

    static ghost function Nodes(m: SkipList?): set<object>
      reads m
    {
      if m == null then {} else {m, m.head} + m.nodes
    }

    ghost predicate MemTablesValid()
      reads this`active, this`immutable, this`flush, Nodes(active), Nodes(immutable)
    {
      && active.Valid()
      && (immutable == null <==> flush.Idle?)
      && (immutable != null ==> immutable.Valid() && Nodes(active) !! Nodes(immutable))
    }

    /** The tables on disk. */
    ghost function Dir(): Dir
      reads compact
    {
      TablesOf(crc, compact.disk)
    }

    /** The engine knows exactly the files on disk that open, and they are sound. */
    ghost predicate FilesValid()
      reads compact
    {
      compact.Valid() && !compact.running && compact.crc == crc && Dir().Keys == Compaction.IdsOf(compact.files)
    }

    ghost predicate Valid()
      reads this, compact, log, Nodes(active), Nodes(immutable)
    {
      && MemTablesValid() && FilesValid() && log.crc == crc && AllSound(crc, readers)
      && forall id | id in Dir() :: id <= nextFileID
    }

    /** The state machine's view of the object between two of its critical sections. */
    ghost function Abs(): State
      reads this, compact, active, immutable
    {
      State(history, map[], active.contents, if immutable == null then None else Some(immutable.contents), flush,
            HandlesOf(crc, readers), Dir(), Compaction.IdsOf(compact.files), Quiet, nextFileID, history)
    }

    /** The log file holds exactly the logged writes. */
    ghost predicate Durable()
      reads this, log
    {
      log.file == Log.EncodeAll(crc, RecordsOf(history))
    }

    constructor (crc: Bytes -> U32, memTableSize: nat, blockSize: int, threshold: int, file: Bytes, disk: Disk)
      requires SoundDisk(crc, disk)
      ensures this.crc == crc && this.memTableSize == memTableSize && this.blockSize == blockSize
      ensures fresh(log) && fresh(compact) && fresh(Nodes(active)) && fresh(active.head)
      ensures log.crc == crc && log.file == file && compact.Valid() && compact.crc == crc
      ensures compact.disk == disk && compact.files == [] && !compact.running
      ensures compact.threshold == if threshold <= 0 then 4 else threshold
      ensures active.Valid() && active.contents == map[] && active.nodes == {} && immutable == null
      ensures readers == [] && nextFileID == 1 && history == [] && flush == Idle
    {
      hide SoundDisk;
      this.crc, this.memTableSize, this.blockSize := crc, memTableSize, blockSize;
      log := new Log.Wal(crc, file);
      compact := new Compaction.Engine(crc, threshold, disk);
      active := new SkipList();
      immutable := null;
      nextFileID, readers := 1, [];
      history, flush := [], Idle;
    }

    /** sstable.Open on a listed path. */
    method OpenTableOf(id: nat) returns (opens: bool, t: OpenTable)
      requires id in compact.disk
      ensures opens == (id in Dir())
      ensures opens ==> t.id == id && EntriesOf(crc, t.reader) == Dir()[id]
      ensures opens && SoundDisk(crc, compact.disk) ==> Sound(crc, t.reader)
    {
      hide OpenFile, EntriesFrom, Sorted, Storable, Lookup;
      var r := SSTableReader.Open(compact.disk[id]);
      opens := r.Ok?;
      t := OpenTable(id, if opens then r.value else Reader([], [], Bloom.Filter([], 0, 0), 0));
      assert opens && SoundDisk(crc, compact.disk) ==> SoundFile(crc, compact.disk[id]);
    }

    /** Open's first half: a reader for every file that opens, newest first, and the ids above them free. */
    method LoadSSTables()
      requires compact.Valid() && compact.crc == crc && compact.files == [] && !compact.running
      requires readers == [] && nextFileID == 1
      modifies this`readers, this`nextFileID, compact`files
      ensures FilesValid() && Compaction.IdsOf(compact.files) == Dir().Keys && AllSound(crc, readers)
      ensures HandlesOf(crc, readers) == Desc(Dir(), Dir().Keys) && nextFileID == NextAfter(Dir().Keys)
    {
      hide Desc, NextAfter, SoundDisk, TablesOf, Sound, EntriesOf, Opens;
      ghost var dir := Dir();
      var paths := ListFiles(compact.disk);
      DescNone(dir);
      assert IdSet(paths[..0]) == {};
      ghost var seen := {};
      for i := 0 to |paths|
        invariant compact.disk == old(compact.disk) && Dir() == dir && compact.Valid()
        invariant seen == IdSet(paths[..i]) * dir.Keys
        invariant HandlesOf(crc, readers) == Desc(dir, seen) && AllSound(crc, readers)
        invariant nextFileID == NextAfter(seen) && Compaction.IdsOf(compact.files) == seen
      {
        ListedStep(paths, i);
        seen := LoadOne(paths[i], seen);
      }
      assert paths[..|paths|] == paths;
      TablesAreFiles(crc, compact.disk);
      assert seen == dir.Keys;
    }

    /** One round of loadSSTables' loop. */
    method LoadOne(id: nat, ghost seen: set<nat>) returns (ghost seen': set<nat>)
      requires compact.Valid() && compact.crc == crc && id in compact.disk
      requires seen <= Dir().Keys && (forall j | j in seen :: j < id) && Compaction.IdsOf(compact.files) == seen
      requires HandlesOf(crc, readers) == Desc(Dir(), seen) && AllSound(crc, readers) && nextFileID == NextAfter(seen)
      modifies this`readers, this`nextFileID, compact`files
      ensures compact.Valid() && seen' == seen + ({id} * Dir().Keys)
      ensures Compaction.IdsOf(compact.files) == seen'
      ensures HandlesOf(crc, readers) == Desc(Dir(), seen') && AllSound(crc, readers) && nextFileID == NextAfter(seen')
    {
      hide Desc, NextAfter, SoundDisk, Sound, EntriesOf, OpenFile, EntriesIn;
      seen' := seen;
      var opens, t := OpenTableOf(id);
      if !opens {
        return;
      }
      DescTop(Dir(), seen, id);
      seen' := seen + {id};
      Compaction.IdsOfSnoc(compact.files, Tiers.File(id, |compact.disk[id]|));
      readers := [t] + readers;
      compact.AddFile(Tiers.File(id, |compact.disk[id]|));
      if id >= nextFileID {
        nextFileID := id + 1;
      }
      hide Compaction.DistinctIds, Compaction.IdsOf;
    }

    /** Open's second half; ok is false when Replay returns an error. */
    method ReplayWal() returns (ok: bool)
      requires active.Valid() && active.contents == map[]
      modifies this`history, log, Nodes(active)
      ensures active.Valid() && fresh(Nodes(active) - old(Nodes(active)))
      ensures ok == !Log.Scan(log.crc, old(log.file)).stop.MissingPayload?
      ensures history == WritesOf(Log.Scan(log.crc, old(log.file)).records) && active.contents == Fold(history)
      ensures log.file == Log.Recovered(log.crc, old(log.file))
    {
      hide Log.Scan, Log.Recovered, SkipList.Valid, Fold, WritesOf;
      var delivered;
      WalRecovery.ScanSound(log.crc, log.file);
      delivered, ok := log.Replay();
      ApplyRecords(delivered);
      history := WritesOf(delivered);
    }

    /** The calls Replay makes of its callback. */
    method ApplyRecords(delivered: seq<Log.Record>)
      requires active.Valid() && active.contents == map[] && Log.AllWellFormed(delivered)
      modifies Nodes(active)
      ensures active.Valid() && fresh(Nodes(active) - old(Nodes(active)))
      ensures active.contents == Fold(WritesOf(delivered))
    {
      ghost var ws := WritesOf(delivered);
      FoldNone();
      hide SkipList.Valid, Fold, WritesOf;
      assert ws[..0] == [];
      for i := 0 to |delivered|
        invariant active.Valid() && fresh(Nodes(active) - old(Nodes(active)))
        invariant active.contents == Fold(ws[..i])
      {
        ReplayRecord(delivered[i]);
        FoldSnoc(ws[..i], ws[i]);
        assert ws[..i + 1] == ws[..i] + [ws[i]];
      }
      assert ws[..|ws|] == ws;
    }

    method ReplayRecord(rec: Log.Record)
      requires active.Valid() && Log.KnownOp(rec.op)
      modifies Nodes(active)
      ensures active.Valid() && fresh(Nodes(active) - old(Nodes(active)))
      ensures var w := WriteOf(rec); active.contents == old(active.contents)[w.key := w.cell]
    {
      hide SkipList.Valid;
      if rec.op == Log.OP_SET {
        active.Set(rec.key, rec.value);
      } else {
        active.Delete(rec.key);
      }
    }

    method Set(key: Bytes, value: Bytes) returns (ok: bool, signal: bool)
      requires Valid()
      modifies this`history, log, Nodes(active)
      ensures Valid() && ok == (key != [])
      ensures !ok ==> Abs() == old(Abs()) && log.file == old(log.file)
      ensures ok ==> var w := Write(key, Live(value));
                     && Logged(old(Abs()), w, Abs())
                     && log.file == old(log.file) + Log.Encode(crc, Log.Kept(RecordOf(w)))
      ensures old(Durable()) && |key| < U32_SIZE && |value| < U32_SIZE ==> Durable()
      ensures signal == (ok && active.byteSize >= memTableSize)
    {
      hide SkipList.Valid, FilesValid, AllSound, RecordsOf, Log.EncodeAll, Log.Encode;
      ok, signal := |key| != 0, false;
      if !ok {
        return;
      }
      log.Append(Log.Record(Log.OP_SET, key, value));
      active.Set(key, value);
      DurableMore(crc, history, Write(key, Live(value)));
      history := history + [Write(key, Live(value))];
      signal := active.byteSize >= memTableSize;
    }

    method Delete(key: Bytes) returns (ok: bool)
      requires Valid()
      modifies this`history, log, Nodes(active)
      ensures Valid() && ok == (key != [])
      ensures !ok ==> Abs() == old(Abs()) && log.file == old(log.file)
      ensures ok ==> var w := Write(key, Tombstone);
                     && Logged(old(Abs()), w, Abs())
                     && log.file == old(log.file) + Log.Encode(crc, Log.Kept(RecordOf(w)))
      ensures old(Durable()) && |key| < U32_SIZE ==> Durable()
    {
      hide SkipList.Valid, FilesValid, AllSound, RecordsOf, Log.EncodeAll, Log.Encode;
      ok := |key| != 0;
      if !ok {
        return;
      }
      log.Append(Log.Record(Log.OP_DELETE, key, []));
      active.Delete(key);
      DurableMore(crc, history, Write(key, Tombstone));
      history := history + [Write(key, Tombstone)];
    }

    /** Reads memory, then the readers' bytes, newest first; a read error or panic of a reader is passed on. */
    method Get(key: Bytes) returns (a: Answer)
      requires MemTablesValid()
      ensures a == AnswerIn(Abs(), crc, readers, key)
      ensures AllSound(crc, readers) ==> !a.Corrupt? && !a.Panicked? && Returned(a) == View(Abs(), key)
      ensures AllSound(crc, readers) && Inv(Abs()) ==> Returned(a) == Model(Abs(), key)
    {
      hide SkipList.Valid, FilesValid, AllSound, Lookup, Inv, View, Model, HandlesOf, TablesOf;
      if AllSound(crc, readers) {
        AnswerIsView(Abs(), crc, readers, key);
      }
      var bytes, deleted, found := active.Get(key);
      if found {
        return if deleted then Deleted else Found(bytes);
      }
      if immutable != null {
        bytes, deleted, found := immutable.Get(key);
        if found {
          return if deleted then Deleted else Found(bytes);
        }
      }
      for i := 0 to |readers|
        invariant FirstAnswer(crc, readers, key) == FirstAnswer(crc, readers[i..], key)
      {
        assert readers[i..][1..] == readers[i + 1..];
        var r := SSTableReader.Get(crc, readers[i].reader, key);
        if r != Absent {
          return r;
        }
      }
      return Absent;
    }

    /** flushIfNeeded's first critical section; needed is false when there is nothing to flush yet. */
    method RotateIfNeeded(closed: bool) returns (needed: bool, fileID: nat)
      requires Valid() && immutable == null
      modifies this`active, this`immutable, this`nextFileID, this`flush
      ensures Valid()
      ensures needed == (old(active.contents) != map[] && (old(active.byteSize) >= memTableSize || closed))
      ensures !needed ==> Abs() == old(Abs())
      ensures needed ==> fileID == old(nextFileID) + 1 && immutable == old(active)
      ensures needed ==> flush == Rotated(fileID) && fileID !in Dir() && fileID == nextFileID
      ensures needed ==> Abs() == RotatedFrom(old(Abs()))
    {
      MemTables.LengthIsTableSize(active);
      hide SkipList.Valid, FilesValid, MemTablesValid, AllSound, Abs, RotatedFrom, TablesOf;
      needed, fileID := false, 0;
      if active.length == 0 {
        return;
      }
      if active.byteSize < memTableSize && !closed {
        return;
      }
      needed := true;
      fileID := Rotate();
    }

    method Rotate() returns (fileID: nat)
      requires Valid() && immutable == null
      modifies this`active, this`immutable, this`nextFileID, this`flush
      ensures Valid() && immutable == old(active) && fileID == old(nextFileID) + 1
      ensures flush == Rotated(fileID) && fileID !in Dir() && fileID == nextFileID
      ensures Abs() == RotatedFrom(old(Abs()))
    {
      hide SkipList.Valid, FilesValid, AllSound, HandlesOf, TablesOf;
      immutable := active;
      active := new SkipList();
      nextFileID := nextFileID + 1;
      fileID := nextFileID;
      flush := Rotated(fileID);
    }

    /** The file reaches the directory, a reader opens it, and the engine is told of it. */
    method AddTable(fileID: nat, file: Bytes) returns (ok: bool, t: OpenTable)
      requires FilesValid() && fileID !in Dir()
      modifies compact`files, compact`disk
      ensures ok == Opens(file) && compact.disk == old(compact.disk)[fileID := file]
      ensures !ok ==> FilesValid() && Dir() == old(Dir()) && compact.files == old(compact.files)
      ensures SoundFile(crc, file) ==>
                && ok && FilesValid() && Dir() == old(Dir())[fileID := EntriesIn(crc, file)]
                && t.id == fileID && Sound(crc, t.reader) && EntriesOf(crc, t.reader) == EntriesIn(crc, file)
                && Compaction.IdsOf(compact.files) == old(Compaction.IdsOf(compact.files)) + {fileID}
    {
      hide OpenFile, EntriesFrom, Sound;
      var r := SSTableReader.Open(file);
      if r.Failed? {
        TablesSkip(crc, compact.disk, fileID, file);
      } else {
        TablesPut(crc, compact.disk, fileID, file);
      }
      compact.disk := compact.disk[fileID := file];
      ok, t := r.Ok?, OpenTable(fileID, if r.Ok? then r.value else Reader([], [], Bloom.Filter([], 0, 0), 0));
      if ok {
        Compaction.IdsOfSnoc(compact.files, Tiers.File(fileID, |file|));
        compact.AddFile(Tiers.File(fileID, |file|));
      }
      hide Compaction.IdsOf, Compaction.DistinctIds, TablesOf;
    }

    /** WriteFromMemTable's bytes for the immutable table; ok is false on an empty key. */
    method PrintTable() returns (ok: bool, file: Bytes)
      requires immutable != null && immutable.Valid()
      ensures ok == ([] !in immutable.contents)
      ensures ok ==> TablePrinted(crc, file, immutable.contents, blockSize)
    {
      hide SkipList.Valid, MemTables.Contents, MemTables.Represents, SSTableWriter.IsPrintOf;
      ok, file := MemTables.WriteFromMemTable(crc, immutable, blockSize);
      MemTables.ContentsExact(immutable);
    }

    method AddReader(t: OpenTable)
      modifies this`readers
      ensures HandlesOf(crc, readers) == [Handle(t.id, EntriesOf(crc, t.reader))] + old(HandlesOf(crc, readers))
      ensures old(AllSound(crc, readers)) && Sound(crc, t.reader) ==> AllSound(crc, readers)
    {
      hide Sound, EntriesOf;
      readers := [t] + readers;
    }

    /** flushMemTable from the written file on. */
    method InstallTable(fileID: nat, file: Bytes) returns (ok: bool)
      requires Valid() && flush == Rotated(fileID) && fileID !in Dir() && fileID <= nextFileID
      modifies this`readers, this`flush, compact`files, compact`disk
      ensures compact.disk == old(compact.disk)[fileID := file]
      ensures !ok ==> Valid() && Abs() == old(Abs())
      ensures SoundFile(crc, file) && MemTables.Represents(EntriesIn(crc, file), immutable.contents) ==>
                ok && Valid() && FileAdded(old(Abs()), fileID, Abs())
    {
      hide SkipList.Valid, FilesValid, AllSound, Sound, EntriesIn, EntriesOf, Opens, MemTables.Represents;
      var t;
      ok, t := AddTable(fileID, file);
      if ok {
        AddReader(t);
        flush := Registered(fileID);
      }
    }

    /** fails says that writing, stating or reopening the file fails; the writer also refuses an empty key. */
    method FlushMemTable(fileID: nat, fails: bool) returns (ok: bool)
      requires Valid() && flush == Rotated(fileID) && fileID !in Dir() && fileID <= nextFileID
      modifies this`readers, this`flush, compact`files, compact`disk
      ensures immutable == old(immutable) && immutable != null
      ensures fails || [] in immutable.contents ==> !ok && compact.disk == old(compact.disk)
      ensures !ok ==> Valid() && Abs() == old(Abs())
      ensures !fails && [] !in immutable.contents ==>
                && fileID in compact.disk && compact.disk == old(compact.disk)[fileID := compact.disk[fileID]]
                && TablePrinted(crc, compact.disk[fileID], immutable.contents, blockSize)
      ensures !fails && [] !in immutable.contents && SmallTable(immutable.contents) ==>
                ok && Valid() && FileAdded(old(Abs()), fileID, Abs())
    {
      hide SkipList.Valid, FilesValid, AllSound, SoundFile, EntriesIn, MemTables.Represents, FileAdded;
      hide HandlesOf, TablesOf, TablePrinted, SmallTable;
      if fails {
        return false;
      }
      var file;
      ok, file := PrintTable();
      if ok {
        if SmallTable(immutable.contents) {
          SmallTableIsSound(crc, file, immutable.contents, blockSize);
        }
        ok := InstallTable(fileID, file);
      }
    }

    /** flushIfNeeded's last critical section. */
    method ClearImmutable()
      modifies this`immutable, this`flush
      ensures immutable == null && (old(Valid()) ==> Valid())
      ensures Abs() == old(Abs()).(immutable := None, flush := Idle)
    {
      hide SkipList.Valid, FilesValid, AllSound, HandlesOf, TablesOf;
      immutable := null;
      flush := Idle;
    }

    /** The rest of flushIfNeeded: whether the flush succeeds or not, the immutable table is cleared. */
    method FlushRotated(fileID: nat, fails: bool, ghost s: State)
      requires Valid() && flush == Rotated(fileID) && fileID !in Dir() && fileID <= nextFileID && s == Abs()
      modifies this`immutable, this`readers, this`flush, compact`files, compact`disk
      ensures immutable == null
      ensures FlushPrints(s, fails, crc, blockSize, compact.disk)
      ensures FlushFits(s.immutable.value, fails) ==> Valid() && FlushEnded(s, fails, Abs())
    {
      hide SkipList.Valid, FilesValid, AllSound, HandlesOf, TablesOf, FlushEnded, FileAdded, TablePrinted, SmallTable;
      var ok := FlushMemTable(fileID, fails);
      hide MemTablesValid;
      ghost var after := Abs();
      ClearImmutable();
      if FlushFits(s.immutable.value, fails) {
        FlushEnds(s, fails, fileID, after, Abs());
      }
    }

    /** signal asks compactionLoop for a round. */
    method FlushIfNeeded(closed: bool, fails: bool) returns (signal: bool)
      requires Valid() && immutable == null
      modifies this`active, this`immutable, this`nextFileID, this`flush, this`readers, compact`files, compact`disk
      ensures immutable == null
      ensures signal == (old(active.contents) != map[] && (old(active.byteSize) >= memTableSize || closed))
      ensures !signal ==> Valid() && Abs() == old(Abs())
      ensures signal ==> FlushPrints(RotatedFrom(old(Abs())), fails, crc, blockSize, compact.disk)
      ensures signal && (fails || 2 * old(active.byteSize) + 31 * old(active.length) + 53 < SOUND_LIMIT) ==>
                Valid() && FlushEnded(RotatedFrom(old(Abs())), fails, Abs())
    {
      ghost var before := Abs();
      SizesDecide(active, fails);
      assert RotatedFrom(before).immutable == Some(active.contents);
      hide SkipList.Valid, FilesValid, AllSound, Abs, RotatedFrom, FlushEnded, FlushPrints, FlushFits;
      hide SmallTable, Footprint, TablesOf;
      var fileID;
      signal, fileID := RotateIfNeeded(closed);
      if signal {
        FlushRotated(fileID, fails, RotatedFrom(before));
      }
    }

    /** Replaces the readers by one for every file on disk that opens, newest first. */
    method ReloadReaders()
      modifies this`readers
      ensures HandlesOf(crc, readers) == Desc(Dir(), Dir().Keys)
      ensures SoundDisk(crc, compact.disk) ==> AllSound(crc, readers)
    {
      hide Desc, SoundDisk, TablesOf, Sound, EntriesOf, Opens;
      ghost var dir, keys := Dir(), Dir().Keys;
      var paths := ListFiles(compact.disk);
      var newReaders := [];
      var i := |paths|;
      assert paths[..i] == paths;
      TablesAreFiles(crc, compact.disk);
      ghost var rest := keys;
      while i > 0
        invariant i <= |paths| && rest == IdSet(paths[..i]) * keys
        invariant SoundDisk(crc, compact.disk) ==> AllSound(crc, newReaders)
        invariant HandlesOf(crc, newReaders) + Desc(dir, rest) == Desc(dir, keys)
      {
        i := i - 1;
        ListedStep(paths, i);
        newReaders, rest := ReloadOne(paths[i], newReaders, rest, Desc(dir, keys));
      }
      DescNone(dir);
      assert paths[..i] == [] && rest == {};
      assert HandlesOf(crc, newReaders) + [] == HandlesOf(crc, newReaders);
      readers := newReaders;
    }

    /** One round of reloadReaders' loop. */
    method ReloadOne(id: nat, newReaders: seq<OpenTable>, ghost rest: set<nat>, ghost all: seq<Handle>)
      returns (more: seq<OpenTable>, ghost rest': set<nat>)
      requires id in compact.disk && (SoundDisk(crc, compact.disk) ==> AllSound(crc, newReaders))
      requires rest <= Dir().Keys && (id in rest <==> id in Dir()) && forall j | j in rest && j != id :: j < id
      requires HandlesOf(crc, newReaders) + Desc(Dir(), rest) == all
      ensures rest' == rest - {id} && (SoundDisk(crc, compact.disk) ==> AllSound(crc, more))
      ensures HandlesOf(crc, more) + Desc(Dir(), rest') == all
    {
      hide Desc, SoundDisk, TablesOf, Sound, EntriesOf;
      rest' := rest - {id};
      var opens, t := OpenTableOf(id);
      if !opens {
        assert rest' == rest;
        return newReaders, rest';
      }
      DescTop(Dir(), rest', id);
      assert rest' + {id} == rest;
      more := newReaders + [t];
      assert HandlesOf(crc, more) == HandlesOf(crc, newReaders) + [Handle(id, Dir()[id])];
      ConcatAssociative(HandlesOf(crc, newReaders), [Handle(id, Dir()[id])], Desc(Dir(), rest'));
    }

    /** The engine's round: n files, those of sel, became one. */
    method RunCompaction(outputID: nat, fails: bool) returns (n: nat, ghost sel: set<nat>, ghost dropped: set<Bytes>)
      requires FilesValid() && outputID !in Dir()
      modifies compact
      ensures n == 0 <==> fails || !Compaction.TierFull(old(compact.files), compact.threshold)
      ensures n == 0 ==> FilesValid() && compact.disk == old(compact.disk) && compact.files == old(compact.files)
      ensures n > 0 ==>
                && |sel| == n >= compact.threshold
                && RoundWritten(crc, compact.threshold, old(compact.files), old(compact.disk), sel, dropped, outputID,
                                compact.disk)
      ensures n > 0 && SmallInputs(old(Dir()), sel) ==>
                FilesValid() && MergesInto(old(Dir()), sel, sel == old(Dir()).Keys, outputID, dropped, Dir())
    {
      hide Merged, Compaction.DistinctIds, Compaction.Chosen, Compaction.TierFull, Tiers.Grouping, Compaction.Listed;
      hide TablesOf, SoundDisk, SoundFile, EntriesIn, SSTableWriter.IsPrintOf, HasTombstone, SmallInputs;
      ghost var files, disk, tiers, selected, out := compact.files, compact.disk, [], [], [];
      assert files + [] == files;
      NoneListed(compact.disk);
      n, tiers, selected, out, dropped := compact.RunOnce(outputID, fails, [], _ => 0);
      sel := Compaction.IdsOf(selected);
      Compaction.ChosenIsFull(files, tiers, compact.threshold, selected);
      if n > 0 {
        RoundIsWritten(crc, compact.threshold, files, disk, tiers, selected, out, dropped, outputID, compact.disk);
        if SmallInputs(TablesOf(crc, disk), sel) {
          RoundDisk(crc, disk, sel, outputID, compact.disk);
          RoundFiles(files, TablesOf(crc, disk), compact.threshold, selected, out, dropped,
                     Tiers.File(outputID, |compact.disk[outputID]|));
        }
      }
    }

    /** compactionLoop's body: n files were merged, or none was. */
    method CompactionRound(fails: bool)
      returns (ran: bool, n: nat, ghost sel: set<nat>, ghost dropped: set<Bytes>)
      requires Valid()
      modifies this`nextFileID, this`readers, compact
      ensures ran == Compaction.TierFull(old(compact.files), compact.threshold) && (n > 0 <==> ran && !fails)
      ensures !ran ==> Valid() && Abs() == old(Abs())
      ensures ran && n == 0 ==> Valid() && Reloaded(old(Abs()).(nextId := old(nextFileID) + 1), Abs())
      ensures n > 0 ==>
                && nextFileID == old(nextFileID) + 1 && |sel| == n >= compact.threshold
                && RoundWritten(crc, compact.threshold, old(compact.files), old(compact.disk), sel, dropped, nextFileID,
                                compact.disk)
      ensures n > 0 && Compaction.RoundFits(old(compact.files), compact.threshold, old(Dir())) ==>
                var merged := Abs().(readers := old(Abs()).readers, comp := Removing({}));
                && Valid()
                && Compacting(old(Abs()), sel, dropped, merged) && Reloaded(merged, Abs())
    {
      hide SkipList.Valid, Desc, MergesInto, Compaction.IdsOf, TablesOf, HandlesOf, AllSound, Tiers.Grouping;
      hide RoundWritten, SmallInputs, Compaction.RoundFits;
      n, sel, dropped := 0, {}, {};
      ghost var before, files, disk := Dir(), compact.files, compact.disk;
      ran := compact.NeedsCompaction();
      if !ran {
        return;
      }
      assert Compaction.IdsOf(compact.files) == Dir().Keys;
      hide FilesValid, Compaction.TierFull;
      nextFileID := nextFileID + 1;
      n, sel, dropped := RunCompaction(nextFileID, fails);
      if n > 0 && Compaction.RoundFits(files, compact.threshold, before) {
        WrittenIsSmall(crc, compact.threshold, files, disk, sel, dropped, nextFileID, compact.disk);
        MergesKeys(before, sel, sel == before.Keys, nextFileID, dropped, Dir());
      }
      hide SoundDisk;
      ReloadReaders();
    }
  }

  lemma DurableMore(crc: Bytes -> U32, ws: seq<Write>, w: Write)
    ensures Log.EncodeAll(crc, RecordsOf(ws + [w])) == Log.EncodeAll(crc, RecordsOf(ws)) + Log.Encode(crc, RecordOf(w))
  {
    hide Log.Encode;
    var rs, r := RecordsOf(ws), RecordOf(w);
    assert RecordsOf(ws + [w]) == rs + [r];
    WalRecovery.EncodeAllAppend(crc, rs, [r]);
    WalRecovery.OneRecord(crc, r);
  }

  lemma FlushEnds(s: State, fails: bool, id: nat, m: State, s': State)
    requires s.flush == Rotated(id) && s.immutable.Some?
    requires if !fails && [] !in s.immutable.value then FileAdded(s, id, m) else m == s
    requires s' == m.(immutable := None, flush := Idle)
    ensures FlushEnded(s, fails, s')
  {
    hide MemTables.Represents;
    if !fails && [] !in s.immutable.value {
      var es :|
        && MemTables.Represents(es, s.immutable.value)
        && m == s.(dir := s.dir[id := es], readers := [Handle(id, es)] + s.readers, files := s.files + {id},
                   flush := Registered(id));
      assert Stored(s, es, s');
    }
  }

  lemma MergesKeys(dir: Dir, sel: set<nat>, all: bool, id: nat, dropped: set<Bytes>, dir': Dir)
    requires MergesInto(dir, sel, all, id, dropped, dir')
    ensures sel <= dir.Keys && dir'.Keys == dir.Keys - sel + {id}
  {
  }

  lemma DescNone(dir: Dir)
    ensures Desc(dir, {}) == [] && NextAfter({}) == 1
  {
  }

  lemma TablesAreFiles(crc: Bytes -> U32, disk: Disk)
    ensures TablesOf(crc, disk).Keys <= disk.Keys
  {
  }

  /** The memtable's own counters tell whether it is small. */
  lemma SizesDecide(list: SkipList, fails: bool)
    requires list.Valid()
    ensures SmallTable(list.contents) <==> 2 * list.byteSize + 31 * list.length + 53 < SOUND_LIMIT
    ensures fails || 2 * list.byteSize + 31 * list.length + 53 < SOUND_LIMIT ==> FlushFits(list.contents, fails)
  {
    hide Footprint;
    MemTables.LengthIsTableSize(list);
  }

  lemma {:induction false} SizeIsWeight(es: seq<Entry>)
    ensures Weight(es) == 2 * MemTables.TotalSize(es) + 31 * |es|
    ensures forall e | e in es :: |SSTableWriter.ValueOf(e.cell)| <= MemTables.TotalSize(es)
  {
    if es != [] {
      SizeIsWeight(es[1..]);
      OneWeight(es[0]);
      WeightConcat([es[0]], es[1..]);
      assert [es[0]] + es[1..] == es;
    }
  }

  lemma KeysStored(es: seq<Entry>, t: Table)
    requires MemTables.Represents(es, t)
    ensures forall e | e in es :: e.key in t
  {
    forall e | e in es
      ensures e.key in t
    {
      var i :| 0 <= i < |es| && es[i] == e;
      SortedFind(es, i);
    }
  }

  /** A small table prints to a sound file that holds it. */
  lemma SmallTableIsSound(crc: Bytes -> U32, file: Bytes, t: Table, blockSize: int)
    requires TablePrinted(crc, file, t, blockSize) && SmallTable(t) && [] !in t
    ensures SoundFile(crc, file) && MemTables.Represents(EntriesIn(crc, file), t)
  {
    hide SSTableWriter.IsPrintOf, SoundFile, EntriesIn, Weight, MemTables.TotalSize, Footprint, Find;
    var es :| MemTables.Represents(es, t) && SSTableWriter.IsPrintOf(crc, file, es, blockSize);
    MemTables.FootprintOfEntries(es, t);
    SizeIsWeight(es);
    KeysStored(es, t);
    SmallPrintIsSound(crc, file, es, blockSize);
  }

  /** What a round leaves on disk: a full tier's files gone, and their merge printed under the new id. */
  ghost predicate RoundWritten(crc: Bytes -> U32, threshold: nat, files: seq<Tiers.File>, disk: Disk, sel: set<nat>,
                               dropped: set<Bytes>, id: nat, disk': Disk)
  {
    && Compaction.TierSelected(files, threshold, sel) && (dropped != {} ==> sel == Compaction.IdsOf(files))
    && id in disk' && disk' == (disk - sel)[id := disk'[id]]
    && exists out ::
         && Merged(sel, TablesOf(crc, disk), out, dropped) && SSTableWriter.IsPrintOf(crc, disk'[id], out, 0)
         && (sel == Compaction.IdsOf(files) ==> !HasTombstone(out))
  }

  lemma RoundIsWritten(crc: Bytes -> U32, threshold: nat, files: seq<Tiers.File>, disk: Disk,
                       tiers: seq<seq<Tiers.File>>, selected: seq<Tiers.File>, out: seq<Entry>, dropped: set<Bytes>,
                       id: nat, disk': Disk)
    requires Compaction.DistinctIds(files) && Tiers.Grouping(files, tiers) && selected != []
    requires Compaction.Chosen(tiers, threshold, selected) && id in disk'
    requires Compaction.Round(files, TablesOf(crc, disk), threshold, selected, out, dropped)
    requires disk' == (disk - Compaction.IdsOf(selected))[id := disk'[id]]
    requires SSTableWriter.IsPrintOf(crc, disk'[id], out, 0) && (|selected| == |files| ==> !HasTombstone(out))
    ensures RoundWritten(crc, threshold, files, disk, Compaction.IdsOf(selected), dropped, id, disk')
  {
    hide Merged, SSTableWriter.IsPrintOf, HasTombstone, TablesOf, Tiers.Grouping, Compaction.Chosen;
    Compaction.IdCount(files);
    Compaction.IdCount(selected);
    hide Compaction.DistinctIds, Compaction.IdsOf;
  }

  lemma NoneListed(disk: Disk)
    ensures Compaction.Listed([], disk)
  {
  }

  lemma WrittenIsSmall(crc: Bytes -> U32, threshold: nat, files: seq<Tiers.File>, disk: Disk, sel: set<nat>,
                       dropped: set<Bytes>, id: nat, disk': Disk)
    requires RoundWritten(crc, threshold, files, disk, sel, dropped, id, disk')
    requires Compaction.RoundFits(files, threshold, TablesOf(crc, disk))
    ensures SmallInputs(TablesOf(crc, disk), sel)
  {
    hide Compaction.TierSelected, SmallInputs, Merged;
  }

  /** The tables on disk after a round are the unselected ones and the output. */
  lemma RoundDisk(crc: Bytes -> U32, disk: Disk, sel: set<nat>, id: nat, disk': Disk)
    requires SoundDisk(crc, disk) && id in disk' && SoundFile(crc, disk'[id])
    requires disk' == (disk - sel)[id := disk'[id]]
    ensures SoundDisk(crc, disk')
    ensures TablesOf(crc, disk') == Compacted(TablesOf(crc, disk), sel, id, EntriesIn(crc, disk'[id]))
  {
    hide Opens, SoundFile, EntriesIn, TablesOf;
    assert Opens(disk'[id]) by {
      SoundOpens(crc, disk'[id]);
    }
    TablesRemove(crc, disk, sel);
    TablesPut(crc, disk - sel, id, disk'[id]);
  }

  lemma SoundOpens(crc: Bytes -> U32, file: Bytes)
    requires SoundFile(crc, file)
    ensures Opens(file)
  {
  }

  /** The engine's files after an effective round are the unselected ones and the output. */
  lemma RoundFiles(files: seq<Tiers.File>, dir: Dir, threshold: nat, selected: seq<Tiers.File>, out: seq<Entry>,
                   dropped: set<Bytes>, output: Tiers.File)
    requires Compaction.DistinctIds(files) && threshold >= 1 && output.id !in Compaction.IdsOf(files)
    requires Compaction.Round(files, dir, threshold, selected, out, dropped)
    ensures var sel, files' := Compaction.IdsOf(selected),
                               Compaction.Unselected(files, Compaction.IdsOf(selected)) + [output];
            && sel != {} && |sel| == |selected|
            && Compaction.IdsOf(files') == Compaction.IdsOf(files) - sel + {output.id}
            && Compaction.DistinctIds(files')
  {
    hide Merged, Compaction.DistinctIds;
    var sel := Compaction.IdsOf(selected);
    Compaction.IdCount(selected);
    var kept := Compaction.Unselected(files, sel);
    Compaction.UnselectedDistinct(files, sel);
    forall f
      ensures f in kept <==> f in files && f.id !in sel
    {
      Compaction.UnselectedKeeps(files, sel, f);
    }
    assert Compaction.IdsOf(kept) == Compaction.IdsOf(files) - sel;
    Compaction.IdsOfSnoc(kept, output);
  }

  /** Open on what a crash left behind: the bytes of a log and of a directory whose files are sound or do not open. */
  method Open(crc: Bytes -> U32, memTableSize: nat, blockSize: int, threshold: int, file: Bytes, disk: Disk)
    returns (db: DB, ok: bool)
    requires SoundDisk(crc, disk)
    ensures fresh(db) && db.crc == crc && db.memTableSize == memTableSize && db.blockSize == blockSize
    ensures db.compact.threshold == if threshold <= 0 then 4 else threshold
    ensures ok == !Log.Scan(crc, file).stop.MissingPayload?
    ensures ok ==> db.Valid() && db.Abs() == Opened(WritesOf(Log.Scan(crc, file).records), TablesOf(crc, disk))
    ensures ok ==> db.log.file == Log.Recovered(crc, file)
  {
    hide SkipList.Valid, DB.FilesValid, Desc, NextAfter, Fold, WritesOf, Log.Scan, Log.Recovered, SoundDisk;
    hide Compaction.IdsOf, Compaction.Engine.Valid, AllSound, HandlesOf, TablesOf;
    db := new DB(crc, memTableSize, blockSize, threshold, file, disk);
    db.LoadSSTables();
    BelowNext(db.Dir().Keys);
    ok := db.ReplayWal();
  }

  lemma BelowNext(ids: set<nat>)
    ensures forall id | id in ids :: id < NextAfter(ids)
  {
  }
}
