/** The whole store as a state machine: every step its goroutines take, and what each state shows. */
module Store {

  import opened ByteStrings
  import opened Tables
  import opened Merge
  import opened CompactionSoundness
  import MemTables

  datatype Write = Write(key: Bytes, cell: Cell)

  /** Replaying writes in order onto an empty memtable. */
  function Fold(ws: seq<Write>): Table {
    if ws == [] then map[] else
      var n := |ws| - 1;
      Fold(ws[..n])[ws[n].key := ws[n].cell]
  }

  function At(t: Table, k: Bytes): Option<Cell> {
    if k in t then Some(t[k]) else None
  }

  /** Where flushIfNeeded and flushMemTable stand, with the id taken for the file. */
  datatype Flush = Idle | Rotated(id: nat) | Written(id: nat) | Installed(id: nat) | Registered(id: nat)

  /**
   * Where compactionLoop stands: quiet, merging, with the output written, with the file list replaced and
   * these inputs still to remove, or between the two halves of reloadReaders.
   */
  datatype Comp =
    | Quiet
    | Merging(id: nat, sel: set<nat>, all: bool)
    | Printed(id: nat, sel: set<nat>)
    | Removing(left: set<nat>)
    | Globbed(listing: set<nat>)

  /** An open SSTable; files never change once written. */
  datatype Handle = Handle(id: nat, entries: seq<Entry>)

  datatype State = State(
    wal: seq<Write>,
    inflight: map<nat, Write>,    // logged but not yet applied, by writing goroutine
    active: Table,
    immutable: Option<Table>,
    flush: Flush,
    readers: seq<Handle>,         // newest first
    dir: Dir,                     // the .sst files on disk
    files: set<nat>,              // the compaction engine's file list
    comp: Comp,
    nextId: nat,
    applied: seq<Write>)          // history: the writes in the order they reached the active table

  // ---------------------------------------------------------------------------------------------
  // Reading
  // ---------------------------------------------------------------------------------------------

  /** Get's third stage. */
  function Search(readers: seq<Handle>, k: Bytes): Option<Cell> {
    if readers == [] then None
    else if Find(readers[0].entries, k).Some? then Find(readers[0].entries, k)
    else Search(readers[1..], k)
  }

  function InImmutable(s: State, k: Bytes): Option<Cell> {
    if s.immutable.Some? then At(s.immutable.value, k) else None
  }

  /** Get's first two stages, if they find the key. */
  function InMemory(s: State, k: Bytes): Option<Cell> {
    if k in s.active then Some(s.active[k]) else InImmutable(s, k)
  }

  /** Active over immutable over the readers. */
  function View(s: State, k: Bytes): Option<Bytes> {
    Shown(if InMemory(s, k).Some? then InMemory(s, k) else Search(s.readers, k))
  }

  /** The plain map updated by the applied writes. */
  function Model(s: State, k: Bytes): Option<Bytes> {
    Shown(At(Fold(s.applied), k))
  }

  // ---------------------------------------------------------------------------------------------
  // Steps
  // ---------------------------------------------------------------------------------------------

  ghost function MaxOf(ids: set<nat>): (m: nat)
    requires ids != {}
    ensures m in ids && forall j | j in ids :: j <= m
  {
    var x :| x in ids;
    if ids == {x} then x else
      var m := MaxOf(ids - {x});
      assert forall j | j in ids :: j == x || j in ids - {x};
      if m < x then x else m
  }

  /** One handle per listed file, highest id first. */
  ghost function Desc(dir: Dir, ids: set<nat>): seq<Handle>
    requires ids <= dir.Keys
  {
    if ids == {} then [] else
      var id := MaxOf(ids);
      [Handle(id, dir[id])] + Desc(dir, ids - {id})
  }

  /** loadSSTables' nextFileID: at least 1, and above every loaded id. */
  ghost function NextAfter(ids: set<nat>): nat {
    if ids == {} then 1 else MaxOf(ids) + 1
  }

  /** Open: load the tables, then replay the whole log into the active memtable. */
  ghost function Opened(wal: seq<Write>, dir: Dir): State {
    State(wal, map[], Fold(wal), None, Idle, Desc(dir, dir.Keys), dir, dir.Keys, Quiet, NextAfter(dir.Keys), wal)
  }

  datatype Action =
    | Log(t: nat, w: Write)
    | Apply(t: nat)
    | Rotate
    | WriteFile(es: seq<Entry>)
    | Install
    | Register
    | Clear
    | FailFlush
    | BeginMerge(sel: set<nat>)
    | WriteOutput(out: seq<Entry>, dropped: set<Bytes>)
    | ReplaceList
    | Remove(id: nat)
    | FailMerge
    | NoMerge
    | Glob
    | Swap
    | Reopen

  /** What the code lets happen, with no more synchronization than it has. */
  ghost predicate Step(s: State, a: Action, s': State) {
    match a
    case Log(t, w) =>
      && t !in s.inflight && w.key != []
      && s' == s.(wal := s.wal + [w], inflight := s.inflight[t := w])
    case Apply(t) =>
      && t in s.inflight
      && var w := s.inflight[t];
         s' == s.(active := s.active[w.key := w.cell], inflight := s.inflight - {t}, applied := s.applied + [w])
    case Rotate =>
      && s.flush.Idle? && s.active != map[]
      && s' == s.(immutable := Some(s.active), active := map[], flush := Rotated(s.nextId + 1), nextId := s.nextId + 1)
    case WriteFile(es) =>
      && s.flush.Rotated? && s.immutable.Some? && MemTables.Represents(es, s.immutable.value)
      && s' == s.(dir := s.dir[s.flush.id := es], flush := Written(s.flush.id))
    case Install =>
      && s.flush.Written? && s.flush.id in s.dir
      && s' == s.(readers := [Handle(s.flush.id, s.dir[s.flush.id])] + s.readers, flush := Installed(s.flush.id))
    case Register =>
      && s.flush.Installed?
      && s' == s.(files := s.files + {s.flush.id}, flush := Registered(s.flush.id))
    case Clear =>
      && s.flush.Registered?
      && s' == s.(immutable := None, flush := Idle)
    case FailFlush =>
      && (s.flush.Rotated? || s.flush.Written?)
      && s' == s.(immutable := None, flush := Idle)
    case BeginMerge(sel) =>
      && s.comp.Quiet? && sel != {} && sel <= s.files
      && s' == s.(comp := Merging(s.nextId + 1, sel, sel == s.files), nextId := s.nextId + 1)
    case WriteOutput(out, dropped) =>
      && s.comp.Merging? && Merged(s.comp.sel, s.dir, out, dropped) && (dropped != {} ==> s.comp.all)
      && s' == s.(dir := s.dir[s.comp.id := out], comp := Printed(s.comp.id, s.comp.sel))
    case ReplaceList =>
      && s.comp.Printed?
      && s' == s.(files := s.files - s.comp.sel + {s.comp.id}, comp := Removing(s.comp.sel))
    case Remove(id) =>
      && s.comp.Removing? && id in s.comp.left
      && s' == s.(dir := s.dir - {id}, comp := Removing(s.comp.left - {id}))
    case FailMerge =>
      s.comp.Merging? && s' == s.(comp := Removing({}))
    case NoMerge =>
      s.comp.Quiet? && s' == s.(comp := Removing({}), nextId := s.nextId + 1)
    case Glob =>
      s.comp == Removing({}) && s' == s.(comp := Globbed(s.dir.Keys))
    case Swap =>
      && s.comp.Globbed? && s.comp.listing <= s.dir.Keys
      && s' == s.(readers := Desc(s.dir, s.comp.listing), comp := Quiet)
    case Reopen =>
      s' == Opened(s.wal, s.dir)
  }

  /** No write to the key is logged but unapplied. */
  predicate NotInFlight(s: State, k: Bytes) {
    forall t | t in s.inflight :: s.inflight[t].key != k
  }

  /**
   * The synchronization the code does not have: one write per key in flight, compactions only over the
   * newest files and only while no flush holds an uninstalled id, no install inside a reload. And no
   * flush fails: flushIfNeeded clears the immutable table even when its file could not be written.
   */
  ghost predicate Guard(s: State, a: Action) {
    match a
    case Log(_, w) => NotInFlight(s, w.key)
    case BeginMerge(sel) => (s.flush.Idle? || s.flush.Registered?) && NewestSuffix(s.dir, sel, s.nextId + 1)
    case Install => s.comp.Globbed? && s.flush.Written? ==> s.flush.id in s.comp.listing
    case FailFlush => false
    case _ => true
  }

  // ---------------------------------------------------------------------------------------------
  // Readers and directory
  // ---------------------------------------------------------------------------------------------

  /** Searching the handles newest first finds the newest version. */
  lemma {:induction false} SearchDesc(dir: Dir, ids: set<nat>, k: Bytes)
    requires ids <= dir.Keys
    ensures Search(Desc(dir, ids), k) == Visible(dir, ids, k)
    decreases ids
  {
    if ids == {} {
      VisibleNone(dir, ids, k);
    } else {
      var id := MaxOf(ids);
      assert Desc(dir, ids)[1..] == Desc(dir, ids - {id});
      if Has(dir, id, k) {
        assert Newest(dir, ids, k, id);
        VisibleIs(dir, ids, k, id);
      } else {
        SearchDesc(dir, ids - {id}, k);
        VisibleWithout(dir, ids, id, k);
      }
    }
  }

  /** A file without the key does not matter to it. */
  lemma VisibleWithout(dir: Dir, ids: set<nat>, id: nat, k: Bytes)
    requires !Has(dir, id, k)
    ensures Visible(dir, ids - {id}, k) == Visible(dir, ids, k)
  {
    if j :| j in ids && Has(dir, j, k) {
      var n := NewestExists(dir, ids, k, j);
      assert Newest(dir, ids - {id}, k, n);
      VisibleIs(dir, ids, k, n);
      VisibleIs(dir, ids - {id}, k, n);
    } else {
      VisibleNone(dir, ids, k);
      VisibleNone(dir, ids - {id}, k);
    }
  }

  /** A file newer than all others decides for the keys it holds and for no other. */
  lemma ReadWithNewest(dir: Dir, id: nat, es: seq<Entry>, k: Bytes)
    requires forall j | j in dir :: j < id
    ensures Read(dir[id := es], k) == if Find(es, k).Some? then Shown(Find(es, k)) else Read(dir, k)
  {
    var more := dir[id := es];
    if Find(es, k).Some? {
      assert Newest(more, more.Keys, k, id);
      VisibleIs(more, more.Keys, k, id);
    } else {
      VisibleSame(dir, more, k);
    }
  }

  lemma FoldNone()
    ensures Fold([]) == map[]
  {
  }

  lemma FoldSnoc(ws: seq<Write>, w: Write)
    ensures Fold(ws + [w]) == Fold(ws)[w.key := w.cell]
  {
    assert (ws + [w])[..|ws|] == ws;
  }
}
