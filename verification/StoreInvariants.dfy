/** What every step of the store keeps, and the refinement of a plain map over whole runs. */
module StoreInvariants {

  import opened ByteStrings
  import opened Tables
  import opened Merge
  import opened CompactionSoundness
  import opened Store
  import MemTables

  // ---------------------------------------------------------------------------------------------
  // File ids
  // ---------------------------------------------------------------------------------------------

  /** The inputs of a merge whose output is written but which are not removed yet. */
  function Doomed(s: State): set<nat> {
    match s.comp
    case Printed(_, sel) => sel
    case Removing(left) => left
    case _ => {}
  }

  /** The files that count once the running compaction has removed its inputs. */
  function Lasting(s: State): Dir {
    s.dir - Doomed(s)
  }

  /** A file written by a flush whose reader is not installed yet does not count as readable. */
  function Base(s: State): Dir {
    if s.flush.Written? then Lasting(s) - {s.flush.id} else Lasting(s)
  }

  /** Only a compaction's output and an installed file change what is readable. */
  lemma BaseKept(s: State, a: Action, s': State)
    requires Ids(s) && Step(s, a, s') && Guard(s, a) && !a.WriteOutput? && !a.Install? && !a.Reopen?
    ensures Base(s') == Base(s)
  {
    hide MemTables.Represents, Fold, Desc, NewestSuffix;
    match a
    case WriteFile(_) =>
      hide MergeIds;
      assert Base(s') == Base(s);
    case Remove(_) =>
      hide MergeIds, FlushIds;
      assert Base(s') == Base(s);
    case _ =>
      hide MergeIds, FlushIds;
  }

  /** The flush's file on disk that the compaction engine does not know yet. */
  function Unregistered(s: State): set<nat> {
    if s.flush.Written? || s.flush.Installed? then {s.flush.id} else {}
  }

  /** The compaction's files on disk that are not in the engine's list: its new output, or its old inputs. */
  function Unlisted(s: State): set<nat> {
    match s.comp
    case Printed(id, _) => {id}
    case Removing(left) => left
    case _ => {}
  }

  /** A flush that took its id and has not registered its file holds the newest id there is. */
  ghost predicate FlushIds(s: State) {
    && (s.immutable.Some? <==> !s.flush.Idle?)
    && (s.flush.Rotated? || s.flush.Written? || s.flush.Installed? ==>
          && s.flush.id <= s.nextId
          && (forall j | j in s.dir && j != s.flush.id :: j < s.flush.id)
          && (s.comp.Merging? ==> s.comp.id < s.flush.id))
    && (s.flush.Rotated? ==> s.flush.id !in s.dir)
    && (s.flush.Written? ==> s.flush.id in s.dir && MemTables.Represents(s.dir[s.flush.id], s.immutable.value))
  }

  ghost predicate MergeIds(s: State) {
    && (s.comp.Merging? ==>
          && s.comp.sel <= s.files && s.comp.id !in s.dir && s.comp.id <= s.nextId
          && (forall j | j in s.comp.sel :: j < s.comp.id)
          && NewestSuffix(s.dir, s.comp.sel, s.comp.id)
          && (s.comp.all ==> forall j | j in s.dir && j !in s.comp.sel :: j > s.comp.id))
    && (s.comp.Printed? ==> s.comp.sel <= s.files && s.comp.id !in s.comp.sel)
    && (s.comp.Globbed? ==>
          && s.comp.listing <= s.dir.Keys
          && forall j | j in s.dir && j !in s.comp.listing :: s.flush == Written(j))
  }

  ghost predicate Ids(s: State) {
    && s.dir.Keys == s.files + Unregistered(s) + Unlisted(s) && s.files !! Unregistered(s) !! Unlisted(s)
    && (forall j | j in s.dir :: j <= s.nextId)
    && FlushIds(s) && MergeIds(s)
  }

  lemma FlushIdsKept(s: State, a: Action, s': State)
    requires Ids(s) && Step(s, a, s') && Guard(s, a) && !a.Reopen?
    ensures FlushIds(s')
  {
    hide MemTables.Represents, Merged, Fold, Desc, NewestSuffix;
  }

  lemma MergeIdsKept(s: State, a: Action, s': State)
    requires Ids(s) && Step(s, a, s') && Guard(s, a) && !a.Reopen?
    ensures MergeIds(s')
  {
    hide MemTables.Represents, Merged, Fold, Desc;
  }

  lemma FilesKept(s: State, a: Action, s': State)
    requires Ids(s) && Step(s, a, s') && Guard(s, a) && !a.Reopen?
    ensures s'.dir.Keys == s'.files + Unregistered(s') + Unlisted(s')
    ensures s'.files !! Unregistered(s') !! Unlisted(s')
  {
    hide MemTables.Represents, Merged, Fold, Desc, NewestSuffix;
  }

  lemma IdsKept(s: State, a: Action, s': State)
    requires Ids(s) && Step(s, a, s') && Guard(s, a) && !a.Reopen?
    ensures Ids(s')
  {
    FilesKept(s, a, s');
    FlushIdsKept(s, a, s');
    MergeIdsKept(s, a, s');
    hide FlushIds, MergeIds, Merged, Fold, Desc, Unregistered, Unlisted;
  }

  lemma OpenedIds(wal: seq<Write>, dir: Dir)
    ensures Ids(Opened(wal, dir))
  {
    hide Fold, Desc;
  }

  // ---------------------------------------------------------------------------------------------
  // Layers: readers against the directory, and the whole view against the plain map
  // ---------------------------------------------------------------------------------------------

  /**
   * Outside the immutable table the readers show what the readable files show; once its file is
   * installed, readers and directory both show the immutable table's own cells too.
   */
  ghost predicate LayersAt(s: State, k: Bytes) {
    && (InImmutable(s, k).None? ==> Shown(Search(s.readers, k)) == Read(Base(s), k))
    && ((s.flush.Installed? || s.flush.Registered?) && InImmutable(s, k).Some? ==>
          Shown(Search(s.readers, k)) == Shown(InImmutable(s, k)) == Read(Base(s), k))
  }

  ghost predicate ViewedAt(s: State, k: Bytes) {
    View(s, k) == Model(s, k)
  }

  ghost predicate InvAt(s: State, k: Bytes) {
    LayersAt(s, k) && ViewedAt(s, k)
  }

  /** The pending file shows the immutable table over the files below it. */
  lemma PendingRead(s: State, k: Bytes)
    requires Ids(s) && s.flush.Written?
    ensures Read(Lasting(s), k) == if InImmutable(s, k).Some? then Shown(InImmutable(s, k)) else Read(Base(s), k)
    ensures Find(s.dir[s.flush.id], k) == InImmutable(s, k)
  {
    hide Fold, Visible, Sorted;
    var f, base := s.flush.id, Base(s);
    assert base[f := s.dir[f]] == Lasting(s);
    ReadWithNewest(base, f, s.dir[f], k);
  }

  lemma ApplyKeeps(s: State, a: Action, s': State, k: Bytes)
    requires InvAt(s, k) && a.Apply? && Step(s, a, s')
    ensures InvAt(s', k)
  {
    hide Read, Search;
    FoldSnoc(s.applied, s.inflight[a.t]);
  }

  lemma RotateKeeps(s: State, s': State, k: Bytes)
    requires InvAt(s, k) && Ids(s) && Step(s, Rotate, s')
    ensures InvAt(s', k)
  {
    hide Read, Search, Fold, MemTables.Represents;
  }

  lemma WriteFileKeeps(s: State, a: Action, s': State, k: Bytes)
    requires InvAt(s, k) && Ids(s) && a.WriteFile? && Step(s, a, s')
    ensures InvAt(s', k)
  {
    hide Read, Search, Fold, MemTables.Represents;
    assert Base(s') == Base(s);
  }

  lemma InstallKeeps(s: State, s': State, k: Bytes)
    requires InvAt(s, k) && Ids(s) && Step(s, Install, s')
    ensures InvAt(s', k)
    ensures Search(s'.readers, k) == if InImmutable(s, k).Some? then InImmutable(s, k) else Search(s.readers, k)
  {
    hide Read, Fold;
    PendingRead(s, k);
    assert s'.readers[1..] == s.readers;
  }

  lemma RegisterKeeps(s: State, s': State, k: Bytes)
    requires InvAt(s, k) && Ids(s) && Step(s, Register, s')
    ensures InvAt(s', k)
  {
    hide Read, Search, Fold, MemTables.Represents;
  }

  lemma ClearKeeps(s: State, s': State, k: Bytes)
    requires InvAt(s, k) && Ids(s) && Step(s, Clear, s')
    ensures InvAt(s', k)
  {
    hide Read, Search, Fold, MemTables.Represents;
  }

  /** To the lasting files, writing the output is the whole compaction. */
  lemma WriteOutputCompacts(s: State, a: Action, s': State)
    requires Ids(s) && a.WriteOutput? && Step(s, a, s')
    ensures var Merging(c, sel, _) := s.comp;
            && Base(s') == Compacted(Base(s), sel, c, a.out)
            && Compacts(Base(s), sel, c, a.out, a.dropped) && NewestSuffix(Base(s), sel, c)
  {
    hide Fold, MemTables.Represents, Merged;
    var Merging(c, sel, _) := s.comp;
    assert Merged(sel, Base(s), a.out, a.dropped) by {
      MergedBelow(s.dir, Base(s), sel, a.out, a.dropped);
    }
    assert Base(s') == Compacted(Base(s), sel, c, a.out);
  }

  /** Writing the output of a guarded compaction changes no read. */
  lemma WriteOutputReads(s: State, a: Action, s': State, k: Bytes)
    requires Ids(s) && a.WriteOutput? && Step(s, a, s')
    ensures Read(Base(s'), k) == Read(Base(s), k)
  {
    WriteOutputCompacts(s, a, s');
    hide Ids, Base, Read, Compacts, Compacted, NewestSuffix, Merged;
    SuffixIsSound(Base(s), s.comp.sel, s.comp.id, a.out, a.dropped);
  }

  lemma WriteOutputKeeps(s: State, a: Action, s': State, k: Bytes)
    requires InvAt(s, k) && Ids(s) && a.WriteOutput? && Step(s, a, s')
    ensures InvAt(s', k)
  {
    WriteOutputReads(s, a, s', k);
    hide Read, Search, Fold, MemTables.Represents, Merged;
  }

  /** Replacing the list and removing the inputs leave the lasting files as they are. */
  lemma RemoveKeeps(s: State, a: Action, s': State, k: Bytes)
    requires InvAt(s, k) && Ids(s) && (a.ReplaceList? || a.Remove?) && Step(s, a, s')
    ensures Base(s') == Base(s) && InvAt(s', k)
  {
    hide Read, Search, Fold, MemTables.Represents, MergeIds, FlushIds;
    assert Base(s') == Base(s);
  }

  /** The reloaded readers show the listed files: the readable part, or all of it with the pending file. */
  lemma SwapReads(s: State, s': State, k: Bytes)
    requires Ids(s) && Step(s, Swap, s')
    ensures Shown(Search(s'.readers, k)) == Read(Lasting(s), k)
         || (s.flush.Written? && Shown(Search(s'.readers, k)) == Read(Base(s), k))
  {
    hide Search, Desc, Fold, MemTables.Represents, Visible;
    var listing := s.comp.listing;
    assert Lasting(s) == s.dir;
    SearchDesc(s.dir, listing, k);
    if listing != s.dir.Keys {
      assert s.flush.Written?;
      assert listing == Base(s).Keys;
      VisibleSelected(s.dir, Base(s), listing, k);
    }
  }

  lemma SwapKeeps(s: State, s': State, k: Bytes)
    requires InvAt(s, k) && Ids(s) && Step(s, Swap, s')
    ensures InvAt(s', k)
  {
    SwapReads(s, s', k);
    if s.flush.Written? {
      PendingRead(s, k);
    }
    hide Read, Search, Desc, Fold, MemTables.Represents;
  }

  /** The steps that only move the compaction along, and logging, touch nothing that is read. */
  lemma OtherKeeps(s: State, a: Action, s': State, k: Bytes)
    requires InvAt(s, k) && Ids(s) && Step(s, a, s') && Guard(s, a)
    requires a.Log? || a.BeginMerge? || a.FailMerge? || a.NoMerge? || a.Glob?
    ensures InvAt(s', k)
  {
    BaseKept(s, a, s');
    hide Ids, Base, Read, Search, Fold, NewestSuffix, Guard;
  }

  lemma InvAtKept(s: State, a: Action, s': State, k: Bytes)
    requires InvAt(s, k) && Ids(s) && Step(s, a, s') && Guard(s, a) && !a.Reopen?
    ensures InvAt(s', k)
  {
    hide InvAt, Ids, Step;
    match a
    case Apply(_) => ApplyKeeps(s, a, s', k);
    case Rotate => RotateKeeps(s, s', k);
    case WriteFile(_) => WriteFileKeeps(s, a, s', k);
    case Install => InstallKeeps(s, s', k);
    case Register => RegisterKeeps(s, s', k);
    case Clear => ClearKeeps(s, s', k);
    case WriteOutput(_, _) => WriteOutputKeeps(s, a, s', k);
    case ReplaceList => RemoveKeeps(s, a, s', k);
    case Remove(_) => RemoveKeeps(s, a, s', k);
    case Swap => SwapKeeps(s, s', k);
    case _ => OtherKeeps(s, a, s', k);
  }

  // ---------------------------------------------------------------------------------------------
  // The log
  // ---------------------------------------------------------------------------------------------

  /** Every key the store holds anywhere was logged. */
  ghost predicate KeysLogged(s: State) {
    var logged := Fold(s.wal).Keys;
    && s.active.Keys <= logged
    && (s.immutable.Some? ==> s.immutable.value.Keys <= logged)
    && (forall t | t in s.inflight :: s.inflight[t].key in logged)
    && (forall id, k | id in s.dir && Has(s.dir, id, k) :: k in logged)
  }

  lemma MergedKeys(s: State, a: Action, k: Bytes)
    requires a.WriteOutput? && s.comp.Merging? && Merged(s.comp.sel, s.dir, a.out, a.dropped)
    requires Find(a.out, k).Some?
    ensures exists id :: id in s.dir && Has(s.dir, id, k)
  {
    assert Outcome(s.comp.sel, s.dir, a.out, a.dropped, k);
    assert Visible(s.dir, s.comp.sel, k).Some?;
    var id :| Newest(s.dir, s.comp.sel, k, id);
  }

  /** Kept by every step, guarded or not: flushes and compactions, however unsound, invent no key. */
  lemma KeysLoggedKept(s: State, a: Action, s': State)
    requires KeysLogged(s) && Step(s, a, s')
    ensures KeysLogged(s')
  {
    hide Merged, Desc, Visible, Sorted;
    match a {
      case Log(_, w) => FoldSnoc(s.wal, w);
      case WriteOutput(out, _) =>
        forall k | Find(out, k).Some?
          ensures k in Fold(s.wal)
        {
          MergedKeys(s, a, k);
          var id :| id in s.dir && Has(s.dir, id, k);
        }
      case _ =>
    }
  }

  /** Reopening shows the fold of the log over whatever the tables on disk show for keys never logged. */
  lemma OpenedView(wal: seq<Write>, dir: Dir, k: Bytes)
    ensures View(Opened(wal, dir), k) == if k in Fold(wal) then Shown(Some(Fold(wal)[k])) else Read(dir, k)
  {
    SearchDesc(dir, dir.Keys, k);
  }

  /** Open recovers exactly the fold of the log if and only if no unlogged key reads from disk. */
  lemma RecoveryExact(wal: seq<Write>, dir: Dir)
    ensures (forall k :: View(Opened(wal, dir), k) == Shown(At(Fold(wal), k)))
       <==> (forall k :: k !in Fold(wal) ==> Read(dir, k) == None)
  {
    hide Fold, Opened, View, Read;
    forall k
      ensures View(Opened(wal, dir), k) == Shown(At(Fold(wal), k)) <==> (k !in Fold(wal) ==> Read(dir, k) == None)
    {
      OpenedView(wal, dir, k);
    }
  }

  lemma UnloggedUnread(s: State, k: Bytes)
    requires KeysLogged(s) && k !in Fold(s.wal)
    ensures Read(s.dir, k) == None
  {
    hide Fold;
    VisibleNone(s.dir, s.dir.Keys, k);
  }

  lemma ReopenKeeps(s: State, s': State, k: Bytes)
    requires KeysLogged(s) && Step(s, Reopen, s')
    ensures InvAt(s', k)
  {
    OpenedView(s.wal, s.dir, k);
    if k !in Fold(s.wal) {
      UnloggedUnread(s, k);
    }
    SearchDesc(s.dir, s.dir.Keys, k);
    assert s.dir - {} == s.dir;
    hide Fold, Desc, Search;
  }

  /** At most one write to the key is in flight and the log ends with it; with none, log and memtables agree. */
  ghost predicate Pending(inflight: map<nat, Write>, k: Bytes, logged: Option<Cell>, applied: Option<Cell>) {
    && (forall t | t in inflight && inflight[t].key == k :: logged == Some(inflight[t].cell))
    && (forall t, u | t in inflight && u in inflight && inflight[t].key == k == inflight[u].key :: t == u)
    && ((forall t | t in inflight :: inflight[t].key != k) ==> logged == applied)
  }

  /** The logged but unapplied writes are the whole difference between the log and the memtables' history. */
  ghost predicate LogAt(s: State, k: Bytes) {
    Pending(s.inflight, k, At(Fold(s.wal), k), At(Fold(s.applied), k))
  }

  lemma PendingLess(inflight: map<nat, Write>, t: nat, k: Bytes, logged: Option<Cell>, applied: Option<Cell>)
    requires Pending(inflight, k, logged, applied) && t in inflight
    ensures Pending(inflight - {t}, k, logged, if inflight[t].key == k then Some(inflight[t].cell) else applied)
  {
    if inflight[t].key != k && forall u | u in inflight - {t} :: inflight[u].key != k {
      assert forall u | u in inflight :: inflight[u].key != k by {
        forall u | u in inflight
          ensures inflight[u].key != k
        {
          assert u == t || u in inflight - {t};
        }
      }
    }
  }

  lemma LogStepKeeps(s: State, a: Action, s': State, k: Bytes)
    requires LogAt(s, k) && a.Log? && Step(s, a, s') && Guard(s, a)
    ensures LogAt(s', k)
  {
    var Log(t, w) := a;
    FoldSnoc(s.wal, w);
    hide Fold;
    forall u | u in s.inflight
      ensures u in s'.inflight && s'.inflight[u] == s.inflight[u]
    {
    }
    assert s'.inflight[t] == w;
  }

  lemma ApplyStepKeeps(s: State, a: Action, s': State, k: Bytes)
    requires LogAt(s, k) && a.Apply? && Step(s, a, s')
    ensures LogAt(s', k)
  {
    FoldSnoc(s.applied, s.inflight[a.t]);
    PendingLess(s.inflight, a.t, k, At(Fold(s.wal), k), At(Fold(s.applied), k));
    hide Fold, Pending;
  }

  lemma LogKept(s: State, a: Action, s': State, k: Bytes)
    requires LogAt(s, k) && Step(s, a, s') && Guard(s, a)
    ensures LogAt(s', k)
  {
    hide Merged, Desc, MemTables.Represents, Fold, Guard;
    match a {
      case Log(_, _) => LogStepKeeps(s, a, s', k);
      case Apply(_) => ApplyStepKeeps(s, a, s', k);
      case _ =>
    }
  }

  // ---------------------------------------------------------------------------------------------
  // Whole runs
  // ---------------------------------------------------------------------------------------------

  ghost predicate Inv(s: State) {
    Ids(s) && KeysLogged(s) && forall k :: InvAt(s, k) && LogAt(s, k)
  }

  lemma InvKept(s: State, a: Action, s': State)
    requires Inv(s) && Step(s, a, s') && Guard(s, a)
    ensures Inv(s')
  {
    KeysLoggedKept(s, a, s');
    if a.Reopen? {
      OpenedIds(s.wal, s.dir);
    } else {
      IdsKept(s, a, s');
    }
    hide Ids, KeysLogged, InvAt, LogAt;
    forall k
      ensures InvAt(s', k) && LogAt(s', k)
    {
      LogKept(s, a, s', k);
      if a.Reopen? {
        ReopenKeeps(s, s', k);
      } else {
        InvAtKept(s, a, s', k);
      }
    }
  }

  /** Opening any directory whose keys were all logged starts a run. */
  lemma OpenedInv(wal: seq<Write>, dir: Dir)
    requires forall id, k | id in dir && Has(dir, id, k) :: k in Fold(wal)
    ensures Inv(Opened(wal, dir))
  {
    var s := Opened(wal, dir);
    OpenedIds(wal, dir);
    assert KeysLogged(s);
    assert Step(s, Reopen, s);
    hide Ids, InvAt, Fold, Desc;
    forall k
      ensures InvAt(s, k)
    {
      ReopenKeeps(s, s, k);
    }
  }

  ghost predicate Run(states: seq<State>, actions: seq<Action>) {
    && |states| == |actions| + 1
    && forall i :: 0 <= i < |actions| ==> Step(states[i], actions[i], states[i + 1])
  }

  ghost predicate Guarded(states: seq<State>, actions: seq<Action>)
    requires |states| == |actions| + 1
  {
    forall i :: 0 <= i < |actions| ==> Guard(states[i], actions[i])
  }

  lemma {:induction false} RunKeeps(states: seq<State>, actions: seq<Action>, n: nat)
    requires Run(states, actions) && Guarded(states, actions) && Inv(states[0]) && n < |states|
    ensures Inv(states[n])
  {
    hide Inv, Step, Guard;
    if n > 0 {
      RunKeeps(states, actions, n - 1);
      assert Step(states[n - 1], actions[n - 1], states[n - 1 + 1]) && Guard(states[n - 1], actions[n - 1]);
      InvKept(states[n - 1], actions[n - 1], states[n]);
    }
  }

  /** Whole-run refinement: in every state of a guarded run, reads return what a plain map would hold. */
  lemma RefinesMap(states: seq<State>, actions: seq<Action>, n: nat)
    requires Run(states, actions) && Guarded(states, actions) && Inv(states[0]) && n < |states|
    ensures forall k :: View(states[n], k) == Model(states[n], k)
  {
    hide Run, Guarded, Ids, KeysLogged, LogAt, View, Model;
    RunKeeps(states, actions, n);
    forall k
      ensures View(states[n], k) == Model(states[n], k)
    {
      assert InvAt(states[n], k);
    }
  }

  /**
   * A crash anywhere in a guarded run: reopening shows every acknowledged write, and each write that
   * was logged but not yet applied as if it had been.
   */
  lemma CrashRecovers(states: seq<State>, actions: seq<Action>, n: nat, k: Bytes)
    requires Run(states, actions) && Guarded(states, actions) && Inv(states[0]) && n < |states|
    ensures var s := states[n];
            && (NotInFlight(s, k) ==> View(Opened(s.wal, s.dir), k) == View(s, k))
            && (forall t | t in s.inflight && s.inflight[t].key == k ::
                  View(Opened(s.wal, s.dir), k) == Shown(Some(s.inflight[t].cell)))
  {
    hide Run, Guarded, Fold, Opened, Ids, View;
    var s := states[n];
    RunKeeps(states, actions, n);
    assert InvAt(s, k) && LogAt(s, k);
    OpenedView(s.wal, s.dir, k);
    if k !in Fold(s.wal) {
      UnloggedUnread(s, k);
    }
  }

  lemma {:induction false} AnyRunKeysLogged(states: seq<State>, actions: seq<Action>, n: nat)
    requires Run(states, actions) && KeysLogged(states[0]) && n < |states|
    ensures KeysLogged(states[n])
  {
    hide KeysLogged, Step;
    if n > 0 {
      AnyRunKeysLogged(states, actions, n - 1);
      assert Step(states[n - 1], actions[n - 1], states[n - 1 + 1]);
      KeysLoggedKept(states[n - 1], actions[n - 1], states[n]);
    }
  }

  /**
   * Recovery needs no guard: after any run at all, also one cut off between the steps of a compaction,
   * reopening shows exactly the fold of the log.
   */
  lemma AnyRunRecovers(states: seq<State>, actions: seq<Action>, n: nat, k: Bytes)
    requires Run(states, actions) && KeysLogged(states[0]) && n < |states|
    ensures View(Opened(states[n].wal, states[n].dir), k) == Shown(At(Fold(states[n].wal), k))
  {
    hide Run, Fold, Opened, View, KeysLogged;
    AnyRunKeysLogged(states, actions, n);
    OpenedView(states[n].wal, states[n].dir, k);
    if k !in Fold(states[n].wal) {
      UnloggedUnread(states[n], k);
    }
  }
}
