/** Whole calls as runs of the state machine: a write, a flush, a compaction round, and what each keeps. */
module StoreCalls {

  import opened ByteStrings
  import opened Tables
  import opened Merge
  import opened CompactionSoundness
  import opened Store
  import opened StoreInvariants
  import MemTables

  // ---------------------------------------------------------------------------------------------
  // Reachability
  // ---------------------------------------------------------------------------------------------

  /** Some run goes from s to s'; a safe one stays within the guard. */
  ghost predicate Leads(s: State, s': State, safe: bool) {
    exists states, actions ::
      && Run(states, actions) && states[0] == s && states[|actions|] == s'
      && (safe ==> Guarded(states, actions))
  }

  lemma LeadsNowhere(s: State)
    ensures Leads(s, s, true)
  {
    assert Run([s], []) && Guarded([s], []);
  }

  lemma LeadsOn(s: State, m: State, a: Action, s': State, safe: bool)
    requires Leads(s, m, safe) && Step(m, a, s') && (safe ==> Guard(m, a))
    ensures Leads(s, s', safe)
  {
    hide Step, Guard;
    var states, actions :|
      && Run(states, actions) && states[0] == s && states[|actions|] == m
      && (safe ==> Guarded(states, actions));
    var n := |actions|;
    var more, acts := states + [s'], actions + [a];
    forall i | 0 <= i < n + 1
      ensures Step(more[i], acts[i], more[i + 1]) && (safe ==> Guard(more[i], acts[i]))
    {
      if i < n {
        assert Step(states[i], actions[i], states[i + 1]);
      }
    }
    assert Run(more, acts);
  }

  lemma {:induction false} LeadsAlong(o: State, states: seq<State>, actions: seq<Action>, n: nat)
    requires Run(states, actions) && n < |states| && Leads(o, states[0], false)
    ensures Leads(o, states[n], false)
  {
    hide Leads, Step;
    if n > 0 {
      LeadsAlong(o, states, actions, n - 1);
      assert Step(states[n - 1], actions[n - 1], states[n - 1 + 1]);
      LeadsOn(o, states[n - 1], actions[n - 1], states[n], false);
    }
  }

  lemma LeadsUnsafe(s: State, s': State)
    requires Leads(s, s', true)
    ensures Leads(s, s', false)
  {
    hide Run, Guarded;
  }

  lemma LeadsKeeps(s: State, s': State)
    requires Leads(s, s', true) && Inv(s)
    ensures Inv(s')
  {
    hide Inv, Step, Guard;
    var states, actions :|
      Run(states, actions) && states[0] == s && states[|actions|] == s' && Guarded(states, actions);
    RunKeeps(states, actions, |actions|);
  }

  // ---------------------------------------------------------------------------------------------
  // Writes
  // ---------------------------------------------------------------------------------------------

  /** One write on its own: logged, then applied. */
  ghost predicate Logged(s: State, w: Write, s': State) {
    s' == s.(wal := s.wal + [w], active := s.active[w.key := w.cell], applied := s.applied + [w])
  }

  lemma LoggedLeads(o: State, s: State, w: Write, s': State, safe: bool)
    requires Leads(o, s, safe) && Logged(s, w, s') && s.inflight == map[] && w.key != []
    ensures Leads(o, s', safe)
  {
    hide Leads;
    var m := s.(wal := s.wal + [w], inflight := s.inflight[0 := w]);
    assert m.inflight - {0} == s.inflight;
    LeadsOn(o, s, Log(0, w), m, safe);
    LeadsOn(o, m, Apply(0), s', safe);
  }

  // ---------------------------------------------------------------------------------------------
  // Flushes
  // ---------------------------------------------------------------------------------------------

  /** flushIfNeeded's first critical section. */
  function RotatedFrom(s: State): State {
    s.(immutable := Some(s.active), active := map[], flush := Rotated(s.nextId + 1), nextId := s.nextId + 1)
  }

  /** The rest of a flush, once the id is taken. */
  ghost predicate Stored(s: State, es: seq<Entry>, s': State) {
    && s.flush.Rotated? && s.immutable.Some? && MemTables.Represents(es, s.immutable.value)
    && var id := s.flush.id;
       s' == s.(dir := s.dir[id := es], readers := [Handle(id, es)] + s.readers, files := s.files + {id},
                immutable := None, flush := Idle)
  }

  /** A whole flush: the active table becomes the newest file. */
  ghost predicate Flushed(s: State, es: seq<Entry>, s': State) {
    s.flush.Idle? && Stored(RotatedFrom(s), es, s')
  }

  lemma StoredLeads(o: State, s: State, es: seq<Entry>, s': State, safe: bool)
    requires Leads(o, s, safe) && Stored(s, es, s') && (safe ==> !s.comp.Globbed?)
    ensures Leads(o, s', safe)
  {
    hide Leads, MemTables.Represents;
    var id := s.flush.id;
    var s1 := s.(dir := s.dir[id := es], flush := Written(id));
    var s2 := s1.(readers := [Handle(id, es)] + s.readers, flush := Installed(id));
    var s3 := s2.(files := s.files + {id}, flush := Registered(id));
    LeadsOn(o, s, WriteFile(es), s1, safe);
    LeadsOn(o, s1, Install, s2, safe);
    LeadsOn(o, s2, Register, s3, safe);
    LeadsOn(o, s3, Clear, s', safe);
  }

  lemma FlushedLeads(o: State, s: State, es: seq<Entry>, s': State, safe: bool)
    requires Leads(o, s, safe) && Flushed(s, es, s') && s.active != map[] && (safe ==> !s.comp.Globbed?)
    ensures Leads(o, s', safe)
  {
    hide Leads, MemTables.Represents;
    LeadsOn(o, s, Rotate, RotatedFrom(s), safe);
    StoredLeads(o, RotatedFrom(s), es, s', safe);
  }

  /** A flush whose file could not be written; the rotated table is dropped all the same. */
  ghost predicate FlushFailed(s: State, s': State) {
    s.flush.Idle? && s' == s.(active := map[], immutable := None, nextId := s.nextId + 1)
  }

  lemma FailedLeads(o: State, s: State, s': State)
    requires Leads(o, s, false) && FlushFailed(s, s') && s.active != map[]
    ensures Leads(o, s', false)
  {
    hide Leads;
    LeadsOn(o, s, Rotate, RotatedFrom(s), false);
    LeadsOn(o, RotatedFrom(s), FailFlush, s', false);
  }

  // ---------------------------------------------------------------------------------------------
  // Compactions
  // ---------------------------------------------------------------------------------------------

  /** The directory after these files were merged into one under this id. */
  ghost predicate MergesInto(dir: Dir, sel: set<nat>, all: bool, id: nat, dropped: set<Bytes>, dir': Dir) {
    && sel != {} && sel <= dir.Keys && id in dir'
    && Merged(sel, dir, dir'[id], dropped) && (dropped != {} ==> all)
    && dir' == Compacted(dir, sel, id, dir'[id])
  }

  /** A merge from the taking of its id to the removal of its last input. */
  ghost predicate Compacting(s: State, sel: set<nat>, dropped: set<Bytes>, s': State) {
    var id := s.nextId + 1;
    && sel <= s.files && MergesInto(s.dir, sel, sel == s.files, id, dropped, s'.dir)
    && s' == s.(nextId := id, dir := s'.dir, files := s.files - sel + {id}, comp := Removing({}))
  }

  /** reloadReaders: lists the directory and swaps in a reader for every file. */
  ghost predicate Reloaded(s: State, s': State) {
    s' == s.(readers := Desc(s.dir, s.dir.Keys), comp := Quiet)
  }

  lemma {:induction false} RemovedLeads(o: State, s: State, s': State, safe: bool)
    requires Leads(o, s, safe) && s.comp.Removing?
    requires s' == s.(dir := s.dir - s.comp.left, comp := Removing({}))
    ensures Leads(o, s', safe)
    decreases if s.comp.Removing? then s.comp.left else {}
  {
    hide Leads;
    var left := s.comp.left;
    if left == {} {
      assert s.dir - {} == s.dir;
    } else {
      var id :| id in left;
      var m := s.(dir := s.dir - {id}, comp := Removing(left - {id}));
      LeadsOn(o, s, Remove(id), m, safe);
      assert m.dir - m.comp.left == s.dir - left;
      RemovedLeads(o, m, s', safe);
    }
  }

  lemma CompactingLeads(o: State, s: State, sel: set<nat>, dropped: set<Bytes>, s': State, safe: bool)
    requires Leads(o, s, safe) && s.comp.Quiet? && Compacting(s, sel, dropped, s') && s.nextId + 1 !in s.dir
    requires safe ==> Guard(s, BeginMerge(sel))
    ensures Leads(o, s', safe)
  {
    hide Leads, Merged, NewestSuffix;
    var id := s.nextId + 1;
    var out := s'.dir[id];
    var s1 := s.(comp := Merging(id, sel, sel == s.files), nextId := id);
    var s2 := s1.(dir := s.dir[id := out], comp := Printed(id, sel));
    var s3 := s2.(files := s.files - sel + {id}, comp := Removing(sel));
    LeadsOn(o, s, BeginMerge(sel), s1, safe);
    LeadsOn(o, s1, WriteOutput(out, dropped), s2, safe);
    LeadsOn(o, s2, ReplaceList, s3, safe);
    assert s'.dir == s3.dir - sel;
    RemovedLeads(o, s3, s', safe);
  }

  lemma ReloadedLeads(o: State, s: State, s': State, safe: bool)
    requires Leads(o, s, safe) && s.comp == Removing({}) && Reloaded(s, s')
    ensures Leads(o, s', safe)
  {
    hide Leads, Desc;
    var m := s.(comp := Globbed(s.dir.Keys));
    LeadsOn(o, s, Glob, m, safe);
    LeadsOn(o, m, Swap, s', safe);
  }

  // ---------------------------------------------------------------------------------------------
  // What the calls keep
  // ---------------------------------------------------------------------------------------------

  /** Set and Delete keep the invariant under which Get returns the plain map's value. */
  lemma LoggedKeeps(s: State, w: Write, s': State)
    requires Inv(s) && Logged(s, w, s') && s.inflight == map[] && w.key != []
    ensures Inv(s')
  {
    hide Inv, Leads;
    LeadsNowhere(s);
    LoggedLeads(s, s, w, s', true);
    LeadsKeeps(s, s');
  }

  /** A flush keeps it and changes no read. */
  lemma FlushedKeeps(s: State, es: seq<Entry>, s': State)
    requires Inv(s) && Flushed(s, es, s') && s.active != map[] && !s.comp.Globbed?
    ensures Inv(s') && forall k :: View(s', k) == View(s, k)
  {
    hide Inv, Leads, MemTables.Represents;
    LeadsNowhere(s);
    FlushedLeads(s, s, es, s', true);
    LeadsKeeps(s, s');
    SameViews(s, s');
  }

  /** So does a compaction round over a newest suffix that starts while no flush holds an id. */
  lemma RoundKeeps(s: State, sel: set<nat>, dropped: set<Bytes>, m: State, s': State)
    requires Inv(s) && s.comp.Quiet? && Compacting(s, sel, dropped, m) && Reloaded(m, s')
    requires Guard(s, BeginMerge(sel))
    ensures Inv(s') && forall k :: View(s', k) == View(s, k)
  {
    NextIsFree(s);
    hide Inv, Leads, Merged, NewestSuffix, Desc;
    LeadsNowhere(s);
    CompactingLeads(s, s, sel, dropped, m, true);
    ReloadedLeads(s, m, s', true);
    LeadsKeeps(s, s');
    SameViews(s, s');
  }

  lemma NextIsFree(s: State)
    requires Inv(s)
    ensures s.nextId + 1 !in s.dir
  {
  }

  lemma SameViews(s: State, s': State)
    requires Inv(s) && Inv(s') && s.applied == s'.applied
    ensures forall k :: View(s', k) == View(s, k)
  {
    hide Inv, View, Fold;
    forall k
      ensures View(s', k) == View(s, k)
    {
      ViewedInInv(s, k);
      ViewedInInv(s', k);
    }
  }

  lemma ViewedInInv(s: State, k: Bytes)
    ensures Inv(s) ==> View(s, k) == Model(s, k)
  {
    assert Inv(s) ==> InvAt(s, k);
  }
}
