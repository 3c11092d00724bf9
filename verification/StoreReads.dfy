/** Reads that race with everything else: linearizability, and the interleavings that break the guards. */
module StoreReads {

  import opened ByteStrings
  import opened Tables
  import opened Merge
  import opened CompactionSoundness
  import opened Store
  import opened StoreInvariants
  import MemTables

  /** Get(k): the memtables as they were in one state, then the readers as they were in a later one. */
  function SplitGet(first: State, second: State, k: Bytes): Option<Bytes> {
    Shown(if InMemory(first, k).Some? then InMemory(first, k) else Search(second.readers, k))
  }

  /** v was the plain map's value at some moment from state a to state b of the run. */
  ghost predicate HeldDuring(states: seq<State>, a: nat, b: nat, k: Bytes, v: Option<Bytes>)
    requires b < |states|
  {
    exists j :: a <= j <= b && Model(states[j], k) == v
  }

  /**
   * While a Get that found nothing in memory waits, whatever the readers, the readable files or a
   * newly rotated table show for its key is a value the map held since it started.
   */
  ghost predicate Tracked(states: seq<State>, a: nat, b: nat, k: Bytes)
    requires b < |states|
  {
    var s := states[b];
    && HeldDuring(states, a, b, k, Shown(Search(s.readers, k)))
    && HeldDuring(states, a, b, k, Read(Base(s), k))
    && (InImmutable(s, k).Some? ==> HeldDuring(states, a, b, k, Shown(InImmutable(s, k))))
  }

  lemma HeldLonger(states: seq<State>, a: nat, b: nat, k: Bytes, v: Option<Bytes>)
    requires b + 1 < |states| && HeldDuring(states, a, b, k, v)
    ensures HeldDuring(states, a, b + 1, k, v)
  {
    var j :| a <= j <= b && Model(states[j], k) == v;
  }

  /** What the sources show next is among what they showed before, plus the map's current value. */
  lemma SourcesNext(s: State, a: Action, s': State, k: Bytes)
    requires Ids(s) && InvAt(s, k) && Step(s, a, s') && Guard(s, a) && !a.Reopen?
    ensures var sources := {Shown(Search(s.readers, k)), Read(Base(s), k)}
                        + (if InImmutable(s, k).Some? then {Shown(InImmutable(s, k))} else {});
            && Shown(Search(s'.readers, k)) in sources
            && Read(Base(s'), k) in sources
            && (InImmutable(s', k).Some? ==> Shown(InImmutable(s', k)) in sources + {Model(s, k)})
  {
    hide Fold, Merged, MemTables.Represents, Desc, Visible, NewestSuffix, Read;
    match a {
      case Install =>
        InstallKeeps(s, s', k);
        PendingRead(s, k);
        hide Search;
      case WriteOutput(_, _) =>
        WriteOutputReads(s, a, s', k);
        hide Search;
      case Swap =>
        SwapReads(s, s', k);
        BaseKept(s, a, s');
        if s.flush.Written? {
          PendingRead(s, k);
        }
        hide Search, Base;
      case _ =>
        BaseKept(s, a, s');
        hide Search, Base, Guard, FlushIds, MergeIds;
    }
  }

  lemma TrackedNext(states: seq<State>, actions: seq<Action>, a: nat, b: nat, k: Bytes)
    requires Run(states, actions) && Guarded(states, actions) && b + 1 < |states| && a <= b
    requires Inv(states[b]) && !actions[b].Reopen? && Tracked(states, a, b, k)
    ensures Tracked(states, a, b + 1, k)
  {
    hide Ids, KeysLogged, LogAt, Step, Guard, Search, Read, Model, Base, InImmutable;
    var s, s' := states[b], states[b + 1];
    assert Step(s, actions[b], s') && Guard(s, actions[b]);
    assert InvAt(s, k);
    hide InvAt;
    SourcesNext(s, actions[b], s', k);
    HeldLonger(states, a, b, k, Shown(Search(s.readers, k)));
    HeldLonger(states, a, b, k, Read(Base(s), k));
    if InImmutable(s, k).Some? {
      HeldLonger(states, a, b, k, Shown(InImmutable(s, k)));
    }
    assert HeldDuring(states, a, b + 1, k, Model(s, k));
  }

  lemma TrackedStart(states: seq<State>, a: nat, k: Bytes)
    requires a < |states| && Inv(states[a]) && InMemory(states[a], k).None?
    ensures Tracked(states, a, a, k)
  {
    hide Search, Read, Fold, Ids, KeysLogged, LogAt;
    var s := states[a];
    assert InvAt(s, k);
    assert Model(s, k) == View(s, k) == Shown(Search(s.readers, k)) == Read(Base(s), k);
  }

  lemma {:induction false} TrackedAlong(states: seq<State>, actions: seq<Action>, a: nat, b: nat, k: Bytes)
    requires Run(states, actions) && Guarded(states, actions) && Inv(states[0]) && a <= b < |states|
    requires forall i :: a <= i < b ==> !actions[i].Reopen?
    requires InMemory(states[a], k).None?
    ensures Tracked(states, a, b, k)
    decreases b
  {
    hide Tracked, Inv;
    if a == b {
      RunKeeps(states, actions, a);
      TrackedStart(states, a, k);
    } else {
      TrackedAlong(states, actions, a, b - 1, k);
      RunKeeps(states, actions, b - 1);
      TrackedNext(states, actions, a, b - 1, k);
    }
  }

  /**
   * Linearizable reads: Get, split into its two snapshots with any steps in between, returns a value
   * that the plain map held at some moment between its start and its end.
   */
  lemma LinearizableGet(states: seq<State>, actions: seq<Action>, a: nat, b: nat, k: Bytes)
    requires Run(states, actions) && Guarded(states, actions) && Inv(states[0]) && a <= b < |states|
    requires forall i :: a <= i < b ==> !actions[i].Reopen?
    ensures HeldDuring(states, a, b, k, SplitGet(states[a], states[b], k))
  {
    if InMemory(states[a], k).Some? {
      RunKeeps(states, actions, a);
      assert InvAt(states[a], k);
      hide Run, Guarded, Search, Read, Fold, Ids, KeysLogged;
      assert Model(states[a], k) == View(states[a], k);
    } else {
      hide Run, Guarded, Inv;
      TrackedAlong(states, actions, a, b, k);
    }
  }
}
