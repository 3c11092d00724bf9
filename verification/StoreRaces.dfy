/** What each missing piece of synchronization costs: exactly when the unguarded steps change a read. */
module StoreRaces {

  import opened ByteStrings
  import opened Tables
  import opened Merge
  import opened CompactionSoundness
  import opened Store
  import opened StoreInvariants
  import opened StoreCalls
  import MemTables

  // ---------------------------------------------------------------------------------------------
  // Two writes of one key in flight
  // ---------------------------------------------------------------------------------------------

  /**
   * Writes are logged before the lock is taken, so two of one key may be applied in the other order.
   * Then a crash preserves what the key reads as if and only if both writes show the same.
   */
  lemma OverlappingWrites(states: seq<State>, t: nat, w: Write, u: nat, x: Write)
    requires Run(states, [Log(t, w), Log(u, x), Apply(u), Apply(t)]) && w.key == x.key
    ensures var s := states[4];
            && View(s, w.key) == Model(s, w.key) == Shown(Some(w.cell))
            && View(Opened(s.wal, s.dir), w.key) == Shown(Some(x.cell))
            && (View(Opened(s.wal, s.dir), w.key) == View(s, w.key) <==> Shown(Some(w.cell)) == Shown(Some(x.cell)))
  {
    hide Desc, Find, Visible;
    var s, actions := states[0], [Log(t, w), Log(u, x), Apply(u), Apply(t)];
    assert Step(s, actions[0], states[0 + 1]) && Step(states[1], actions[1], states[1 + 1]);
    assert Step(states[2], actions[2], states[2 + 1]) && Step(states[3], actions[3], states[3 + 1]);
    FoldSnoc(s.wal, w);
    FoldSnoc(s.wal + [w], x);
    FoldSnoc(s.applied + [x], w);
    assert states[4].applied == s.applied + [x] + [w];
    OpenedView(states[4].wal, states[4].dir, w.key);
  }

  // ---------------------------------------------------------------------------------------------
  // A flush inside a reload
  // ---------------------------------------------------------------------------------------------

  /** The handles of a listing taken before a newer file was written show what the directory showed then. */
  lemma StaleListing(dir: Dir, id: nat, es: seq<Entry>, k: Bytes)
    requires id !in dir
    ensures Shown(Search(Desc(dir[id := es], dir.Keys), k)) == Read(dir, k)
  {
    SearchDesc(dir[id := es], dir.Keys, k);
    VisibleSelected(dir, dir[id := es], dir.Keys, k);
  }

  /** What a rotated table's keys read as while its flush is pending. */
  lemma RotatedModel(s: State, k: Bytes)
    requires Inv(s) && s.flush.Rotated? && k !in s.active
    ensures Model(s, k) == if InImmutable(s, k).Some? then Shown(InImmutable(s, k)) else Read(Base(s), k)
  {
    hide Ids, KeysLogged, LogAt, Read, Search, Fold;
    assert InvAt(s, k);
  }

  /**
   * reloadReaders lists the directory, a flush writes its file and installs its reader, and only then
   * does reloadReaders swap in the handles it listed. The flushed table is gone from every read, which
   * still agrees with the map exactly for the keys that the older files show alike.
   */
  lemma FlushInsideReload(states: seq<State>, es: seq<Entry>, k: Bytes)
    requires Run(states, [Glob, WriteFile(es), Install, Swap, Register, Clear])
    requires Inv(states[0]) && states[0].flush.Rotated?
    ensures var s, s' := states[0], states[6];
            && Model(s', k) == Model(s, k)
            && View(s', k) == (if k in s.active then Shown(Some(s.active[k])) else Read(s.dir, k))
            && (View(s', k) == Model(s', k) <==>
                  || k in s.active
                  || InImmutable(s, k).None?
                  || Shown(InImmutable(s, k)) == Read(s.dir, k))
  {
    var s := states[0];
    ReloadSteps(states, es, k);
    hide Run, Ids, KeysLogged, LogAt, Read, Search, Fold;
    assert Base(s) == s.dir by {
      assert s.dir - {} == s.dir;
    }
    assert InvAt(s, k);
    if k !in s.active {
      RotatedModel(s, k);
    }
  }

  /** The race can be run from every state in which a reload is due and a flush has taken its id. */
  lemma FlushInsideReloadRuns(s: State, es: seq<Entry>) returns (states: seq<State>)
    requires s.comp == Removing({}) && s.flush.Rotated?
    requires s.immutable.Some? && MemTables.Represents(es, s.immutable.value)
    ensures Run(states, [Glob, WriteFile(es), Install, Swap, Register, Clear]) && states[0] == s
    ensures states[6].inflight == s.inflight && states[6].applied == s.applied
  {
    hide Desc, MemTables.Represents;
    var id := s.flush.id;
    var s1 := s.(comp := Globbed(s.dir.Keys));
    var s2 := s1.(dir := s.dir[id := es], flush := Written(id));
    var s3 := s2.(readers := [Handle(id, es)] + s.readers, flush := Installed(id));
    var s4 := s3.(readers := Desc(s2.dir, s.dir.Keys), comp := Quiet);
    var s5 := s4.(files := s.files + {id}, flush := Registered(id));
    var s6 := s5.(immutable := None, flush := Idle);
    states := [s, s1, s2, s3, s4, s5, s6];
  }

  lemma ReloadSteps(states: seq<State>, es: seq<Entry>, k: Bytes)
    requires Run(states, [Glob, WriteFile(es), Install, Swap, Register, Clear])
    requires Ids(states[0]) && states[0].flush.Rotated?
    ensures states[0].comp == Removing({})
    ensures View(states[6], k)
         == if k in states[0].active then Shown(Some(states[0].active[k])) else Read(states[0].dir, k)
    ensures Model(states[6], k) == Model(states[0], k)
  {
    var s, actions := states[0], [Glob, WriteFile(es), Install, Swap, Register, Clear];
    hide Desc, Find, Read, Search, Fold, MergeIds, MemTables.Represents;
    var id, listed := s.flush.id, s.dir.Keys;
    assert Step(s, actions[0], states[0 + 1]) && Step(states[1], actions[1], states[1 + 1]);
    assert states[2] == s.(comp := Globbed(listed), dir := s.dir[id := es], flush := Written(id));
    assert id !in s.dir;
    hide Ids, FlushIds;
    assert Step(states[2], actions[2], states[2 + 1]) && Step(states[3], actions[3], states[3 + 1]);
    var after := Desc(s.dir[id := es], listed);
    assert states[4] == s.(comp := Quiet, dir := s.dir[id := es], flush := Installed(id), readers := after);
    assert Step(states[4], actions[4], states[4 + 1]) && Step(states[5], actions[5], states[5 + 1]);
    StaleListing(s.dir, id, es, k);
  }

  // ---------------------------------------------------------------------------------------------
  // A compaction that takes its id after a flush took one
  // ---------------------------------------------------------------------------------------------

  /**
   * A flush takes an id, a compaction takes a higher one and writes older versions under it, then the
   * flush stores its file. After the reload the older versions win wherever the merged file has the key,
   * so a read agrees with the map exactly where they show the same.
   */
  lemma LateFlush(s: State, sel: set<nat>, dropped: set<Bytes>, m: State, es: seq<Entry>, f: State, s': State, k: Bytes)
    requires Inv(s) && s.flush.Rotated? && s.comp.Quiet?
    requires Compacting(s, sel, dropped, m) && Stored(m, es, f) && Reloaded(f, s')
    ensures Model(s', k) == Model(s, k)
    ensures var out := m.dir[s.nextId + 1];
            && View(s', k) == (if k in s.active then Shown(Some(s.active[k]))
                               else if Find(out, k).Some? then Shown(Visible(s.dir, sel, k))
                               else if InImmutable(s, k).Some? then Shown(InImmutable(s, k))
                               else Read(m.dir, k))
            && (Find(out, k).Some? ==>
                  (View(s', k) == Model(s', k) <==>
                     || k in s.active
                     || Shown(Visible(s.dir, sel, k))
                        == if InImmutable(s, k).Some? then Shown(InImmutable(s, k)) else Read(s.dir, k)))
  {
    var id, fid := s.nextId + 1, s.flush.id;
    LateReads(s, sel, dropped, m, es, k);
    hide Compacting, Ids, KeysLogged, LogAt, Read, Search, Fold, Visible, Desc;
    LateShape(s, sel, dropped, m, es, f, s');
    SearchDesc(s'.dir, s'.dir.Keys, k);
    assert Base(s) == s.dir by {
      assert s.dir - {} == s.dir;
    }
    assert View(s', k) == if k in s.active then Shown(Some(s.active[k])) else Read(s'.dir, k) by {
      hide *;
      LateView(s, s', k);
    }
    if k !in s.active {
      RotatedModel(s, k);
    } else {
      assert InvAt(s, k);
    }
  }

  lemma LateShape(s: State, sel: set<nat>, dropped: set<Bytes>, m: State, es: seq<Entry>, f: State, s': State)
    requires Compacting(s, sel, dropped, m) && Stored(m, es, f) && Reloaded(f, s')
    ensures s'.active == s.active && s'.applied == s.applied && s'.immutable == None
    ensures s'.dir == m.dir[s.flush.id := es] && s'.readers == Desc(s'.dir, s'.dir.Keys)
  {
    hide MergesInto, Desc, MemTables.Represents;
  }

  lemma LateView(s: State, s': State, k: Bytes)
    requires s'.active == s.active && s'.immutable == None && s'.readers == Desc(s'.dir, s'.dir.Keys)
    ensures View(s', k) == if k in s.active then Shown(Some(s.active[k])) else Read(s'.dir, k)
  {
    hide Desc, Search, Visible;
    SearchDesc(s'.dir, s'.dir.Keys, k);
  }

  /** The merged file is newest of all, and the late one newest of the rest. */
  lemma LateReads(s: State, sel: set<nat>, dropped: set<Bytes>, m: State, es: seq<Entry>, k: Bytes)
    requires Inv(s) && s.flush.Rotated? && Compacting(s, sel, dropped, m)
    requires MemTables.Represents(es, m.immutable.value)
    ensures var out, late := m.dir[s.nextId + 1], m.dir[s.flush.id := es];
            && Read(late, k) == (if Find(out, k).Some? then Shown(Visible(s.dir, sel, k))
                                 else if InImmutable(s, k).Some? then Shown(InImmutable(s, k))
                                 else Read(m.dir, k))
  {
    var id, fid, out := s.nextId + 1, s.flush.id, m.dir[s.nextId + 1];
    assert Outcome(sel, s.dir, out, dropped, k);
    assert fid !in m.dir && fid < id && forall j | j in m.dir && j != id :: j < fid;
    assert Find(es, k) == InImmutable(s, k);
    hide Inv, Compacting, Merged, Outcome, Visible, Find, MemTables.Represents;
    LateVisible(m.dir, id, fid, es, k);
  }

  lemma LateVisible(dir: Dir, id: nat, fid: nat, es: seq<Entry>, k: Bytes)
    requires id in dir && fid !in dir && fid < id && forall j | j in dir && j != id :: j < fid
    ensures var late := dir[fid := es];
            Visible(late, late.Keys, k) == (if Find(dir[id], k).Some? then Find(dir[id], k)
                                            else if Find(es, k).Some? then Find(es, k)
                                            else Visible(dir, dir.Keys, k))
  {
    hide Find;
    var late := dir[fid := es];
    if Find(dir[id], k).Some? {
      assert Newest(late, late.Keys, k, id);
      VisibleIs(late, late.Keys, k, id);
    } else if Find(es, k).Some? {
      assert Newest(late, late.Keys, k, fid);
      VisibleIs(late, late.Keys, k, fid);
    } else {
      VisibleSame(dir, late, k);
    }
  }

  // ---------------------------------------------------------------------------------------------
  // A flush that fails
  // ---------------------------------------------------------------------------------------------

  /**
   * The writes of the rotated table are no longer read, until the next Open replays the log: a read
   * agrees with the map exactly where the readers show the same as the lost table.
   */
  lemma FailedFlush(s: State, s': State, k: Bytes)
    requires Inv(s) && Step(s, FailFlush, s')
    ensures Model(s', k) == Model(s, k)
    ensures View(s', k) == if k in s.active then Shown(Some(s.active[k])) else Shown(Search(s.readers, k))
    ensures View(s', k) == Model(s', k) <==>
              || k in s.active
              || InImmutable(s, k).None?
              || Shown(Search(s.readers, k)) == Shown(InImmutable(s, k))
    ensures NotInFlight(s, k) ==> View(Opened(s'.wal, s'.dir), k) == Model(s', k)
  {
    hide Ids, Search, Fold, Opened, Read;
    assert InvAt(s, k) && LogAt(s, k);
    OpenedView(s.wal, s.dir, k);
    if k !in Fold(s.wal) {
      UnloggedUnread(s, k);
    }
  }
}
