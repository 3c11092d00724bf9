/** Exactly when replacing the selected files by the merged one leaves every read unchanged. */
module CompactionSoundness {

  import opened ByteStrings
  import opened Tables
  import opened Merge

  /** What a client sees of a cell: a value, or nothing. */
  function Shown(c: Option<Cell>): Option<Bytes> {
    match c
    case Some(Live(v)) => Some(v)
    case _ => None
  }

  /** What a newest-first search of the whole directory shows for the key. */
  ghost function Read(dir: Dir, k: Bytes): Option<Bytes> {
    Shown(Visible(dir, dir.Keys, k))
  }

  ghost predicate Holds(dir: Dir, ids: set<nat>, k: Bytes) {
    exists j :: j in ids && Has(dir, j, k)
  }

  ghost function NewerThan(dir: Dir, id: nat): set<nat> {
    set j | j in dir && j > id
  }

  function Compacted(dir: Dir, sel: set<nat>, outputID: nat, out: seq<Entry>): Dir {
    (dir - sel)[outputID := out]
  }

  /**
   * A merge of older files into outputID, where tombstones are dropped only if every other file is one
   * that AddFile registered mid-merge under a higher id.
   */
  ghost predicate Compacts(dir: Dir, sel: set<nat>, outputID: nat, out: seq<Entry>, dropped: set<Bytes>) {
    && sel <= dir.Keys && outputID !in dir && (forall j | j in sel :: j < outputID)
    && Merged(sel, dir, out, dropped)
    && (dropped != {} ==> forall j | j in dir && j !in sel :: j > outputID)
  }

  lemma VisibleSame(dir: Dir, after: Dir, k: Bytes)
    requires forall j :: (j in dir && Has(dir, j, k)) <==> (j in after && Has(after, j, k))
    requires forall j | j in dir && Has(dir, j, k) :: dir[j] == after[j]
    ensures Visible(dir, dir.Keys, k) == Visible(after, after.Keys, k)
  {
    if j :| j in dir && Has(dir, j, k) {
      var id := NewestExists(dir, dir.Keys, k, j);
      assert Newest(after, after.Keys, k, id);
    } else {
      VisibleNone(dir, dir.Keys, k);
      VisibleNone(after, after.Keys, k);
    }
  }

  lemma MergedHas(dir: Dir, sel: set<nat>, out: seq<Entry>, dropped: set<Bytes>, k: Bytes)
    requires Merged(sel, dir, out, dropped)
    ensures Outcome(sel, dir, out, dropped, k)
    ensures Holds(dir, sel, k) <==> Visible(dir, sel, k).Some?
  {
    if Holds(dir, sel, k) {
      var j :| j in sel && Has(dir, j, k);
      var id := NewestExists(dir, sel, k, j);
      VisibleIs(dir, sel, k, id);
    } else {
      VisibleNone(dir, sel, k);
    }
  }

  /** After a compaction a key reads from a newer file, else from the merged files, else as before. */
  lemma ReadAfter(dir: Dir, sel: set<nat>, outputID: nat, out: seq<Entry>, dropped: set<Bytes>, k: Bytes)
    requires Compacts(dir, sel, outputID, out, dropped)
    ensures Read(Compacted(dir, sel, outputID, out), k)
         == if Holds(dir, sel, k) && !Holds(dir, NewerThan(dir, outputID), k) then Shown(Visible(dir, sel, k))
            else Read(dir, k)
  {
    hide Find, Sorted, Visible;
    var after := Compacted(dir, sel, outputID, out);
    MergedHas(dir, sel, out, dropped, k);
    hide Merged;
    forall j | j in after && j != outputID && Has(after, j, k)
      ensures j in dir && j !in sel && Has(dir, j, k)
    {
      assert after[j] == dir[j];
    }
    forall j | j in dir && j !in sel && Has(dir, j, k)
      ensures j in after && Has(after, j, k)
    {
      assert after[j] == dir[j];
    }
    if Holds(dir, NewerThan(dir, outputID), k) {
      var j :| j in NewerThan(dir, outputID) && Has(dir, j, k);
      var id := NewestExists(dir, dir.Keys, k, j);
      assert Newest(after, after.Keys, k, id);
      VisibleIs(dir, dir.Keys, k, id);
      VisibleIs(after, after.Keys, k, id);
    } else if !Holds(dir, sel, k) {
      VisibleSame(dir, after, k);
    } else if k in dropped {
      forall j | j in after
        ensures !Has(after, j, k)
      {
        assert j > outputID && Has(after, j, k) ==> j in NewerThan(dir, outputID);
      }
      VisibleNone(after, after.Keys, k);
    } else {
      forall j | j in after && Has(after, j, k)
        ensures j <= outputID
      {
        assert j > outputID ==> j in NewerThan(dir, outputID);
      }
      assert Newest(after, after.Keys, k, outputID);
      VisibleIs(after, after.Keys, k, outputID);
    }
  }

  /** The newest selected entry of a key shows what the newest of all its entries shows. */
  ghost predicate AgreesOn(dir: Dir, sel: set<nat>, k: Bytes) {
    Read(dir, k) == Shown(Visible(dir, sel, k))
  }

  /**
   * Compaction preserves every read if and only if, for each key of a selected file that no newer file
   * covers, the newest entry overall and the newest selected entry show the same.
   */
  lemma CompactionExact(dir: Dir, sel: set<nat>, outputID: nat, out: seq<Entry>, dropped: set<Bytes>)
    requires Compacts(dir, sel, outputID, out, dropped)
    ensures (forall k :: Read(Compacted(dir, sel, outputID, out), k) == Read(dir, k))
       <==> (forall k :: Holds(dir, sel, k) && !Holds(dir, NewerThan(dir, outputID), k) ==> AgreesOn(dir, sel, k))
  {
    hide Visible, Merged, Read, Holds;
    var after := Compacted(dir, sel, outputID, out);
    forall k
      ensures Read(after, k) == Read(dir, k)
         <==> (Holds(dir, sel, k) && !Holds(dir, NewerThan(dir, outputID), k) ==> AgreesOn(dir, sel, k))
    {
      ReadAfter(dir, sel, outputID, out, dropped, k);
    }
  }

  /** The selected files are newer than every file left out, other than those newer than the output. */
  ghost predicate NewestSuffix(dir: Dir, sel: set<nat>, outputID: nat) {
    forall i, j | i in sel && j in dir && j !in sel && j < outputID :: j < i
  }

  /** Selecting a newest suffix is safe, whatever the files hold. */
  lemma SuffixIsSound(dir: Dir, sel: set<nat>, outputID: nat, out: seq<Entry>, dropped: set<Bytes>)
    requires Compacts(dir, sel, outputID, out, dropped) && NewestSuffix(dir, sel, outputID)
    ensures forall k :: Read(Compacted(dir, sel, outputID, out), k) == Read(dir, k)
  {
    forall k | Holds(dir, sel, k) && !Holds(dir, NewerThan(dir, outputID), k)
      ensures AgreesOn(dir, sel, k)
    {
      var j :| j in sel && Has(dir, j, k);
      var id := NewestExists(dir, dir.Keys, k, j);
      assert Newest(dir, sel, k, id);
      VisibleIs(dir, dir.Keys, k, id);
      VisibleIs(dir, sel, k, id);
    }
    CompactionExact(dir, sel, outputID, out, dropped);
  }

  /** Any other selection is unsafe for some contents of the same files. */
  lemma OnlySuffixIsSound(ids: set<nat>, sel: set<nat>, outputID: nat, i: nat, j: nat)
    returns (dir: Dir, out: seq<Entry>, k: Bytes)
    requires sel <= ids && (forall id | id in ids :: id < outputID)
    requires i in sel && j in ids && j !in sel && i < j
    ensures dir.Keys == ids && (forall id | id in dir :: Sorted(dir[id]))
    ensures Compacts(dir, sel, outputID, out, {})
    ensures Read(Compacted(dir, sel, outputID, out), k) != Read(dir, k)
  {
    k := [0];
    var stale, current := [Entry(k, Live([0]))], [Entry(k, Live([1]))];
    dir := map id | id in ids :: if id == i then stale else if id == j then current else [];
    out := stale;
    assert Newest(dir, sel, k, i) && Newest(dir, dir.Keys, k, j);
    VisibleIs(dir, sel, k, i);
    VisibleIs(dir, dir.Keys, k, j);
    forall q
      ensures Outcome(sel, dir, out, {}, q)
    {
      if q != k {
        FindNone(stale, q);
        FindNone(current, q);
        FindNone([], q);
        VisibleNone(dir, sel, q);
      }
    }
    ReadAfter(dir, sel, outputID, out, {}, k);
  }
}
