/** The compaction engine: what a round selects, leaves in the file list, and how many rounds can follow. */
module Compaction {

  import opened ByteStrings
  import opened Tables
  import opened Merge
  import opened SSTableWriter
  import opened TableFiles
  import opened TableSizes
  import opened Tiers

  function Ids(fs: seq<File>): (ids: seq<nat>)
    ensures |ids| == |fs| && forall i :: 0 <= i < |fs| ==> ids[i] == fs[i].id
  {
    seq(|fs|, i requires 0 <= i < |fs| => fs[i].id)
  }

  function IdsOf(fs: seq<File>): set<nat> {
    set f | f in fs :: f.id
  }

  ghost predicate DistinctIds(fs: seq<File>) {
    forall i, j :: 0 <= i < j < |fs| ==> fs[i].id != fs[j].id
  }

  /** The files whose id is not in the set, in order. */
  function Unselected(fs: seq<File>, ids: set<nat>): seq<File> {
    if fs == [] then []
    else
      var rest, last := Unselected(fs[..|fs| - 1], ids), fs[|fs| - 1];
      if last.id in ids then rest else rest + [last]
  }

  // ---------------------------------------------------------------------------------------------
  // Counting
  // ---------------------------------------------------------------------------------------------

  lemma IdsSnoc(fs: seq<File>, n: nat)
    requires DistinctIds(fs) && |fs| == n + 1
    ensures IdsOf(fs) == IdsOf(fs[..n]) + {fs[n].id}
    ensures fs[n].id !in IdsOf(fs[..n])
    ensures DistinctIds(fs[..n])
  {
    assert fs == fs[..n] + [fs[n]];
  }

  lemma IdsOfSnoc(fs: seq<File>, f: File)
    ensures IdsOf(fs + [f]) == IdsOf(fs) + {f.id}
    ensures DistinctIds(fs) && f.id !in IdsOf(fs) ==> DistinctIds(fs + [f])
  {
  }

  lemma {:induction false} IdCount(fs: seq<File>)
    requires DistinctIds(fs)
    ensures |IdsOf(fs)| == |fs|
  {
    if fs != [] {
      var n := |fs| - 1;
      IdsSnoc(fs, n);
      IdCount(fs[..n]);
    }
  }

  lemma IntersectCount(a: set<nat>, b: set<nat>, x: nat)
    requires x !in b
    ensures |a * (b + {x})| == |a * b| + (if x in a then 1 else 0)
  {
    if x in a {
      assert a * (b + {x}) == a * b + {x};
    } else {
      assert a * (b + {x}) == a * b;
    }
  }

  /** Removing a set of ids that all occur removes that many files. */
  lemma {:induction false} UnselectedCount(fs: seq<File>, ids: set<nat>)
    requires DistinctIds(fs)
    ensures |Unselected(fs, ids)| == |fs| - |ids * IdsOf(fs)|
  {
    if fs == [] {
      assert ids * IdsOf(fs) == {};
    } else {
      var n := |fs| - 1;
      IdsSnoc(fs, n);
      UnselectedCount(fs[..n], ids);
      IntersectCount(ids, IdsOf(fs[..n]), fs[n].id);
      hide IdsOf, DistinctIds;
    }
  }

  lemma {:induction false} UnselectedKeeps(fs: seq<File>, ids: set<nat>, f: File)
    ensures f in Unselected(fs, ids) <==> f in fs && f.id !in ids
  {
    if fs != [] {
      var n := |fs| - 1;
      UnselectedKeeps(fs[..n], ids, f);
      assert fs == fs[..n] + [fs[n]];
    }
  }

  lemma {:induction false} UnselectedDistinct(fs: seq<File>, ids: set<nat>)
    requires DistinctIds(fs)
    ensures DistinctIds(Unselected(fs, ids))
  {
    if fs != [] {
      var n := |fs| - 1;
      UnselectedDistinct(fs[..n], ids);
      var rest := Unselected(fs[..n], ids);
      forall i | 0 <= i < |rest|
        ensures rest[i].id != fs[n].id
      {
        UnselectedKeeps(fs[..n], ids, rest[i]);
      }
    }
  }

  lemma {:induction false} TierWithin(tiers: seq<seq<File>>, i: nat)
    requires i < |tiers|
    ensures multiset(tiers[i]) <= multiset(Concat(tiers))
    decreases |tiers|
  {
    var n := |tiers| - 1;
    if i < n {
      TierWithin(tiers[..n], i);
    }
  }

  /** A tier of a grouping is part of the files. */
  lemma TierOfFiles(files: seq<File>, tiers: seq<seq<File>>, i: nat)
    requires DistinctIds(files) && Grouping(files, tiers) && i < |tiers|
    ensures DistinctIds(tiers[i]) && IdsOf(tiers[i]) <= IdsOf(files)
    ensures |tiers[i]| == |files| ==> IdsOf(tiers[i]) == IdsOf(files)
  {
    hide HeadsApart, AllBounded, SortedBySize;
    TierWithin(tiers, i);
    var t := tiers[i];
    forall f | f in t
      ensures f in files
    {
      assert f in multiset(t);
      assert f in multiset(files);
    }
    forall a, b | 0 <= a < b < |t|
      ensures t[a].id != t[b].id
    {
      if t[a].id == t[b].id {
        SameIdSameFile(files, t[a], t[b]);
        TwiceIn(t, a, b);
        OnceIn(files, t[a]);
      }
    }
    if |t| == |files| {
      IdCount(t);
      IdCount(files);
      SubsetOfSameSize(IdsOf(t), IdsOf(files));
    }
  }

  lemma SubsetOfSameSize(a: set<nat>, b: set<nat>)
    requires a <= b && |a| == |b|
    ensures a == b
  {
    assert b == a + (b - a);
    assert |b| == |a| + |b - a|;
  }

  lemma SameIdSameFile(files: seq<File>, f: File, g: File)
    requires DistinctIds(files) && f in files && g in files && f.id == g.id
    ensures f == g
  {
  }

  lemma TwiceIn(t: seq<File>, a: nat, b: nat)
    requires a < b < |t| && t[a] == t[b]
    ensures multiset(t)[t[a]] >= 2
  {
    assert t == t[..b] + [t[b]] + t[b + 1..];
    assert t[..b][a] in multiset(t[..b]);
  }

  lemma {:induction false} OnceIn(files: seq<File>, f: File)
    requires DistinctIds(files)
    ensures multiset(files)[f] <= 1
  {
    if files != [] {
      var n := |files| - 1;
      OnceIn(files[..n], f);
      assert files == files[..n] + [files[n]];
      assert f in multiset(files[..n]) ==> f in files[..n];
    }
  }

  // ---------------------------------------------------------------------------------------------
  // The engine
  // ---------------------------------------------------------------------------------------------

  /** One effective round: what was selected, what was written, and the tombstones dropped. */
  ghost predicate Round(files: seq<File>, dir: Dir, threshold: nat, selected: seq<File>, out: seq<Entry>,
                        dropped: set<Bytes>)
  {
    && |selected| >= threshold && DistinctIds(selected) && IdsOf(selected) <= IdsOf(files)
    && Merged(IdsOf(selected), dir, out, dropped)
    && (dropped != {} ==> IdsOf(selected) == IdsOf(files))
  }

  ghost predicate FirstLongest(tiers: seq<seq<File>>, threshold: nat, i: nat) {
    && i < |tiers| && |tiers[i]| >= threshold
    && (forall j :: 0 <= j < |tiers| ==> |tiers[j]| <= |tiers[i]|)
    && forall j :: 0 <= j < i ==> |tiers[j]| < |tiers[i]|
  }

  /** The first longest tier if it reaches the threshold, or nothing if none does. */
  ghost predicate Chosen(tiers: seq<seq<File>>, threshold: nat, selected: seq<File>) {
    if AnyFull(tiers, threshold) then exists i: nat :: FirstLongest(tiers, threshold, i) && tiers[i] == selected
    else selected == []
  }

  /** Some tier of the files reaches the threshold. */
  ghost predicate TierFull(files: seq<File>, threshold: nat) {
    exists tiers :: Grouping(files, tiers) && AnyFull(tiers, threshold)
  }

  /** A selection is made exactly when a tier is full, and then of a full tier's distinct files. */
  lemma ChosenIsFull(files: seq<File>, tiers: seq<seq<File>>, threshold: nat, selected: seq<File>)
    requires DistinctIds(files) && threshold >= 1 && Grouping(files, tiers) && Chosen(tiers, threshold, selected)
    ensures selected != [] <==> TierFull(files, threshold)
    ensures selected != [] ==> |IdsOf(selected)| == |selected| >= threshold
  {
    hide Grouping, DistinctIds;
    if AnyFull(tiers, threshold) {
      var i: nat :| FirstLongest(tiers, threshold, i) && tiers[i] == selected;
      TierOfFiles(files, tiers, i);
      IdCount(selected);
    } else if TierFull(files, threshold) {
      var ts :| Grouping(files, ts) && AnyFull(ts, threshold);
      AnyFullAgrees(files, ts, tiers, threshold);
    }
  }

  /** What RunOnce selects. */
  ghost predicate TierSelected(files: seq<File>, threshold: nat, sel: set<nat>) {
    exists tiers, selected ::
      Grouping(files, tiers) && Chosen(tiers, threshold, selected) && selected != [] && IdsOf(selected) == sel
  }

  /** Whichever tier a round selects, its tables are small enough to be merged into one sound file. */
  ghost predicate RoundFits(files: seq<File>, threshold: nat, dir: Dir) {
    forall sel | TierSelected(files, threshold, sel) :: SmallInputs(dir, sel)
  }

  /** If all the tables together are small enough, any round's are. */
  lemma AllSmallFit(files: seq<File>, threshold: nat, dir: Dir)
    requires DistinctIds(files) && SmallInputs(dir, IdsOf(files)) && threshold >= 1
    ensures RoundFits(files, threshold, dir)
  {
    hide Grouping, DistinctIds, IdsOf, WeightOf;
    forall sel | TierSelected(files, threshold, sel)
      ensures SmallInputs(dir, sel)
    {
      var tiers, selected :|
        Grouping(files, tiers) && Chosen(tiers, threshold, selected) && selected != [] && IdsOf(selected) == sel;
      var i: nat :| FirstLongest(tiers, threshold, i) && tiers[i] == selected;
      TierOfFiles(files, tiers, i);
      WeightMonotone(dir, sel, IdsOf(files));
    }
  }

  /** The engine's list agrees with the disk: these files open, and their sizes are those of their bytes. */
  ghost predicate Listed(files: seq<File>, disk: Disk) {
    forall f | f in files :: f.id in disk && Opens(disk[f.id]) && f.size == |disk[f.id]|
  }

  class Engine {
    const crc: Bytes -> U32
    const threshold: nat
    var files: seq<File>
    var running: bool
    var disk: Disk

    /** The engine's files are on disk, sound, under distinct ids, and listed with their sizes. */
    ghost predicate Valid()
      reads this
    {
      threshold >= 1 && DistinctIds(files) && SoundDisk(crc, disk) && Listed(files, disk)
    }

    constructor (crc: Bytes -> U32, threshold: int, disk: Disk)
      requires SoundDisk(crc, disk)
      ensures Valid() && files == [] && this.disk == disk && !running && this.crc == crc
      ensures this.threshold == if threshold <= 0 then 4 else threshold
    {
      this.crc := crc;
      this.threshold := if threshold <= 0 then 4 else threshold;
      files, running, this.disk := [], false, disk;
    }

    method AddFile(meta: File)
      modifies this`files
      ensures files == old(files) + [meta]
    {
      files := files + [meta];
    }

    method NeedsCompaction() returns (b: bool)
      ensures forall tiers | Grouping(files, tiers) :: b == AnyFull(tiers, threshold)
      ensures b == TierFull(files, threshold)
    {
      hide Grouping, AnyFull;
      var tiers := GroupBySize(files);
      forall ts | Grouping(files, ts)
        ensures AnyFull(ts, threshold) == AnyFull(tiers, threshold)
      {
        if AnyFull(ts, threshold) {
          AnyFullAgrees(files, ts, tiers, threshold);
        } else if AnyFull(tiers, threshold) {
          AnyFullAgrees(files, tiers, ts, threshold);
        }
      }
      b := HasFull(tiers);
    }

    method HasFull(tiers: seq<seq<File>>) returns (b: bool)
      ensures b == AnyFull(tiers, threshold)
    {
      for i := 0 to |tiers|
        invariant forall j :: 0 <= j < i ==> |tiers[j]| < threshold
      {
        if |tiers[i]| >= threshold {
          return true;
        }
      }
      return false;
    }

    /** The first of the longest full tiers; empty when no tier is full. */
    method FindLongest(ts: seq<seq<File>>) returns (selected: seq<File>)
      requires threshold >= 1
      ensures Chosen(ts, threshold, selected)
      ensures selected != [] ==> |selected| >= threshold && selected in ts
    {
      hide FirstLongest, AnyFull;
      selected := [];
      ghost var at := 0;
      NoTierFull(ts[..0], threshold);
      for i := 0 to |ts|
        invariant selected == [] ==> !AnyFull(ts[..i], threshold)
        invariant selected != [] ==> at < i && ts[at] == selected && FirstLongest(ts[..i], threshold, at)
      {
        LongestSoFar(ts, threshold, i, at);
        if |ts[i]| >= threshold {
          if |ts[i]| > |selected| {
            selected, at := ts[i], i;
          }
        }
      }
      assert ts[..|ts|] == ts;
      if selected != [] {
        LongestIsFull(ts, threshold, at);
      }
    }

    method Select() returns (selected: seq<File>, ghost tiers: seq<seq<File>>)
      requires Valid()
      ensures Grouping(files, tiers) && Chosen(tiers, threshold, selected)
      ensures DistinctIds(selected) && IdsOf(selected) <= IdsOf(files)
      ensures selected != [] ==> |selected| >= threshold
      ensures |selected| <= |files| && (|selected| == |files| ==> IdsOf(selected) == IdsOf(files))
    {
      hide Grouping, DistinctIds, Chosen, SoundDisk;
      var ts := GroupBySize(files);
      tiers := ts;
      EmptySelection(files);
      selected := FindLongest(ts);
      if selected != [] {
        var i :| 0 <= i < |ts| && ts[i] == selected;
        TierOfFiles(files, ts, i);
        IdCount(files);
        IdCount(selected);
        SubsetSize(IdsOf(selected), IdsOf(files));
      }
    }

    /** The entries of every selected file, read through its iterator. */
    method ReadInputs(ids: seq<nat>) returns (inputs: Dir)
      requires forall i :: 0 <= i < |ids| ==> ids[i] in disk && Opens(disk[ids[i]])
      ensures inputs.Keys == IdSet(ids) && forall id | id in inputs :: inputs[id] == EntriesIn(crc, disk[id])
    {
      hide Opens, EntriesIn;
      inputs := map[];
      for i := 0 to |ids|
        invariant inputs.Keys == IdSet(ids[..i])
        invariant forall id | id in inputs :: id in disk && Opens(disk[id]) && inputs[id] == EntriesIn(crc, disk[id])
      {
        var listed := ListFile(crc, disk[ids[i]]);
        inputs := inputs[ids[i] := listed.value];
        IdSetSnoc(ids[..i], ids[i]);
        assert ids[..i + 1] == ids[..i] + [ids[i]];
      }
      assert ids[..|ids|] == ids;
    }

    /** merge: the bytes of the output file. */
    method MergeTables(chosen: seq<File>, dropNow: nat -> bool)
      returns (file: Bytes, ghost out: seq<Entry>, ghost dropped: set<Bytes>)
      requires Valid() && DistinctIds(chosen) && IdsOf(chosen) <= IdsOf(files)
      ensures Merged(IdsOf(chosen), TablesOf(crc, disk), out, dropped)
      ensures dropped != {} ==> exists p: nat :: dropNow(p)
      ensures HasTombstone(out) ==> exists p: nat :: !dropNow(p)
      ensures IsPrintOf(crc, file, out, 0)
      ensures SmallInputs(TablesOf(crc, disk), IdsOf(chosen)) ==> SoundFile(crc, file) && EntriesIn(crc, file) == out
    {
      hide DistinctIds, Sorted, Merged, Inputs, IsPrintOf, EntriesIn, Opens, Storable, HasTombstone, Weight, WeightOf;
      var ids := Ids(chosen);
      SelectedInputs(crc, files, disk, chosen);
      var inputs := ReadInputs(ids);
      InputsSound(crc, disk, ids, inputs);
      var entries;
      entries, dropped := MergeFiles(ids, inputs, dropNow);
      out := entries;
      MergedBelow(inputs, TablesOf(crc, disk), IdSet(ids), out, dropped);
      MergedStorable(IdSet(ids), inputs, out, dropped);
      var ok;
      ok, file := PrintEntries(crc, entries, 0);
      assert ok by {
        assert Storable(out);
        StorableAccepted(out);
      }
      if SmallInputs(TablesOf(crc, disk), IdsOf(chosen)) {
        MergedWeight(IdsOf(chosen), TablesOf(crc, disk), out, dropped);
        MergedSorted(IdSet(ids), inputs, out, dropped);
        SmallPrintIsSound(crc, file, out, 0);
      }
    }

    /**
     * fails says that the merge returns an error. arrivals are the files AddFile registers while it runs
     * without the lock, and seen(p) is how many of them it sees at its p-th pop.
     */
    method RunOnce(outputID: nat, fails: bool, arrivals: seq<File>, seen: nat -> nat)
      returns (n: nat, ghost tiers: seq<seq<File>>, ghost selected: seq<File>, ghost out: seq<Entry>,
               ghost dropped: set<Bytes>)
      requires Valid() && outputID !in TablesOf(crc, disk)
      requires DistinctIds(files + arrivals) && Listed(arrivals, disk)
      modifies this
      ensures running == old(running)
      ensures if running then selected == [] else Grouping(old(files), tiers) && Chosen(tiers, threshold, selected)
      ensures n == if fails then 0 else |selected|
      ensures n == 0 ==>
                Valid() && disk == old(disk) && files == old(files) + if selected == [] then [] else arrivals
      ensures n > 0 ==>
                && outputID in disk && disk == (old(disk) - IdsOf(selected))[outputID := disk[outputID]]
                && files == Unselected(old(files) + arrivals, IdsOf(selected)) + [File(outputID, |disk[outputID]|)]
                && Round(old(files), TablesOf(crc, old(disk)), threshold, selected, out, dropped)
                && IsPrintOf(crc, disk[outputID], out, 0)
                && (|selected| == |old(files)| && (forall p :: seen(p) == 0) ==> !HasTombstone(out))
      ensures n > 0 && SmallInputs(TablesOf(crc, old(disk)), IdsOf(selected)) ==>
                Valid() && SoundFile(crc, disk[outputID]) && EntriesIn(crc, disk[outputID]) == out
    {
      hide Grouping, DistinctIds, Sorted, Merged, EntriesIn, Opens, TablesOf, HasTombstone, SoundFile, AnyFull, Chosen;
      hide SmallInputs, IsPrintOf, SoundDisk;
      n, tiers, selected, out, dropped := 0, [], [], [], {};
      if running {
        return;
      }
      assert files + [] == files;
      var chosen;
      chosen, tiers := Select();
      selected := chosen;
      if |chosen| == 0 {
        return;
      }
      if fails {
        files := files + arrivals;
        return;
      }
      running := true;
      var before := |files|;
      var file;
      file, out, dropped := MergeTables(chosen, (p: nat) => |chosen| == before + seen(p));
      files := files + arrivals;
      if SmallInputs(TablesOf(crc, disk), IdsOf(chosen)) {
        RoundListed(crc, disk, files, IdsOf(chosen), outputID, file);
      }
      ReplaceFiles(chosen, outputID, file);
      running := false;
      n := |chosen|;
    }

    /** RunOnce's last critical section. */
    method ReplaceFiles(chosen: seq<File>, outputID: nat, out: Bytes)
      modifies this`files, this`disk
      ensures files == Unselected(old(files), IdsOf(chosen)) + [File(outputID, |out|)]
      ensures disk == (old(disk) - IdsOf(chosen))[outputID := out]
    {
      hide IdsOf;
      var selectedIDs := IdsOf(chosen);
      var remaining := [];
      for i := 0 to |files|
        invariant files == old(files) && disk == old(disk)
        invariant remaining == Unselected(files[..i], selectedIDs)
      {
        assert files[..i + 1][..i] == files[..i];
        if files[i].id !in selectedIDs {
          remaining := remaining + [files[i]];
        }
      }
      assert files[..|files|] == files;
      files := remaining + [File(outputID, |out|)];
      disk := (disk - selectedIDs)[outputID := out];
    }
  }

  lemma LongestSoFar(ts: seq<seq<File>>, threshold: nat, i: nat, at: nat)
    requires i < |ts| && threshold >= 1
    ensures !AnyFull(ts[..i], threshold) ==>
              if |ts[i]| >= threshold then FirstLongest(ts[..i + 1], threshold, i)
              else !AnyFull(ts[..i + 1], threshold)
    ensures at < i && FirstLongest(ts[..i], threshold, at) ==>
              |ts[at]| >= threshold &&
              if |ts[i]| > |ts[at]| then FirstLongest(ts[..i + 1], threshold, i)
              else FirstLongest(ts[..i + 1], threshold, at)
  {
    assert forall j :: 0 <= j < i ==> ts[..i + 1][j] == ts[..i][j] == ts[j];
    assert ts[..i + 1][i] == ts[i];
  }

  lemma NoTierFull(ts: seq<seq<File>>, threshold: nat)
    requires ts == []
    ensures !AnyFull(ts, threshold)
  {
  }

  lemma LongestIsFull(ts: seq<seq<File>>, threshold: nat, i: nat)
    requires FirstLongest(ts, threshold, i)
    ensures AnyFull(ts, threshold) && |ts[i]| >= threshold
  {
  }

  lemma MergedSorted(sel: set<nat>, dir: Dir, out: seq<Entry>, dropped: set<Bytes>)
    requires Merged(sel, dir, out, dropped)
    ensures Sorted(out)
  {
  }

  /** The disk after a round is sound, and the engine's list agrees with it. */
  lemma RoundListed(crc: Bytes -> U32, disk: Disk, files: seq<File>, sel: set<nat>, id: nat, file: Bytes)
    requires SoundDisk(crc, disk) && DistinctIds(files) && Listed(files, disk)
    requires id !in TablesOf(crc, disk) && SoundFile(crc, file)
    ensures var files', disk' := Unselected(files, sel) + [File(id, |file|)], (disk - sel)[id := file];
            SoundDisk(crc, disk') && DistinctIds(files') && Listed(files', disk')
  {
    hide Sound, Opens, EntriesIn, DistinctIds;
    var kept, disk' := Unselected(files, sel), (disk - sel)[id := file];
    UnselectedDistinct(files, sel);
    forall f | f in kept
      ensures f.id != id && f.id in disk' && disk'[f.id] == disk[f.id] && f in files
    {
      UnselectedKeeps(files, sel, f);
      assert f.id in TablesOf(crc, disk);
    }
    assert id !in IdsOf(kept);
    IdsOfSnoc(kept, File(id, |file|));
    forall j | j in disk' && Opens(disk'[j])
      ensures SoundFile(crc, disk'[j])
    {
      assert j != id ==> j in disk && disk'[j] == disk[j];
    }
  }

  lemma IdSetSnoc(ids: seq<nat>, id: nat)
    ensures IdSet(ids + [id]) == IdSet(ids) + {id}
  {
    assert forall j | j in IdSet(ids) :: exists i :: 0 <= i < |ids| && ids[i] == j == (ids + [id])[i];
    assert (ids + [id])[|ids|] == id;
  }

  lemma InputsSound(crc: Bytes -> U32, disk: Disk, ids: seq<nat>, inputs: Dir)
    requires SoundDisk(crc, disk) && inputs.Keys == IdSet(ids) && IdsDistinct(ids)
    requires forall id | id in inputs :: id in disk && Opens(disk[id]) && inputs[id] == EntriesIn(crc, disk[id])
    ensures Inputs(ids, inputs) && forall id | id in inputs :: Storable(inputs[id])
    ensures forall id | id in inputs :: id in TablesOf(crc, disk) && TablesOf(crc, disk)[id] == inputs[id]
  {
    hide Opens, Sorted, Storable;
    forall id | id in inputs
      ensures Sorted(inputs[id]) && Storable(inputs[id])
    {
      assert SoundFile(crc, disk[id]);
    }
  }

  ghost predicate IdsDistinct(ids: seq<nat>) {
    forall i, j :: 0 <= i < j < |ids| ==> ids[i] != ids[j]
  }

  lemma MergedStorable(sel: set<nat>, dir: Dir, out: seq<Entry>, dropped: set<Bytes>)
    requires Merged(sel, dir, out, dropped) && sel <= dir.Keys && forall id | id in dir :: Storable(dir[id])
    ensures Storable(out)
  {
    hide Visible, Sorted, Merged;
    forall e | e in out
      ensures e.key != [] && |ValueOf(e.cell)| < U32_SIZE
    {
      var id := MergedFrom(sel, dir, out, dropped, e);
    }
  }

  lemma StorableAccepted(es: seq<Entry>)
    requires Storable(es)
    ensures forall e | e in es :: e.key != []
  {
  }

  lemma EmptySelection(files: seq<File>)
    ensures DistinctIds([]) && IdsOf([]) == {}
    ensures files == [] ==> IdsOf(files) == {}
  {
  }

  lemma SubsetSize(a: set<nat>, b: set<nat>)
    requires a <= b
    ensures |a| <= |b|
  {
    assert b == a + (b - a);
    assert |b| == |a| + |b - a|;
  }

  lemma SelectedInputs(crc: Bytes -> U32, files: seq<File>, disk: Disk, selected: seq<File>)
    requires DistinctIds(selected) && IdsOf(selected) <= IdsOf(files)
    requires forall f | f in files :: f.id in disk && Opens(disk[f.id])
    ensures IdsDistinct(Ids(selected)) && IdSet(Ids(selected)) == IdsOf(selected)
    ensures forall i :: 0 <= i < |selected| ==> Ids(selected)[i] in disk && Opens(disk[Ids(selected)[i]])
  {
    hide Opens;
    var ids := Ids(selected);
    forall i | 0 <= i < |ids|
      ensures ids[i] in disk && Opens(disk[ids[i]]) && ids[i] in IdsOf(selected)
    {
      assert selected[i] in selected;
      assert ids[i] in IdsOf(files);
    }
    forall id | id in IdsOf(selected)
      ensures id in IdSet(ids)
    {
      var f :| f in selected && f.id == id;
      var i :| 0 <= i < |selected| && selected[i] == f;
      assert ids[i] == id;
    }
  }

  /** Each effective round keeps every other file and removes at least threshold - 1. */
  lemma RoundShrinks(files: seq<File>, dir: Dir, threshold: nat, selected: seq<File>, out: seq<Entry>,
                     dropped: set<Bytes>, output: File)
    requires DistinctIds(files) && threshold >= 1 && Round(files, dir, threshold, selected, out, dropped)
    ensures var after := Unselected(files, IdsOf(selected)) + [output];
            && |after| == |files| - |selected| + 1 <= |files| - (threshold - 1)
            && forall f | f in files && f.id !in IdsOf(selected) :: f in after
  {
    hide Merged, DistinctIds;
    UnselectedCount(files, IdsOf(selected));
    IdCount(selected);
    assert IdsOf(selected) * IdsOf(files) == IdsOf(selected);
    forall f | f in files && f.id !in IdsOf(selected)
      ensures f in Unselected(files, IdsOf(selected))
    {
      UnselectedKeeps(files, IdsOf(selected), f);
    }
  }

  /** files' is what an effective round without arrivals makes of files. */
  ghost predicate RoundTo(files: seq<File>, threshold: nat, files': seq<File>) {
    exists dir, selected, out, dropped, output: File ::
      && Round(files, dir, threshold, selected, out, dropped) && output.id !in IdsOf(files)
      && files' == Unselected(files, IdsOf(selected)) + [output]
  }

  lemma RoundToShrinks(files: seq<File>, threshold: nat, files': seq<File>)
    requires DistinctIds(files) && threshold >= 1 && RoundTo(files, threshold, files')
    ensures DistinctIds(files') && 1 <= |files'| <= |files| - (threshold - 1)
  {
    hide Round, DistinctIds;
    var dir, selected, out, dropped, output: File :|
      && Round(files, dir, threshold, selected, out, dropped) && output.id !in IdsOf(files)
      && files' == Unselected(files, IdsOf(selected)) + [output];
    RoundShrinks(files, dir, threshold, selected, out, dropped, output);
    var kept := Unselected(files, IdsOf(selected));
    UnselectedDistinct(files, IdsOf(selected));
    forall f | f in kept
      ensures f in files
    {
      UnselectedKeeps(files, IdsOf(selected), f);
    }
    IdsOfSnoc(kept, output);
  }

  /** From n files, at most (n - 1) / (threshold - 1) effective rounds run back to back. */
  lemma RoundsBounded(lists: seq<seq<File>>, threshold: nat)
    requires lists != [] && lists[0] != [] && DistinctIds(lists[0]) && threshold >= 2
    requires forall i :: 0 <= i < |lists| - 1 ==> RoundTo(lists[i], threshold, lists[i + 1])
    ensures |lists| - 1 <= (|lists[0]| - 1) / (threshold - 1)
  {
    hide RoundTo, DistinctIds;
    RoundsBoundedBy(lists, threshold);
    QuotientAtLeast(|lists| - 1, threshold - 1, |lists[0]| - 1);
  }

  lemma {:induction false} RoundsBoundedBy(lists: seq<seq<File>>, threshold: nat)
    requires lists != [] && lists[0] != [] && DistinctIds(lists[0]) && threshold >= 2
    requires forall i :: 0 <= i < |lists| - 1 ==> RoundTo(lists[i], threshold, lists[i + 1])
    ensures var n := |lists| - 1;
            DistinctIds(lists[n]) && 1 <= |lists[n]| <= |lists[0]| - n * (threshold - 1)
  {
    hide RoundTo, DistinctIds;
    var n := |lists| - 1;
    if n > 0 {
      RoundsBoundedBy(lists[..n], threshold);
      assert RoundTo(lists[n - 1], threshold, lists[n - 1 + 1]);
      RoundToShrinks(lists[n - 1], threshold, lists[n]);
      assert (n - 1) * (threshold - 1) + (threshold - 1) == n * (threshold - 1);
    }
  }
}
