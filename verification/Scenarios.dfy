/** Runs from an empty store, through calls the code makes, in which a read differs from the plain map. */
module Scenarios {

  import opened ByteStrings
  import opened Tables
  import opened Merge
  import opened Tiers
  import opened Compaction
  import opened CompactionSoundness
  import opened SSTableWriter
  import opened Store
  import opened StoreInvariants
  import opened StoreCalls
  import opened StoreRaces
  import Bloom = BloomFilter
  import MemTables

  // ---------------------------------------------------------------------------------------------
  // Feeding the store one small file at a time
  // ---------------------------------------------------------------------------------------------

  ghost function Start(): State {
    Opened([], map[])
  }

  lemma StartShape()
    ensures Start() == State([], map[], map[], None, Idle, [], map[], {}, Quiet, 1, []) && Inv(Start())
  {
    var none: Dir := map[];
    assert none.Keys == {};
    OpenedInv([], map[]);
  }

  /** No call is under way and nothing is in memory. */
  predicate AtRest(s: State) {
    s.active == map[] && s.immutable.None? && s.flush.Idle? && s.comp.Quiet? && s.inflight == map[]
  }

  function Put(i: Byte, v: Bytes): Write {
    Write([i], Live(v))
  }

  function EntryOf(w: Write): Entry {
    Entry(w.key, w.cell)
  }

  /** One write, and a flush of the table that holds it alone, as under a memtable limit of two bytes. */
  function Fed(s: State, w: Write): State {
    var id := s.nextId + 1;
    s.(wal := s.wal + [w], applied := s.applied + [w], nextId := id, dir := s.dir[id := [EntryOf(w)]],
       readers := [Handle(id, [EntryOf(w)])] + s.readers, files := s.files + {id})
  }

  lemma FedLeads(s: State, w: Write)
    requires Leads(Start(), s, true) && AtRest(s) && w.key != []
    ensures Leads(Start(), Fed(s, w), true) && AtRest(Fed(s, w))
  {
    hide Leads, Start;
    var m := s.(wal := s.wal + [w], active := s.active[w.key := w.cell], applied := s.applied + [w]);
    LoggedLeads(Start(), s, w, m, true);
    var es := [EntryOf(w)];
    assert MemTables.Represents(es, m.active) by {
      OneEntry(w.key, w.cell);
    }
    assert w.key in m.active;
    FlushedLeads(Start(), m, es, Fed(s, w), true);
  }

  lemma OneEntry(k: Bytes, c: Cell)
    ensures forall q :: Find([Entry(k, c)], q) == if q == k then Some(c) else None
  {
    forall q
      ensures Find([Entry(k, c)], q) == if q == k then Some(c) else None
    {
      assert Find([Entry(k, c)][1..], q) == None;
    }
  }

  function FourWrites(): seq<Write> {
    [Put(0, [0]), Put(1, [0]), Put(2, [0]), Put(3, [0])]
  }

  /** Four keys, each in a file of its own. */
  ghost function Four(): State {
    Fed(Fed(Fed(Fed(Start(), Put(0, [0])), Put(1, [0])), Put(2, [0])), Put(3, [0]))
  }

  lemma FourLeads()
    ensures Leads(Start(), Four(), true) && AtRest(Four())
  {
    LeadsNowhere(Start());
    StartShape();
    hide Leads, Start, Fed;
    var s0 := Start();
    FedLeads(s0, Put(0, [0]));
    var s1 := Fed(s0, Put(0, [0]));
    FedLeads(s1, Put(1, [0]));
    var s2 := Fed(s1, Put(1, [0]));
    FedLeads(s2, Put(2, [0]));
    var s3 := Fed(s2, Put(2, [0]));
    FedLeads(s3, Put(3, [0]));
  }

  lemma FourShape()
    ensures Four().dir == map[2 := [EntryOf(Put(0, [0]))], 3 := [EntryOf(Put(1, [0]))],
                              4 := [EntryOf(Put(2, [0]))], 5 := [EntryOf(Put(3, [0]))]]
    ensures Four().files == {2, 3, 4, 5} && Four().nextId == 5
    ensures Four().applied == FourWrites() && Four().wal == FourWrites()
  {
    StartShape();
    hide Start;
  }

  // ---------------------------------------------------------------------------------------------
  // Merging four such files
  // ---------------------------------------------------------------------------------------------

  function MergedFour(): seq<Entry> {
    [EntryOf(Put(0, [0])), EntryOf(Put(1, [0])), EntryOf(Put(2, [0])), EntryOf(Put(3, [0]))]
  }

  lemma OnlyOne(dir: Dir, sel: set<nat>, id: nat, k: Bytes)
    requires id in sel && Has(dir, id, k) && forall j | j in sel && j != id :: !Has(dir, j, k)
    ensures Visible(dir, sel, k) == Find(dir[id], k)
  {
    assert Newest(dir, sel, k, id);
    VisibleIs(dir, sel, k, id);
  }

  lemma FindInFour(k: Bytes)
    ensures Sorted(MergedFour())
    ensures Find(MergedFour(), k) == if k == [0] || k == [1] || k == [2] || k == [3] then Some(Live([0])) else None
  {
    var es := MergedFour();
    forall i, j | 0 <= i < j < |es|
      ensures Less(es[i].key, es[j].key)
    {
      assert es[i].key[0] == i as Byte && es[j].key[0] == j as Byte;
    }
    if i: nat :| i < |es| && es[i].key == k {
      FindSome(es, k, i);
    } else {
      assert es[0].key == [0] && es[1].key == [1] && es[2].key == [2] && es[3].key == [3];
      FindNone(es, k);
    }
  }

  lemma FourMerged(dir: Dir, a: nat, b: nat, c: nat, d: nat)
    requires a < b < c < d && {a, b, c, d} <= dir.Keys
    requires dir[a] == [EntryOf(Put(0, [0]))] && dir[b] == [EntryOf(Put(1, [0]))]
    requires dir[c] == [EntryOf(Put(2, [0]))] && dir[d] == [EntryOf(Put(3, [0]))]
    ensures Merged({a, b, c, d}, dir, MergedFour(), {})
    ensures Visible(dir, {a, b, c, d}, [0]) == Some(Live([0]))
  {
    var sel := {a, b, c, d};
    OneEntry([0], Live([0]));
    OneEntry([1], Live([0]));
    OneEntry([2], Live([0]));
    OneEntry([3], Live([0]));
    hide Find, Sorted, Visible;
    forall k
      ensures Outcome(sel, dir, MergedFour(), {}, k)
    {
      FindInFour(k);
      if k == [0] {
        OnlyOne(dir, sel, a, k);
      } else if k == [1] {
        OnlyOne(dir, sel, b, k);
      } else if k == [2] {
        OnlyOne(dir, sel, c, k);
      } else if k == [3] {
        OnlyOne(dir, sel, d, k);
      } else {
        VisibleNone(dir, sel, k);
      }
    }
    FindInFour([0]);
    OnlyOne(dir, sel, a, [0]);
  }

  // ---------------------------------------------------------------------------------------------
  // Two writes of one key in flight
  // ---------------------------------------------------------------------------------------------

  /** Reachable from an empty store: a crash changes what a key reads as. */
  lemma CrashChangesRead() returns (s: State)
    ensures Leads(Start(), s, false) && s.inflight == map[]
    ensures View(s, [0]) == Some([0]) && View(Opened(s.wal, s.dir), [0]) == Some([1])
  {
    var w, x := Put(0, [0]), Put(0, [1]);
    hide Inv;
    StartShape();
    hide Start, Desc, Find, Visible;
    var s0 := Start();
    var s1 := s0.(wal := s0.wal + [w], inflight := s0.inflight[0 := w]);
    var s2 := s1.(wal := s1.wal + [x], inflight := s1.inflight[1 := x]);
    var s3 := s2.(active := s2.active[x.key := x.cell], inflight := s2.inflight - {1}, applied := s2.applied + [x]);
    s := s3.(active := s3.active[w.key := w.cell], inflight := s3.inflight - {0}, applied := s3.applied + [w]);
    assert Run([s0, s1, s2, s3, s], [Log(0, w), Log(1, x), Apply(1), Apply(0)]);
    OverlappingWrites([s0, s1, s2, s3, s], 0, w, 1, x);
  }

  // ---------------------------------------------------------------------------------------------
  // A flush that fails
  // ---------------------------------------------------------------------------------------------

  /** Reachable from an empty store: an acknowledged write is not read. */
  lemma FailedFlushHides() returns (s: State)
    ensures Leads(Start(), s, false) && s.inflight == map[]
    ensures View(s, [0]) == None && Model(s, [0]) == Some([1])
  {
    hide Inv, Leads, View, Model, Start;
    var m := FirstWrite(Put(0, [1]));
    LeadsUnsafe(Start(), m);
    s := m.(active := map[], nextId := m.nextId + 1);
    FailedLeads(Start(), m, s);
    NothingLeft(s, Put(0, [1]));
  }

  lemma FirstWrite(w: Write) returns (s: State)
    requires w.key != []
    ensures Leads(Start(), s, true) && s.active != map[] && s.applied == [] + [w]
    ensures s.inflight == map[] && s.immutable.None? && s.flush.Idle? && s.readers == []
  {
    hide Leads, Inv, Start;
    StartShape();
    s := Start().(wal := Start().wal + [w], active := Start().active[w.key := w.cell],
                  applied := Start().applied + [w]);
    LeadsNowhere(Start());
    LoggedLeads(Start(), Start(), w, s, true);
    assert w.key in s.active;
  }

  lemma NothingLeft(s: State, w: Write)
    requires s.active == map[] && s.immutable.None? && s.readers == [] && s.applied == [] + [w]
    ensures forall k :: View(s, k) == None
    ensures Model(s, w.key) == Shown(Some(w.cell))
  {
    hide Find;
    FoldSnoc([], w);
  }

  // ---------------------------------------------------------------------------------------------
  // A newer value in memory while the four files are merged
  // ---------------------------------------------------------------------------------------------

  lemma LastWins(ws: seq<Write>, w: Write)
    ensures Shown(At(Fold(ws + [w]), w.key)) == Shown(Some(w.cell))
  {
    FoldSnoc(ws, w);
    hide Fold;
  }

  /** The key of the first file is written again. */
  ghost function Rewritten(): State {
    var w := Put(0, [1]);
    Four().(wal := Four().wal + [w], active := Four().active[w.key := w.cell], applied := Four().applied + [w])
  }

  lemma RewrittenLeads()
    ensures Leads(Start(), Rewritten(), true) && Inv(Rewritten())
    ensures Model(Rewritten(), [0]) == Some([1]) && Rewritten().active == map[[0] := Live([1])]
    ensures AtRest(Four())
  {
    hide Leads, Inv, Start, Four;
    StartShape();
    FourLeads();
    LoggedLeads(Start(), Four(), Put(0, [1]), Rewritten(), true);
    LeadsKeeps(Start(), Rewritten());
    LastWins(Four().applied, Put(0, [1]));
  }

  /** What a merge of the four files under this id leaves. */
  ghost function FourCompacted(s: State): State {
    var id := s.nextId + 1;
    s.(nextId := id, dir := Compacted(s.dir, s.files, id, MergedFour()), files := {id}, comp := Removing({}))
  }

  lemma FourCompacting(s: State)
    requires s.dir == Four().dir && s.files == Four().files && s.nextId >= 5
    ensures Compacting(s, s.files, {}, FourCompacted(s))
    ensures Visible(s.dir, s.files, [0]) == Some(Live([0])) && Find(MergedFour(), [0]) == Some(Live([0]))
    ensures s.nextId + 1 !in s.dir && NewestSuffix(s.dir, s.files, s.nextId + 1)
  {
    FourShape();
    hide Four, Find, Visible, Sorted;
    FourMerged(s.dir, 2, 3, 4, 5);
    FindInFour([0]);
    hide Merged;
    var id := s.nextId + 1;
    assert FourCompacted(s).dir[id] == MergedFour();
    assert s.files - s.files + {id} == {id};
  }

  // ---------------------------------------------------------------------------------------------
  // A flush inside a reload
  // ---------------------------------------------------------------------------------------------

  /** Reachable from an empty store: after merge, rotation, and a flush inside the reload, an old value is read. */
  lemma ReloadLosesFlush() returns (s: State)
    ensures Leads(Start(), s, false) && s.inflight == map[]
    ensures View(s, [0]) == Some([0]) && Model(s, [0]) == Some([1])
  {
    var r := ReloadDue();
    var es := [EntryOf(Put(0, [1]))];
    OneEntry([0], Live([1]));
    hide Inv, Leads, Run, Start, View, Model, Read, Find;
    var states := FlushInsideReloadRuns(r, es);
    LeadsUnsafe(Start(), r);
    LeadsAlong(Start(), states, [Glob, WriteFile(es), Install, Swap, Register, Clear], 6);
    FlushInsideReload(states, es, [0]);
    s := states[6];
  }

  lemma ReloadDue() returns (r: State)
    ensures Leads(Start(), r, true) && Inv(r) && r.comp == Removing({}) && r.flush.Rotated? && r.inflight == map[]
    ensures r.active == map[] && r.immutable == Some(map[[0] := Live([1])])
    ensures Read(r.dir, [0]) == Some([0]) && Model(r, [0]) == Some([1])
  {
    hide Inv, Leads, Start, Four, Model, Fold, NewestSuffix, Find, Visible, Compacting, Read, MergedFour;
    RewrittenLeads();
    StartShape();
    var s := Rewritten();
    FourShape();
    FourCompacting(s);
    var m := FourCompacted(s);
    CompactingLeads(Start(), s, s.files, {}, m, true);
    r := RotatedFrom(m);
    assert [0] in m.active;
    LeadsOn(Start(), m, Rotate, r, true);
    LeadsKeeps(Start(), r);
    ReadMerged(m.dir, s.dir, s.files, s.nextId + 1);
    SameModel(s, r);
  }

  lemma SameModel(s: State, r: State)
    requires s.applied == r.applied
    ensures forall k :: Model(s, k) == Model(r, k)
  {
  }

  lemma ReadMerged(dir: Dir, before: Dir, sel: set<nat>, id: nat)
    requires dir == Compacted(before, sel, id, MergedFour()) && (forall j | j in before :: j < id)
    ensures Read(dir, [0]) == Some([0])
  {
    FindInFour([0]);
    hide Find, MergedFour;
    assert Newest(dir, dir.Keys, [0], id);
    VisibleIs(dir, dir.Keys, [0], id);
  }

  // ---------------------------------------------------------------------------------------------
  // A compaction that takes its id after a flush took one
  // ---------------------------------------------------------------------------------------------

  /** Reachable from an empty store: the flushed value is stored under an older id than the merged old one. */
  lemma LateFlushHides() returns (s: State)
    ensures Leads(Start(), s, false) && s.inflight == map[]
    ensures View(s, [0]) == Some([0]) && Model(s, [0]) == Some([1])
  {
    hide Inv, Leads, Start, Four, View, Model, Fold, NewestSuffix, Find, Visible, Compacting, Read, MergedFour, Desc;
    RewrittenLeads();
    StartShape();
    FourShape();
    var w := Put(0, [1]);
    var r := RotatedFrom(Rewritten());
    assert [0] in Rewritten().active;
    LeadsOn(Start(), Rewritten(), Rotate, r, true);
    LeadsKeeps(Start(), r);
    LeadsUnsafe(Start(), r);
    s := LateStored(r);
    SameModel(Rewritten(), s);
  }

  lemma LateStored(r: State) returns (s: State)
    requires Leads(Start(), r, false) && Inv(r) && r.flush == Rotated(6) && r.nextId == 6 && r.comp.Quiet?
    requires r.dir == Four().dir && r.files == Four().files && r.inflight == map[]
    requires r.active == map[] && r.immutable == Some(map[[0] := Live([1])])
    ensures Leads(Start(), s, false) && s.inflight == map[] && s.applied == r.applied
    ensures View(s, [0]) == Some([0])
  {
    hide Inv, Leads, Start, Four, View, Model, NewestSuffix, Find, Visible, Compacting, Read, MergedFour, Desc;
    var es := [EntryOf(Put(0, [1]))];
    OneEntry([0], Live([1]));
    FourShape();
    FourCompacting(r);
    var m := FourCompacted(r);
    CompactingLeads(Start(), r, r.files, {}, m, false);
    var f := m.(dir := m.dir[6 := es], readers := [Handle(6, es)] + m.readers, files := m.files + {6},
                immutable := None, flush := Idle);
    assert MemTables.Represents(es, r.immutable.value);
    hide MemTables.Represents;
    StoredLeads(Start(), m, es, f, false);
    s := f.(readers := Desc(f.dir, f.dir.Keys), comp := Quiet);
    ReloadedLeads(Start(), f, s, false);
    LateFlush(r, r.files, {}, m, es, f, s, [0]);
    assert m.dir[7] == MergedFour();
  }

  // ---------------------------------------------------------------------------------------------
  // A tier that is not a newest suffix
  // ---------------------------------------------------------------------------------------------

  function Long(): (v: Bytes)
    ensures |v| == 100
  {
    seq(100, _ => 7)
  }

  /** The first key is written again, with a value that makes its file larger than the others. */
  function FiveWrites(): seq<Write> {
    [Put(0, [0]), Put(1, [0]), Put(2, [0]), Put(0, Long()), Put(3, [0])]
  }

  ghost function Five(): State {
    Fed(Fed(Fed(Fed(Fed(Start(), Put(0, [0])), Put(1, [0])), Put(2, [0])), Put(0, Long())), Put(3, [0]))
  }

  lemma FiveLeads()
    ensures Leads(Start(), Five(), true) && AtRest(Five())
  {
    LeadsNowhere(Start());
    StartShape();
    hide Leads, Start, Fed;
    var s0 := Start();
    FedLeads(s0, Put(0, [0]));
    var s1 := Fed(s0, Put(0, [0]));
    FedLeads(s1, Put(1, [0]));
    var s2 := Fed(s1, Put(1, [0]));
    FedLeads(s2, Put(2, [0]));
    var s3 := Fed(s2, Put(2, [0]));
    FedLeads(s3, Put(0, Long()));
    var s4 := Fed(s3, Put(0, Long()));
    FedLeads(s4, Put(3, [0]));
  }

  lemma FiveShape()
    ensures Five().dir == map[2 := [EntryOf(Put(0, [0]))], 3 := [EntryOf(Put(1, [0]))], 4 := [EntryOf(Put(2, [0]))],
                              5 := [EntryOf(Put(0, Long()))], 6 := [EntryOf(Put(3, [0]))]]
    ensures Five().files == {2, 3, 4, 5, 6} && Five().nextId == 6 && Five().applied == FiveWrites()
  {
    StartShape();
    hide Start;
  }

  /** The bytes a one-entry table prints to, however the writer was to cut its blocks. */
  lemma PrintedSize(crc: Bytes -> U32, file: Bytes, blocks: seq<seq<Entry>>, e: Entry)
    requires Prints(crc, file, blocks, [e])
    ensures |file| == 84 + 2 * |e.key| + |ValueOf(e.cell)|
  {
    OneBlock(blocks, e);
    hide EncodeEntry, Block, EncodeIndexEntry, EncodeFooter, Bloom.FilterOf, Bloom.BitCount, PutUint;
    EncodeEntriesSnoc([], e);
    assert [] + [e] == [e];
    BlocksSnoc(crc, [], [e]);
    assert [] + [[e]] == [[e]];
    EncodeIndexSnoc([], IndexOf(crc, blocks)[0]);
    BloomSize([e.key]);
  }

  lemma BloomSize(keys: seq<Bytes>)
    requires |keys| == 1
    ensures |Bloom.Encode(Bloom.FilterOf(keys, Bloom.BitCount(1, BITS_PER_KEY)))| == 7
  {
    hide Bloom.BitCount;
    var m := Bloom.BitCount(1, BITS_PER_KEY);
    assert m == 16;
  }

  lemma OneBlock(blocks: seq<seq<Entry>>, e: Entry)
    requires NonEmpty(blocks) && Flatten(blocks) == [e]
    ensures blocks == [[e]]
  {
    FlattenLength(blocks);
    if blocks != [] {
      assert blocks[..0] == [] && [] + blocks[0] == blocks[0];
    }
  }

  lemma {:induction false} FlattenLength(blocks: seq<seq<Entry>>)
    requires NonEmpty(blocks)
    ensures |Flatten(blocks)| >= |blocks|
  {
    if blocks != [] {
      FlattenLength(blocks[..|blocks| - 1]);
    }
  }

  /** The five files as the engine lists them, with the sizes of their bytes. */
  function FiveFiles(): seq<File> {
    [File(2, 87), File(3, 87), File(4, 87), File(5, 186), File(6, 87)]
  }

  /** These are the sizes of the printed files, whatever the checksum function. */
  lemma FiveSizes(crc: Bytes -> U32, bytes: seq<Bytes>, blocks: seq<seq<seq<Entry>>>)
    requires |bytes| == |blocks| == 5
    requires forall i :: 0 <= i < 5 ==> Prints(crc, bytes[i], blocks[i], [EntryOf(FiveWrites()[i])])
    ensures forall i :: 0 <= i < 5 ==> |bytes[i]| == FiveFiles()[i].size
  {
    hide Prints;
    forall i | 0 <= i < 5
      ensures |bytes[i]| == FiveFiles()[i].size
    {
      PrintedSize(crc, bytes[i], blocks[i], EntryOf(FiveWrites()[i]));
    }
  }

  const SMALL := [File(2, 87), File(3, 87), File(4, 87), File(6, 87)]
  const LARGE := [File(5, 186)]

  lemma KnownGrouping()
    ensures Grouping(FiveFiles(), [SMALL, LARGE])
  {
    hide Grouping, Concat;
    SmallAndLarge();
    TwoTiers(SMALL, LARGE);
    hide Bounded, SortedBySize;
    GroupingOfSame(FiveFiles(), SMALL + LARGE, [SMALL, LARGE]);
  }

  lemma SmallAndLarge()
    ensures multiset(FiveFiles()) == multiset(SMALL + LARGE)
  {
    var three := [File(2, 87), File(3, 87), File(4, 87)];
    assert FiveFiles() == three + LARGE + [File(6, 87)] && SMALL == three + [File(6, 87)];
  }

  lemma GroupingOfSame(a: seq<File>, b: seq<File>, tiers: seq<seq<File>>)
    requires multiset(a) == multiset(b) && Grouping(b, tiers)
    ensures Grouping(a, tiers)
  {
  }

  lemma TwoTiers(a: seq<File>, b: seq<File>)
    requires a != [] && b != [] && Bounded(a) && Bounded(b) && SortedBySize(a + b)
    requires b[0].size >= 2 * AtLeastOne(a[0].size)
    ensures Grouping(a + b, [a, b])
  {
    hide Bounded, SortedBySize;
    ConcatSnoc([], a);
    ConcatSnoc([a], b);
    assert [] + [a] == [a] && [a] + [b] == [a, b] && [] + a == a;
  }

  /** However equal sizes are sorted, RunOnce selects the four small files and leaves the newer large one out. */
  lemma SmallTierChosen(tiers: seq<seq<File>>, selected: seq<File>)
    requires Grouping(FiveFiles(), tiers) && Chosen(tiers, 4, selected)
    ensures multiset(selected) == multiset(SMALL) && IdsOf(selected) == {2, 3, 4, 6}
  {
    KnownGrouping();
    hide Grouping;
    GroupingUnique(FiveFiles(), tiers, [SMALL, LARGE]);
    SameLength(tiers[0], SMALL);
    SameLength(tiers[1], LARGE);
    assert AnyFull(tiers, 4);
    assert selected == tiers[0];
    SameIds(selected, SMALL);
  }

  lemma SameIds(a: seq<File>, b: seq<File>)
    requires multiset(a) == multiset(b)
    ensures IdsOf(a) == IdsOf(b)
  {
    forall f
      ensures f in a <==> f in b
    {
      assert f in a <==> f in multiset(a);
      assert f in b <==> f in multiset(b);
    }
  }

  ghost function FiveCompacted(): State {
    var s := Five();
    s.(nextId := 7, dir := Compacted(s.dir, {2, 3, 4, 6}, 7, MergedFour()), files := {5, 7}, comp := Removing({}))
  }

  lemma FiveCompacting()
    ensures Compacting(Five(), {2, 3, 4, 6}, {}, FiveCompacted())
  {
    FiveShape();
    hide Five, Find, Visible, Sorted;
    FourMerged(Five().dir, 2, 3, 4, 6);
    hide Merged;
    assert FiveCompacted().dir[7] == MergedFour();
    assert {2, 3, 4, 5, 6} - {2, 3, 4, 6} + {7} == {5, 7};
  }

  /**
   * Reachable from an empty store by five writes, each flushed, and the one compaction round that the
   * files' sizes call for: the key's first value is read again instead of the one that replaced it.
   */
  lemma StaleValueReturns() returns (s: State)
    ensures Leads(Start(), s, false) && AtRest(s)
    ensures View(s, [0]) == Some([0]) && Model(s, [0]) == Some(Long())
  {
    hide Inv, Leads, Start, Five, Model, Read, View, Find, Visible, Compacting, Desc, MergedFour;
    FiveLeads();
    FiveShape();
    LeadsUnsafe(Start(), Five());
    var m := FiveCompacted();
    FiveCompacting();
    CompactingLeads(Start(), Five(), {2, 3, 4, 6}, {}, m, false);
    s := m.(readers := Desc(m.dir, m.dir.Keys), comp := Quiet);
    ReloadedLeads(Start(), m, s, false);
    ReadMerged(m.dir, Five().dir, {2, 3, 4, 6}, 7);
    AtRestView(s, [0]);
    FiveModel(s);
  }

  lemma AtRestView(s: State, k: Bytes)
    requires s.active == map[] && s.immutable.None? && s.readers == Desc(s.dir, s.dir.Keys)
    ensures View(s, k) == Read(s.dir, k)
  {
    hide Desc, Search, Visible;
    SearchDesc(s.dir, s.dir.Keys, k);
  }

  lemma FiveModel(s: State)
    requires s.applied == FiveWrites()
    ensures Model(s, [0]) == Some(Long())
  {
    var four := [Put(0, [0]), Put(1, [0]), Put(2, [0]), Put(0, Long())];
    assert FiveWrites() == four + [Put(3, [0])];
    FoldSnoc(four, Put(3, [0]));
    assert four == four[..3] + [Put(0, Long())];
    FoldSnoc(four[..3], Put(0, Long()));
    hide Fold;
  }
}
