/** Which version of a key a set of SSTables shows, and the heap merge that keeps exactly that one. */
module Merge {

  import opened ByteStrings
  import opened Tables

  /** The tables on disk, by file id; a higher id is meant to be newer. */
  type Dir = map<nat, seq<Entry>>

  ghost predicate Has(dir: Dir, id: nat, k: Bytes) {
    id in dir && Find(dir[id], k).Some?
  }

  ghost predicate Newest(dir: Dir, ids: set<nat>, k: Bytes, id: nat) {
    id in ids && Has(dir, id, k) && forall j | j in ids && Has(dir, j, k) :: j <= id
  }

  /** The cell that a newest-first search of these tables finds. */
  ghost function Visible(dir: Dir, ids: set<nat>, k: Bytes): Option<Cell> {
    if exists id :: Newest(dir, ids, k, id) then
      var id :| Newest(dir, ids, k, id);
      Find(dir[id], k)
    else None
  }

  lemma VisibleIs(dir: Dir, ids: set<nat>, k: Bytes, id: nat)
    requires Newest(dir, ids, k, id)
    ensures Visible(dir, ids, k) == Find(dir[id], k) && Visible(dir, ids, k).Some?
  {
  }

  lemma VisibleNone(dir: Dir, ids: set<nat>, k: Bytes)
    requires forall j | j in ids :: !Has(dir, j, k)
    ensures Visible(dir, ids, k) == None
  {
  }

  lemma {:induction false} NewestExists(dir: Dir, ids: set<nat>, k: Bytes, some: nat) returns (id: nat)
    requires some in ids && Has(dir, some, k)
    ensures Newest(dir, ids, k, id)
    decreases ids
  {
    if j :| j in ids && Has(dir, j, k) && j > some {
      id := NewestExists(dir, ids - {some}, k, j);
    } else {
      id := some;
    }
  }

  // ---------------------------------------------------------------------------------------------
  // The merge heap
  // ---------------------------------------------------------------------------------------------

  datatype Item = Item(entry: Entry, fileIdx: nat, fileID: nat)

  /** mergeHeap.Less: by key, and for one key the newest file first. */
  predicate ItemLess(a: Item, b: Item) {
    if a.entry.key != b.entry.key then Less(a.entry.key, b.entry.key) else a.fileID > b.fileID
  }

  ghost predicate DistinctFiles(h: set<Item>) {
    forall a, b | a in h && b in h && a.fileID == b.fileID :: a == b
  }

  lemma ItemLessTransitive(a: Item, b: Item, c: Item)
    requires ItemLess(a, b) && ItemLess(b, c)
    ensures ItemLess(a, c)
  {
    hide Less;
    if a.entry.key != b.entry.key && b.entry.key != c.entry.key {
      LessTransitive(a.entry.key, b.entry.key, c.entry.key);
      LessAsymmetric(a.entry.key, b.entry.key);
      LessIrreflexive(a.entry.key);
    }
  }

  /** heap.Pop: the least item under Less. */
  method Pop(h: set<Item>) returns (m: Item)
    requires h != {} && DistinctFiles(h)
    ensures m in h && forall x | x in h && x != m :: ItemLess(m, x)
  {
    hide ItemLess;
    m :| m in h;
    var rest := h - {m};
    while rest != {}
      invariant rest <= h && m in h && m !in rest
      invariant forall x | x in h && x !in rest && x != m :: ItemLess(m, x)
      decreases rest
    {
      var x :| x in rest;
      rest := rest - {x};
      ItemOrder(m, x);
      if ItemLess(x, m) {
        forall y | y in h && y !in rest && y != x
          ensures ItemLess(x, y)
        {
          if y != m {
            ItemLessTransitive(x, m, y);
          }
        }
        m := x;
      }
    }
  }

  lemma ItemOrder(a: Item, b: Item)
    requires a.fileID != b.fileID
    ensures ItemLess(a, b) || ItemLess(b, a)
  {
    LessTotal(a.entry.key, b.entry.key);
  }

  // ---------------------------------------------------------------------------------------------
  // The merge
  // ---------------------------------------------------------------------------------------------

  /** One sorted list per input file, with one cursor each. */
  ghost predicate Inputs(ids: seq<nat>, dir: Dir) {
    && (forall i :: 0 <= i < |ids| ==> ids[i] in dir && Sorted(dir[ids[i]]))
    && (forall i, j :: 0 <= i < j < |ids| ==> ids[i] != ids[j])
  }

  ghost predicate Cursors(ids: seq<nat>, dir: Dir, pos: seq<nat>) {
    && Inputs(ids, dir) && |pos| == |ids|
    && forall i :: 0 <= i < |ids| ==> pos[i] <= |dir[ids[i]]|
  }

  /** The heap holds the current entry of every iterator that is still valid. */
  ghost function HeapOf(ids: seq<nat>, dir: Dir, pos: seq<nat>): set<Item>
    requires Cursors(ids, dir, pos)
  {
    set i | 0 <= i < |ids| && pos[i] < |dir[ids[i]]| :: Item(dir[ids[i]][pos[i]], i, ids[i])
  }

  ghost function Unread(ids: seq<nat>, dir: Dir, pos: seq<nat>): set<(nat, nat)>
    requires Cursors(ids, dir, pos)
  {
    set i: nat, p: nat | i < |ids| && pos[i] <= p < |dir[ids[i]]| :: (i, p)
  }

  ghost predicate UpTo(k: Bytes, last: Option<Bytes>) {
    last.Some? && AtMost(k, last.value)
  }

  /** Every entry read is at or below the last key, every entry unread at or above it. */
  ghost predicate Frontier(ids: seq<nat>, dir: Dir, pos: seq<nat>, last: Option<Bytes>)
    requires Cursors(ids, dir, pos)
  {
    && (forall i, p | 0 <= i < |ids| && 0 <= p < pos[i] :: UpTo(dir[ids[i]][p].key, last))
    && (forall i, p | 0 <= i < |ids| && pos[i] <= p < |dir[ids[i]]| ::
          last.Some? ==> AtMost(last.value, dir[ids[i]][p].key))
  }

  ghost function IdSet(ids: seq<nat>): set<nat> {
    set i | 0 <= i < |ids| :: ids[i]
  }

  /** What the output must hold for a key: its newest cell, or nothing if its tombstone was dropped. */
  ghost predicate Outcome(ids: set<nat>, dir: Dir, out: seq<Entry>, dropped: set<Bytes>, k: Bytes) {
    && Find(out, k) == (if k in dropped then None else Visible(dir, ids, k))
    && (k in dropped ==> Visible(dir, ids, k) == Some(Tombstone))
  }

  /** The output and the dropped keys so far, settled for every key up to the last one. */
  ghost predicate Settled(ids: set<nat>, dir: Dir, out: seq<Entry>, dropped: set<Bytes>, last: Option<Bytes>) {
    && Sorted(out)
    && (forall i :: 0 <= i < |out| ==> UpTo(out[i].key, last))
    && (forall k | k in dropped :: UpTo(k, last))
    && (forall k | UpTo(k, last) :: Outcome(ids, dir, out, dropped, k))
  }

  /** The contract of a finished merge. */
  ghost predicate Merged(ids: set<nat>, dir: Dir, out: seq<Entry>, dropped: set<Bytes>) {
    Sorted(out) && forall k :: Outcome(ids, dir, out, dropped, k)
  }

  /** A merge depends only on the selected files. */
  lemma MergedBelow(dir: Dir, base: Dir, sel: set<nat>, out: seq<Entry>, dropped: set<Bytes>)
    requires Merged(sel, dir, out, dropped)
    requires forall j | j in sel :: j in dir && j in base && base[j] == dir[j]
    ensures Merged(sel, base, out, dropped)
  {
    forall k
      ensures Outcome(sel, base, out, dropped, k)
    {
      assert Outcome(sel, dir, out, dropped, k);
      VisibleSelected(dir, base, sel, k);
    }
  }

  lemma VisibleSelected(dir: Dir, base: Dir, sel: set<nat>, k: Bytes)
    requires forall j | j in sel :: j in dir && j in base && base[j] == dir[j]
    ensures Visible(base, sel, k) == Visible(dir, sel, k)
  {
    if j :| j in sel && Has(dir, j, k) {
      var n := NewestExists(dir, sel, k, j);
      assert Newest(base, sel, k, n);
      VisibleIs(dir, sel, k, n);
      VisibleIs(base, sel, k, n);
    } else {
      VisibleNone(dir, sel, k);
      VisibleNone(base, sel, k);
    }
  }

  lemma VisibleFrom(dir: Dir, ids: set<nat>, k: Bytes) returns (id: nat)
    requires Visible(dir, ids, k).Some?
    ensures id in ids && Has(dir, id, k) && Find(dir[id], k) == Visible(dir, ids, k)
  {
    id :| Newest(dir, ids, k, id);
    VisibleIs(dir, ids, k, id);
  }

  /** Every entry of a merge's output is an entry of some input. */
  lemma MergedFrom(sel: set<nat>, dir: Dir, out: seq<Entry>, dropped: set<Bytes>, e: Entry) returns (id: nat)
    requires Merged(sel, dir, out, dropped) && e in out
    ensures id in sel && id in dir && e in dir[id]
  {
    hide Visible, Sorted;
    var i :| 0 <= i < |out| && out[i] == e;
    SortedFind(out, i);
    assert Outcome(sel, dir, out, dropped, e.key);
    id := VisibleFrom(dir, sel, e.key);
    var j := FindWitness(dir[id], e.key);
    assert dir[id][j] in dir[id];
  }

  lemma HeapDistinct(ids: seq<nat>, dir: Dir, pos: seq<nat>)
    requires Cursors(ids, dir, pos)
    ensures DistinctFiles(HeapOf(ids, dir, pos))
  {
    hide Sorted;
    forall a, b | a in HeapOf(ids, dir, pos) && b in HeapOf(ids, dir, pos) && a.fileID == b.fileID
      ensures a == b
    {
      assert ids[a.fileIdx] == ids[b.fileIdx];
      if a.fileIdx < b.fileIdx {
      } else if b.fileIdx < a.fileIdx {
      }
    }
  }

  ghost predicate Least(h: set<Item>, m: Item) {
    m in h && forall x | x in h && x != m :: ItemLess(m, x)
  }

  /** No unread entry is below the key just popped. */
  lemma PoppedIsLeast(ids: seq<nat>, dir: Dir, pos: seq<nat>, m: Item, i: nat, p: nat)
    requires Cursors(ids, dir, pos) && Least(HeapOf(ids, dir, pos), m)
    requires i < |ids| && pos[i] <= p < |dir[ids[i]]|
    ensures AtMost(m.entry.key, dir[ids[i]][p].key)
    ensures dir[ids[i]][p].key == m.entry.key ==> p == pos[i] && (i == m.fileIdx || ids[i] < m.fileID)
  {
    hide Less;
    var es := dir[ids[i]];
    var x := Item(es[pos[i]], i, ids[i]);
    assert x in HeapOf(ids, dir, pos);
    if pos[i] < p {
      assert Less(es[pos[i]].key, es[p].key);
      if x.entry.key != m.entry.key {
        LessTransitive(m.entry.key, x.entry.key, es[p].key);
      }
      LessIrreflexive(m.entry.key);
    }
    LessIrreflexive(es[p].key);
  }

  /** The first entry popped for a key is its newest version. */
  lemma PoppedIsNewest(ids: seq<nat>, dir: Dir, pos: seq<nat>, last: Option<Bytes>, m: Item)
    requires Cursors(ids, dir, pos) && Frontier(ids, dir, pos, last) && Least(HeapOf(ids, dir, pos), m)
    requires !UpTo(m.entry.key, last)
    ensures Visible(dir, IdSet(ids), m.entry.key) == Some(m.entry.cell)
  {
    hide Less, AtMost;
    var k, es := m.entry.key, dir[m.fileID];
    assert m.fileID == ids[m.fileIdx] && es[pos[m.fileIdx]] == m.entry;
    SortedFind(es, pos[m.fileIdx]);
    forall j | j in IdSet(ids) && Has(dir, j, k)
      ensures j <= m.fileID
    {
      var i :| 0 <= i < |ids| && ids[i] == j;
      var p := FindWitness(dir[j], k);
      if p >= pos[i] {
        PoppedIsLeast(ids, dir, pos, m, i, p);
      }
    }
    assert Newest(dir, IdSet(ids), k, m.fileID);
    VisibleIs(dir, IdSet(ids), k, m.fileID);
  }

  /** Keys strictly between the last key and the popped one are in no input. */
  lemma GapIsEmpty(ids: seq<nat>, dir: Dir, pos: seq<nat>, last: Option<Bytes>, m: Item, k: Bytes)
    requires Cursors(ids, dir, pos) && Frontier(ids, dir, pos, last) && Least(HeapOf(ids, dir, pos), m)
    requires !UpTo(k, last) && Less(k, m.entry.key)
    ensures Visible(dir, IdSet(ids), k) == None
  {
    hide Less;
    forall j | j in IdSet(ids)
      ensures !Has(dir, j, k)
    {
      if Has(dir, j, k) {
        var i :| 0 <= i < |ids| && ids[i] == j;
        var p := FindWitness(dir[j], k);
        if p >= pos[i] {
          PoppedIsLeast(ids, dir, pos, m, i, p);
          LessAsymmetric(k, m.entry.key);
        }
      }
    }
    VisibleNone(dir, IdSet(ids), k);
  }

  ghost function Advanced(ids: seq<nat>, dir: Dir, pos: seq<nat>, m: Item): seq<nat>
    requires Cursors(ids, dir, pos) && m in HeapOf(ids, dir, pos)
  {
    pos[m.fileIdx := pos[m.fileIdx] + 1]
  }

  lemma FrontierStep(ids: seq<nat>, dir: Dir, pos: seq<nat>, last: Option<Bytes>, m: Item)
    requires Cursors(ids, dir, pos) && Frontier(ids, dir, pos, last) && Least(HeapOf(ids, dir, pos), m)
    ensures last.Some? ==> AtMost(last.value, m.entry.key)
    ensures Frontier(ids, dir, Advanced(ids, dir, pos, m), Some(m.entry.key))
  {
    hide AtMost, ItemLess, Sorted;
    var next, k := Advanced(ids, dir, pos, m), m.entry.key;
    assert k == dir[ids[m.fileIdx]][pos[m.fileIdx]].key;
    AtMostOrLess(k, k);
    LessIrreflexive(k);
    forall i, p | 0 <= i < |ids| && 0 <= p < next[i]
      ensures UpTo(dir[ids[i]][p].key, Some(k))
    {
      if p < pos[i] {
        AtMostTransitive(dir[ids[i]][p].key, last.value, k);
      }
    }
    forall i, p | 0 <= i < |ids| && next[i] <= p < |dir[ids[i]]|
      ensures AtMost(k, dir[ids[i]][p].key)
    {
      PoppedIsLeast(ids, dir, pos, m, i, p);
    }
  }

  lemma HeapAdvances(ids: seq<nat>, dir: Dir, pos: seq<nat>, m: Item)
    requires Cursors(ids, dir, pos) && m in HeapOf(ids, dir, pos)
    ensures var i, next := m.fileIdx, Advanced(ids, dir, pos, m);
            && Cursors(ids, dir, next)
            && Unread(ids, dir, next) < Unread(ids, dir, pos)
            && HeapOf(ids, dir, next)
               == HeapOf(ids, dir, pos) - {m}
                  + (if next[i] < |dir[ids[i]]| then {Item(dir[ids[i]][next[i]], i, ids[i])} else {})
  {
    hide Sorted;
    var i, next := m.fileIdx, Advanced(ids, dir, pos, m);
    assert (i, pos[i]) in Unread(ids, dir, pos) && (i, pos[i]) !in Unread(ids, dir, next);
    assert Unread(ids, dir, next) <= Unread(ids, dir, pos);
    forall x | x in HeapOf(ids, dir, pos) && x != m
      ensures x in HeapOf(ids, dir, next)
    {
      assert x.fileIdx != i;
    }
    forall x | x in HeapOf(ids, dir, next) && x.fileIdx != i
      ensures x in HeapOf(ids, dir, pos) && x != m
    {
    }
  }

  /** Keys between the last key and the next one to settle show nothing. */
  ghost predicate Gap(ids: set<nat>, dir: Dir, last: Option<Bytes>, k: Bytes) {
    && !UpTo(k, last)
    && forall j :: !UpTo(j, last) && Less(j, k) ==> Visible(dir, ids, j) == None
  }

  lemma GapBefore(ids: seq<nat>, dir: Dir, pos: seq<nat>, last: Option<Bytes>, m: Item)
    requires Cursors(ids, dir, pos) && Frontier(ids, dir, pos, last) && Least(HeapOf(ids, dir, pos), m)
    requires last != Some(m.entry.key)
    ensures Gap(IdSet(ids), dir, last, m.entry.key)
    ensures Visible(dir, IdSet(ids), m.entry.key) == Some(m.entry.cell)
  {
    hide Less, Visible, Frontier, Least, HeapOf, Cursors;
    FrontierStep(ids, dir, pos, last, m);
    if last.Some? {
      AtMostOrLess(m.entry.key, last.value);
    }
    PoppedIsNewest(ids, dir, pos, last, m);
    forall j | !UpTo(j, last) && Less(j, m.entry.key)
      ensures Visible(dir, IdSet(ids), j) == None
    {
      GapIsEmpty(ids, dir, pos, last, m, j);
    }
  }

  lemma OnlyUpTo(out: seq<Entry>, last: Option<Bytes>, k: Bytes)
    requires forall i :: 0 <= i < |out| ==> UpTo(out[i].key, last)
    requires !UpTo(k, last)
    ensures Find(out, k) == None
  {
    FindNone(out, k);
  }

  /** The next key is settled by writing its newest cell, or by dropping its tombstone. */
  lemma SettleNext(ids: set<nat>, dir: Dir, out: seq<Entry>, dropped: set<Bytes>, last: Option<Bytes>, e: Entry,
                   drop: bool)
    requires Settled(ids, dir, out, dropped, last) && Gap(ids, dir, last, e.key)
    requires Visible(dir, ids, e.key) == Some(e.cell) && (drop ==> e.cell == Tombstone)
    ensures if drop then Settled(ids, dir, out, dropped + {e.key}, Some(e.key))
            else Settled(ids, dir, out + [e], dropped, Some(e.key))
  {
    hide Less, Visible;
    var k := e.key;
    forall j | UpTo(j, last)
      ensures Less(j, k)
    {
      AtMostOrLess(k, last.value);
      AtMostOrLess(k, j);
      if AtMost(k, j) {
        AtMostTransitive(k, j, last.value);
      }
    }
    OnlyUpTo(out, last, k);
    forall j | UpTo(j, Some(k))
      ensures if drop then Outcome(ids, dir, out, dropped + {k}, j) else Outcome(ids, dir, out + [e], dropped, j)
    {
      FindConcat(out, [e], j);
      if !UpTo(j, last) {
        OnlyUpTo(out, last, j);
      } else {
        LessAsymmetric(j, k);
      }
    }
  }

  lemma HeapHasAll(ids: seq<nat>, dir: Dir, pos: seq<nat>)
    requires Cursors(ids, dir, pos)
    ensures forall i | 0 <= i < |ids| ::
              pos[i] < |dir[ids[i]]| ==> ids[i] in (set x | x in HeapOf(ids, dir, pos) :: x.fileID)
  {
    hide Sorted;
    forall i | 0 <= i < |ids| && pos[i] < |dir[ids[i]]|
      ensures ids[i] in (set x | x in HeapOf(ids, dir, pos) :: x.fileID)
    {
      assert Item(dir[ids[i]][pos[i]], i, ids[i]) in HeapOf(ids, dir, pos);
    }
  }

  lemma AllSettled(ids: seq<nat>, dir: Dir, pos: seq<nat>, last: Option<Bytes>, out: seq<Entry>, dropped: set<Bytes>)
    requires Cursors(ids, dir, pos) && Frontier(ids, dir, pos, last) && HeapOf(ids, dir, pos) == {}
    requires Settled(IdSet(ids), dir, out, dropped, last)
    ensures Merged(IdSet(ids), dir, out, dropped)
  {
    hide Less, AtMost, Sorted;
    HeapHasAll(ids, dir, pos);
    forall k | !UpTo(k, last)
      ensures Visible(dir, IdSet(ids), k) == None && Outcome(IdSet(ids), dir, out, dropped, k)
    {
      forall j | j in IdSet(ids)
        ensures !Has(dir, j, k)
      {
        if Has(dir, j, k) {
          var i :| 0 <= i < |ids| && ids[i] == j;
          var p := FindWitness(dir[j], k);
        }
      }
      VisibleNone(dir, IdSet(ids), k);
      OnlyUpTo(out, last, k);
    }
  }

  /** heap.Push of every iterator that is valid after SeekToFirst. */
  method InitHeap(ids: seq<nat>, dir: Dir, pos: seq<nat>) returns (h: set<Item>)
    requires Cursors(ids, dir, pos)
    ensures h == HeapOf(ids, dir, pos)
  {
    hide Sorted;
    h := {};
    for i := 0 to |ids|
      invariant forall x :: x in h <==> x in HeapOf(ids, dir, pos) && x.fileIdx < i
    {
      if pos[i] < |dir[ids[i]]| {
        h := h + {Item(dir[ids[i]][pos[i]], i, ids[i])};
      }
    }
  }

  lemma StartSettled(ids: seq<nat>, dir: Dir, pos: seq<nat>)
    requires Cursors(ids, dir, pos) && forall i :: 0 <= i < |ids| ==> pos[i] == 0
    ensures Frontier(ids, dir, pos, None) && Settled(IdSet(ids), dir, [], {}, None)
  {
  }

  ghost predicate HasTombstone(es: seq<Entry>) {
    exists i :: 0 <= i < |es| && es[i].cell.Tombstone?
  }

  /**
   * The heap loop. dropNow(p) says whether, when item p is popped, the engine's file list is exactly
   * the selected files, which is when the source drops tombstones; AddFile may change it between pops.
   */
  method MergeFiles(ids: seq<nat>, dir: Dir, dropNow: nat -> bool) returns (out: seq<Entry>, ghost dropped: set<Bytes>)
    requires Inputs(ids, dir)
    ensures Merged(IdSet(ids), dir, out, dropped)
    ensures dropped != {} ==> exists p: nat :: dropNow(p)
    ensures HasTombstone(out) ==> exists p: nat :: !dropNow(p)
  {
    hide Less, Visible, Frontier, Settled, HeapOf, Unread, Gap, Sorted, Merged, Inputs;
    var pos: seq<nat> := seq(|ids|, _ => 0);
    var last: Option<Bytes> := None;
    var h := InitHeap(ids, dir, pos);
    out, dropped := [], {};
    ghost var all := IdSet(ids);
    var pops := 0;
    StartSettled(ids, dir, pos);
    while h != {}
      invariant Cursors(ids, dir, pos) && h == HeapOf(ids, dir, pos)
      invariant Frontier(ids, dir, pos, last) && Settled(all, dir, out, dropped, last)
      invariant dropped != {} ==> exists p: nat :: dropNow(p)
      invariant HasTombstone(out) ==> exists p: nat :: !dropNow(p)
      decreases Unread(ids, dir, pos)
    {
      HeapDistinct(ids, dir, pos);
      var item := Pop(h);
      ItemRange(ids, dir, pos, item);
      FrontierStep(ids, dir, pos, last, item);
      HeapAdvances(ids, dir, pos, item);
      if last != Some(item.entry.key) {
        GapBefore(ids, dir, pos, last, item);
      }
      var i := item.fileIdx;
      h := h - {item};
      pos := pos[i := pos[i] + 1];
      if pos[i] < |dir[ids[i]]| {
        h := h + {Item(dir[ids[i]][pos[i]], i, ids[i])};
      }
      pops := pops + 1;
      if last == Some(item.entry.key) {
        continue;
      }
      var drop := item.entry.cell.Tombstone? && dropNow(pops - 1);
      SettleNext(all, dir, out, dropped, last, item.entry, drop);
      last := Some(item.entry.key);
      if drop {
        dropped := dropped + {item.entry.key};
        continue;
      }
      assert item.entry.cell.Tombstone? ==> !dropNow(pops - 1);
      out := out + [item.entry];
    }
    AllSettled(ids, dir, pos, last, out, dropped);
  }

  lemma ItemRange(ids: seq<nat>, dir: Dir, pos: seq<nat>, m: Item)
    requires Cursors(ids, dir, pos) && m in HeapOf(ids, dir, pos)
    ensures m.fileIdx < |ids| && m.fileID == ids[m.fileIdx] && m.fileID in dir
  {
  }
}
