/** What a skip list holds as a sorted list, its iterator, and flushing it to an SSTable. */
module MemTables {

  import opened ByteStrings
  import opened Tables
  import opened SkipLists
  import opened SSTableWriter
  import Bloom = BloomFilter

  // ---------------------------------------------------------------------------------------------
  // Lists of nodes
  // ---------------------------------------------------------------------------------------------

  ghost predicate Within(a: seq<Node>, b: seq<Node>) {
    forall i :: 0 <= i < |a| ==> a[i] in b
  }

  /** Two ascending lists of the same nodes are equal. */
  lemma {:induction false} AscendingUnique(a: seq<Node>, b: seq<Node>)
    requires SkipList.Ascending(a) && SkipList.Ascending(b) && Within(a, b) && Within(b, a)
    ensures a == b
  {
    hide Less;
    assert (a != [] ==> a[0] in b) && (b != [] ==> b[0] in a);
    if a != [] && b != [] {
      if a[0] != b[0] {
        LessAsymmetric(a[0].key, b[0].key);
      }
      LessIrreflexive(a[0].key);
      forall i | 0 <= i < |a[1..]|
        ensures a[1..][i] in b[1..]
      {
        assert a[i + 1] in b && a[i + 1] != b[0];
      }
      forall i | 0 <= i < |b[1..]|
        ensures b[1..][i] in a[1..]
      {
        assert b[i + 1] in a && b[i + 1] != a[0];
      }
      AscendingUnique(a[1..], b[1..]);
      assert a == [a[0]] + a[1..] && b == [b[0]] + b[1..];
    }
  }

  /** The nodes of a list that reach level i, in the list's order. */
  ghost function Taller(ns: seq<Node>, i: nat): seq<Node>
    reads ns
  {
    if ns == [] then []
    else if i < |ns[0].forward| then [ns[0]] + Taller(ns[1..], i)
    else Taller(ns[1..], i)
  }

  lemma {:induction false} TallerExact(ns: seq<Node>, i: nat)
    requires SkipList.Ascending(ns)
    ensures var r := Taller(ns, i);
            && SkipList.Ascending(r)
            && (forall b :: 0 <= b < |r| ==> r[b] in ns && i < |r[b].forward|)
            && (forall c :: 0 <= c < |ns| && i < |ns[c].forward| ==> ns[c] in r)
  {
    hide Less;
    if ns != [] {
      TallerExact(ns[1..], i);
      var rest := Taller(ns[1..], i);
      forall b | 0 <= b < |rest|
        ensures rest[b] in ns && Less(ns[0].key, rest[b].key)
      {
        assert rest[b] in ns[1..];
        var c :| 0 <= c < |ns[1..]| && ns[1..][c] == rest[b];
        assert ns[c + 1] == rest[b];
      }
      forall c | 0 < c < |ns| && i < |ns[c].forward|
        ensures ns[c] in rest
      {
        assert ns[1..][c - 1] == ns[c];
      }
    }
  }

  /** Each level is strictly sorted, and is the level below with the shorter nodes left out. */
  lemma LevelsNest(list: SkipList, i: nat)
    requires list.Valid() && i + 1 < MAX_LEVEL
    ensures SkipList.Ascending(list.LevelFrom(list.head, i))
    ensures list.LevelFrom(list.head, i + 1) == Taller(list.LevelFrom(list.head, i), i + 1)
  {
    hide Less, Footprint, SkipList.LevelFrom, SkipList.Links, SkipList.Holds, SkipList.DistinctKeys;
    list.LevelExact(list.head, i);
    list.LevelExact(list.head, i + 1);
    var below, above := list.LevelFrom(list.head, i), list.LevelFrom(list.head, i + 1);
    TallerExact(below, i + 1);
    var taller := Taller(below, i + 1);
    forall b | 0 <= b < |taller|
      ensures taller[b] in above
    {
      assert taller[b] in below;
      var c :| 0 <= c < |below| && below[c] == taller[b];
    }
    forall b | 0 <= b < |above|
      ensures above[b] in taller
    {
      assert above[b] in below;
    }
    AscendingUnique(above, taller);
  }

  // ---------------------------------------------------------------------------------------------
  // Level 0 as the table's sorted entries
  // ---------------------------------------------------------------------------------------------

  ghost function EntriesOf(ns: seq<Node>): (es: seq<Entry>)
    reads ns
    ensures |es| == |ns| && forall i :: 0 <= i < |ns| ==> es[i] == Entry(ns[i].key, ns[i].Cell())
  {
    seq(|ns|, i requires 0 <= i < |ns| reads ns => Entry(ns[i].key, ns[i].Cell()))
  }

  ghost function Contents(list: SkipList): seq<Entry>
    requires list.Valid()
    reads list, list.head, list.nodes
  {
    var level0 := list.LevelFrom(list.head, 0);
    list.LevelExact(list.head, 0);
    EntriesOf(level0)
  }

  /** The sorted list and the table answer every lookup alike. */
  ghost predicate Represents(es: seq<Entry>, t: Table) {
    Sorted(es) && forall k :: Find(es, k) == if k in t then Some(t[k]) else None
  }

  function TotalSize(es: seq<Entry>): nat {
    if es == [] then 0 else |es[0].key| + Length(es[0].cell) + TotalSize(es[1..])
  }

  lemma {:induction false} FootprintOfEntries(es: seq<Entry>, t: Table)
    requires Represents(es, t)
    ensures Footprint(t) == TotalSize(es) && |t| == |es|
  {
    hide Less, Footprint;
    if es == [] {
      forall k
        ensures k !in t
      {
        assert Find(es, k) == None;
      }
      assert t == map[];
      EmptyFootprint();
    } else {
      var k := es[0].key;
      assert Find(es, k) == Some(es[0].cell);
      FootprintWithout(t, k);
      TailAbsent(es);
      forall j
        ensures Find(es[1..], j) == if j in t - {k} then Some((t - {k})[j]) else None
      {
        assert Find(es, j) == if j in t then Some(t[j]) else None;
      }
      FootprintOfEntries(es[1..], t - {k});
    }
  }

  lemma EmptyFootprint()
    ensures Footprint(map[]) == 0
  {
  }

  /** Level 0 is the table in key order. */
  lemma ContentsExact(list: SkipList)
    requires list.Valid()
    ensures Represents(Contents(list), list.contents)
  {
    hide Less, SkipList.LevelFrom, Footprint;
    list.LevelExact(list.head, 0);
    var ns, es := list.LevelFrom(list.head, 0), Contents(list);
    assert forall i, j :: 0 <= i < j < |es| ==> Less(ns[i].key, ns[j].key);
    forall k
      ensures Find(es, k) == if k in list.contents then Some(list.contents[k]) else None
    {
      if k in list.contents {
        assert k in SkipList.KeySet(list.nodes);
        var x :| x in list.nodes && x.key == k;
        assert x in ns;
        var i :| 0 <= i < |ns| && ns[i] == x;
        SortedFind(es, i);
      } else {
        forall i | 0 <= i < |es|
          ensures es[i].key != k
        {
          assert ns[i] in list.nodes;
          assert es[i].key in SkipList.KeySet(list.nodes);
        }
        FindNone(es, k);
      }
    }
  }

  /** byteSize is the key and value bytes of level 0, and length its node count. */
  lemma Conservation(list: SkipList)
    requires list.Valid()
    ensures list.byteSize == TotalSize(Contents(list))
    ensures list.length == |Contents(list)|
  {
    hide Less, Footprint, Contents, SkipList.Shape;
    ContentsExact(list);
    FootprintOfEntries(Contents(list), list.contents);
    LengthIsTableSize(list);
  }

  lemma LengthIsTableSize(list: SkipList)
    requires list.Valid()
    ensures list.length == |list.contents|
  {
    hide Less, Footprint, SkipList.Heights, SkipList.Links;
    KeySetSize(list.nodes);
    assert |list.contents| == |list.contents.Keys|;
  }

  lemma {:induction false} KeySetSize(s: set<Node>)
    requires SkipList.DistinctKeys(s)
    ensures |SkipList.KeySet(s)| == |s|
  {
    if s != {} {
      var x :| x in s;
      KeySetSize(s - {x});
      assert SkipList.KeySet(s) == SkipList.KeySet(s - {x}) + {x.key};
      assert x.key !in SkipList.KeySet(s - {x});
    }
  }

  // ---------------------------------------------------------------------------------------------
  // Iteration and flushing
  // ---------------------------------------------------------------------------------------------

  class Iterator {
    const list: SkipList
    var curr: Node

    ghost predicate Positioned()
      reads this, list, list.head, list.nodes
    {
      list.Valid() && (curr in list.nodes || curr == list.head) && list.OnLevel(curr, 0)
    }

    ghost function Remaining(): seq<Entry>
      requires Positioned()
      reads this, list, list.head, list.nodes
    {
      var ns := list.LevelFrom(curr, 0);
      list.LevelExact(curr, 0);
      EntriesOf(ns)
    }

    constructor (list: SkipList)
      requires list.Valid()
      ensures Positioned() && this.list == list && Remaining() == Contents(list)
    {
      this.list := list;
      curr := list.head;
    }

    predicate HasEntry()
      requires Positioned()
      reads this, list, list.head, list.nodes
      ensures HasEntry() == (Remaining() != [])
    {
      curr.forward[0] != null
    }

    method Next()
      requires Positioned()
      modifies this`curr
      ensures Positioned()
      ensures Remaining() == if old(Remaining()) == [] then [] else old(Remaining())[1..]
    {
      if curr.forward[0] != null {
        list.StepForward(curr, 0);
        curr := curr.forward[0];
      }
    }

    method Current() returns (key: Bytes, value: Bytes, deleted: bool)
      requires Positioned() && HasEntry()
      ensures Remaining()[0] == Entry(key, if deleted then Tombstone else Live(value))
      ensures deleted ==> value == []
    {
      list.StepForward(curr, 0);
      var n := curr.forward[0];
      return n.key, n.value, n.deleted;
    }
  }

  /** Prints a memtable; ok is false when it holds the empty key, which Add refuses. */
  method WriteFromMemTable(crc: Bytes -> U32, list: SkipList, blockSize: int)
    returns (ok: bool, file: Bytes)
    requires list.Valid()
    ensures ok == ([] !in list.contents)
    ensures ok ==> IsPrintOf(crc, file, Contents(list), blockSize)
  {
    hide Less, FileOf, Bloom.BitCount, Contents, Flatten, Represents, Writer.Valid, Writer.Entries;
    hide SkipList.Valid, Iterator.Positioned, Iterator.Remaining, Iterator.HasEntry, EncodeEntries, AllFull, CutAt;
    var w := new Writer(crc, blockSize);
    var it := new Iterator(list);
    ghost var all := Contents(list);
    ContentsExact(list);
    assert KeptEntries([]) == [] && [] + all == all;
    ghost var done := [];
    NoneFull(w.blockSize);
    while it.HasEntry()
      invariant fresh(w) && fresh(it) && it.list == list && w.crc == crc
      invariant it.Positioned() && w.Valid() && |w.blockBuf| < w.blockSize
      invariant all == done + it.Remaining() && w.Entries() == KeptEntries(done)
      invariant AllFull(w.blocks, w.blockSize) && forall e | e in done :: e.key != []
      decreases |it.Remaining()|
    {
      ok, done := AddCurrent(w, it, all, done);
      if !ok {
        return false, [];
      }
    }
    assert done + [] == done;
    EmptyKeyAbsent(all, list.contents);
    WriterPending(w);
    CutAtEnd(w.blocks, w.pending, w.blockSize);
    w.Finish();
    ok, file := true, w.out;
    assert Prints(crc, file, w.blocks, KeptEntries(all)) && CutAt(w.blocks, BlockSizeOf(blockSize));
  }

  lemma EmptyKeyAbsent(es: seq<Entry>, t: Table)
    requires Represents(es, t) && forall e | e in es :: e.key != []
    ensures [] !in t
  {
    if [] in t {
      var i := FindWitness(es, []);
    }
  }

  /** One round of the flush loop. */
  method AddCurrent(w: Writer, it: Iterator, ghost all: seq<Entry>, ghost before: seq<Entry>)
    returns (ok: bool, ghost done: seq<Entry>)
    requires it.Positioned() && it.HasEntry() && w.Valid() && |w.blockBuf| < w.blockSize
    requires all == before + it.Remaining() && w.Entries() == KeptEntries(before)
    requires Represents(all, it.list.contents)
    requires AllFull(w.blocks, w.blockSize) && forall e | e in before :: e.key != []
    requires w as object != it && w as object != it.list && w as object != it.list.head
    requires w as object !in it.list.nodes && it as object !in it.list.nodes
    modifies w, it`curr
    ensures !ok ==> [] in it.list.contents
    ensures ok ==>
              && it.Positioned() && w.Valid() && |w.blockBuf| < w.blockSize
              && all == done + it.Remaining() && |it.Remaining()| < |old(it.Remaining())|
              && w.Entries() == KeptEntries(done)
              && AllFull(w.blocks, w.blockSize) && forall e | e in done :: e.key != []
  {
    hide Less, SkipList.Valid, Represents, Writer.Valid, Writer.Entries, Iterator.Remaining, Iterator.Positioned;
    hide EncodeEntries, KeptCell;
    ghost var rest := it.Remaining();
    var key, value, deleted := it.Current();
    ghost var e := Entry(key, if deleted then Tombstone else Live(value));
    assert e == all[|before|] && rest == [e] + rest[1..];
    EntryAccepted(all, it.list.contents, |before|);
    ok := w.Add(key, value, deleted);
    done := before + [e];
    if ok {
      KeptSnoc(before, e);
      ConcatAssociative(before, [e], rest[1..]);
      it.Next();
    }
  }

  lemma EntryAccepted(es: seq<Entry>, t: Table, i: nat)
    requires Represents(es, t) && i < |es|
    ensures es[i].key in t && t[es[i].key] == es[i].cell
  {
    SortedFind(es, i);
  }
}
