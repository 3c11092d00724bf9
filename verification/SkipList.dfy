/** The memtable's skip list: a linked structure of up to twelve levels, spliced in place. */
module SkipLists {

  import opened ByteStrings
  import opened Tables

  const MAX_LEVEL := 12

  class Node {
    const key: Bytes
    var value: Bytes
    var deleted: bool
    var forward: seq<Node?>

    constructor (key: Bytes, value: Bytes, deleted: bool, level: nat)
      ensures this.key == key && this.value == value && this.deleted == deleted
      ensures forward == seq(level, _ => null)
    {
      this.key, this.value, this.deleted := key, value, deleted;
      forward := seq(level, _ => null);
    }

    function Cell(): Tables.Cell
      reads this`value, this`deleted
    {
      if deleted then Tombstone else Live(value)
    }
  }

  function Length(c: Cell): nat {
    match c
    case Live(v) => |v|
    case Tombstone => 0
  }

  /** Key and value bytes of a whole table. */
  ghost function Footprint(t: Table): nat {
    if t == map[] then 0 else
      var k :| k in t;
      |k| + Length(t[k]) + Footprint(t - {k})
  }

  lemma {:induction false} FootprintWithout(t: Table, k: Bytes)
    requires k in t
    ensures Footprint(t) == |k| + Length(t[k]) + Footprint(t - {k})
    decreases |t|
  {
    var j :| j in t && Footprint(t) == |j| + Length(t[j]) + Footprint(t - {j});
    if j != k {
      FootprintWithout(t - {j}, k);
      FootprintWithout(t - {k}, j);
      assert t - {j} - {k} == t - {k} - {j};
    }
  }

  lemma FootprintPut(t: Table, k: Bytes, c: Cell)
    ensures Footprint(t[k := c]) + (if k in t then Length(t[k]) else 0)
         == Footprint(t) + Length(c) + (if k in t then 0 else |k|)
  {
    FootprintWithout(t[k := c], k);
    if k in t {
      FootprintWithout(t, k);
      assert t[k := c] - {k} == t - {k};
    } else {
      assert t[k := c] - {k} == t;
    }
  }

  class SkipList {
    const head: Node
    var level: nat
    var length: nat
    var byteSize: int
    ghost var nodes: set<Node>
    ghost var contents: Table

    /** x stands before every node whose key is at least k. */
    ghost predicate Before(x: Node, k: Bytes) {
      x == head || Less(x.key, k)
    }

    ghost predicate OnLevel(x: Node, i: nat)
      reads x`forward
    {
      i < |x.forward|
    }

    /** The pointers of level i, from the head and those of the given nodes that reach it. */
    ghost function Level(i: nat, s: set<Node>): map<Node, Node?>
      reads head`forward, s`forward
    {
      map x | x in s + {head} && OnLevel(x, i) :: x.forward[i]
    }

    /** Every pointer leads to the next node on its level, or is nil if there is none. */
    ghost predicate Chained(l: map<Node, Node?>) {
      forall x | x in l :: ChainedAt(l, x)
    }

    ghost predicate ChainedAt(l: map<Node, Node?>, x: Node)
      requires x in l
    {
      var m := l[x];
      && (m != null ==> m in l && m != head && Before(x, m.key))
      && (forall y | y in l && y != head && Before(x, y.key) :: m != null && (m == y || Less(m.key, y.key)))
    }

    ghost predicate Linked(i: nat, s: set<Node>)
      reads head`forward, s`forward
    {
      Chained(Level(i, s))
    }

    /** A node of height h is on levels 0 to h - 1, none above the list's level. */
    ghost predicate Heights(lvl: nat, s: set<Node>)
      reads head`forward, s`forward
    {
      && 1 <= lvl <= MAX_LEVEL
      && |head.forward| == MAX_LEVEL
      && head !in s
      && forall x | x in s :: 1 <= |x.forward| <= lvl
    }

    ghost predicate Links(s: set<Node>)
      reads head`forward, s`forward
    {
      forall i | 0 <= i < MAX_LEVEL :: Linked(i, s)
    }

    static ghost predicate DistinctKeys(s: set<Node>) {
      forall x, y | x in s && y in s && x.key == y.key :: x == y
    }

    static ghost function KeySet(s: set<Node>): (keys: set<Bytes>)
      ensures forall x | x in s :: x.key in keys
    {
      set x | x in s :: x.key
    }

    /** The nodes hold exactly the table. */
    static ghost predicate Holds(s: set<Node>, t: Table)
      reads s`value, s`deleted
    {
      && t.Keys == KeySet(s)
      && forall x | x in s :: t[x.key] == x.Cell() && (x.deleted ==> x.value == [])
    }

    ghost predicate Shape(lvl: nat, s: set<Node>, t: Table)
      reads head`forward, s`forward, s`value, s`deleted
    {
      Heights(lvl, s) && Links(s) && DistinctKeys(s) && Holds(s, t)
    }

    ghost predicate Valid()
      reads this, head, nodes
    {
      && Shape(level, nodes, contents)
      && length == |nodes|
      && byteSize == Footprint(contents)
    }

    constructor ()
      ensures Valid() && fresh(head) && nodes == {} && contents == map[]
    {
      head := new Node([], [], false, MAX_LEVEL);
      level, length, byteSize := 1, 0, 0;
      nodes, contents := {}, map[];
    }

    /** Any height the generator can produce. */
    method RandomLevel() returns (lvl: nat)
      ensures 1 <= lvl <= MAX_LEVEL
    {
      lvl := 1;
      while lvl < MAX_LEVEL
        invariant 1 <= lvl <= MAX_LEVEL
      {
        if * {
          break;
        }
        lvl := lvl + 1;
      }
    }

    /** u is the last node of level i whose key is below k. */
    ghost predicate Precedes(u: Node?, i: nat, k: Bytes)
      reads this`nodes, head`forward, nodes`forward
    {
      && u != null && (u in nodes || u == head) && OnLevel(u, i) && Before(u, k)
      && (u.forward[i] != null ==> !Less(u.forward[i].key, k))
    }

    ghost function After(x: Node): set<Node>
      reads this
    {
      set y | y in nodes && Before(x, y.key)
    }

    lemma StepForward(x: Node, i: nat)
      requires Valid() && (x in nodes || x == head) && OnLevel(x, i) && i < MAX_LEVEL && x.forward[i] != null
      ensures x.forward[i] in nodes && OnLevel(x.forward[i], i) && After(x.forward[i]) < After(x)
    {
      hide Less;
      var m, l := x.forward[i], Level(i, nodes);
      assert Linked(i, nodes) && ChainedAt(l, x) && l[x] == m;
      LessIrreflexive(m.key);
      forall y | y in After(m)
        ensures y in After(x)
      {
        if x != head {
          LessTransitive(x.key, m.key, y.key);
        }
      }
      assert m in After(x) && m !in After(m);
    }

    /** The walk along one level. */
    method WalkLevel(from: Node, i: nat, key: Bytes) returns (curr: Node)
      requires Valid() && i < MAX_LEVEL
      requires (from in nodes || from == head) && OnLevel(from, i) && Before(from, key)
      ensures Precedes(curr, i, key)
      ensures (curr in nodes || curr == head) && Before(curr, key) && forall j | 0 <= j <= i :: OnLevel(curr, j)
    {
      hide Less;
      curr := from;
      while curr.forward[i] != null && Less(curr.forward[i].key, key)
        invariant (curr in nodes || curr == head) && Before(curr, key) && OnLevel(curr, i)
        decreases After(curr)
      {
        StepForward(curr, i);
        curr := curr.forward[i];
      }
    }

    /** The descent shared by set, delete and get. */
    method Search(key: Bytes) returns (update: seq<Node?>, curr: Node)
      requires Valid()
      ensures |update| == MAX_LEVEL
      ensures forall i | 0 <= i < level :: Precedes(update[i], i, key)
      ensures curr == update[0]
    {
      assert 1 <= level <= MAX_LEVEL && OnLevel(head, level - 1) && Before(head, key);
      hide *;
      update := seq(MAX_LEVEL, _ => null);
      curr := head;
      for i := level downto 0
        invariant |update| == MAX_LEVEL
        invariant (curr in nodes || curr == head) && Before(curr, key)
        invariant i > 0 ==> OnLevel(curr, i - 1)
        invariant i < level ==> curr == update[i]
        invariant forall j | i <= j < level :: Precedes(update[j], j, key)
      {
        curr := WalkLevel(curr, i, key);
        update := update[i := curr];
      }
    }

    // -------------------------------------------------------------------------------------------
    // Splicing
    // -------------------------------------------------------------------------------------------

    ghost predicate Absent(k: Bytes)
      reads this`nodes
    {
      forall x | x in nodes :: x.key != k
    }

    /** u is the last node of the level before k. */
    ghost predicate LastBefore(l: map<Node, Node?>, u: Node, k: Bytes) {
      u in l && Before(u, k) && (l[u] != null ==> !Less(l[u].key, k))
    }

    ghost predicate KeyAbsent(l: map<Node, Node?>, k: Bytes) {
      forall x | x in l && x != head :: x.key != k
    }

    /** Nothing on the level stands between u and k. */
    lemma NothingBetween(l: map<Node, Node?>, u: Node, k: Bytes, y: Node)
      requires Chained(l) && KeyAbsent(l, k) && LastBefore(l, u, k)
      requires y in l && y != head
      ensures Before(u, y.key) <==> Less(k, y.key)
    {
      hide Less;
      if Before(u, y.key) {
        assert ChainedAt(l, u);
        var m := l[u];
        LessTotal(m.key, k);
        if m != y {
          LessTransitive(k, m.key, y.key);
        }
      } else if Less(k, y.key) && u != head {
        LessTransitive(u.key, k, y.key);
      }
    }

    /** Any other node before k links to a node before k. */
    lemma OthersStayBefore(l: map<Node, Node?>, u: Node, k: Bytes, x: Node)
      requires Chained(l) && DistinctKeys(l.Keys - {head}) && KeyAbsent(l, k) && LastBefore(l, u, k)
      requires x in l && Before(x, k) && x != u
      ensures l[x] != null && Less(l[x].key, k)
    {
      hide Less;
      assert ChainedAt(l, x);
      if x != head {
        NothingBetween(l, u, k, x);
        LessAsymmetric(x.key, k);
        LessTotal(x.key, u.key);
      }
      var m := l[x];
      if m != u {
        LessTransitive(m.key, u.key, k);
      }
    }

    /** Splicing a new node in after the last node before it keeps the level chained. */
    lemma SpliceChained(l: map<Node, Node?>, u: Node, n: Node)
      requires Chained(l) && DistinctKeys(l.Keys - {head}) && KeyAbsent(l, n.key) && LastBefore(l, u, n.key)
      requires n !in l && n != head
      ensures Chained(l[u := n][n := l[u]])
    {
      hide Less;
      var after := l[u := n][n := l[u]];
      LessIrreflexive(n.key);
      assert ChainedAt(l, u);
      forall y | y in l && y != head
        ensures Before(u, y.key) <==> Less(n.key, y.key)
      {
        NothingBetween(l, u, n.key, y);
      }
      forall x | x in after
        ensures ChainedAt(after, x)
      {
        if x != n && x != u {
          assert ChainedAt(l, x);
          if Before(x, n.key) {
            OthersStayBefore(l, u, n.key, x);
          }
        }
      }
    }

    /** One round of the splicing loop: level i takes the new node in, the other levels keep their pointers. */
    method SpliceAt(n: Node, u: Node, i: nat, ghost s: set<Node>)
      requires s == nodes + {n} && n !in nodes && n != head && head !in nodes && OnLevel(n, i)
      requires (u in nodes || u == head) && OnLevel(u, i)
      modifies n`forward, u`forward
      ensures Level(i, s) == old(Level(i, nodes)[u := n][n := u.forward[i]])
      ensures forall j | j != i :: Level(j, nodes) == old(Level(j, nodes))
      ensures forall j | j != i :: Level(j, s) == old(Level(j, s))
      ensures |n.forward| == |old(n.forward)| && |u.forward| == |old(u.forward)|
    {
      n.forward := n.forward[i := u.forward[i]];
      u.forward := u.forward[i := n];
      forall j | j != i
        ensures Level(j, nodes) == old(Level(j, nodes))
      {
      }
      forall j | j != i
        ensures Level(j, s) == old(Level(j, s))
      {
      }
    }

    /** Head pointers at or above the list's level are nil. */
    lemma HeadTop(i: nat)
      requires Heights(level, nodes) && level <= i < MAX_LEVEL && Linked(i, nodes)
      ensures head.forward[i] == null
    {
      assert ChainedAt(Level(i, nodes), head);
    }

    /** The state of the splicing loop: levels below i include n, the others do not yet. */
    ghost predicate Spliced(n: Node, i: nat)
      reads this`nodes, head`forward, nodes`forward, n`forward
    {
      && (forall j | 0 <= j < i :: Linked(j, nodes + {n}))
      && (forall j | i <= j < MAX_LEVEL :: Linked(j, nodes))
    }

    ghost predicate AllPrecede(update: seq<Node?>, from: nat, to: nat, k: Bytes)
      reads this`nodes, head`forward, nodes`forward
    {
      to <= |update| && forall j | from <= j < to :: Precedes(update[j], j, k)
    }

    method SpliceRound(n: Node, update: seq<Node?>, i: nat)
      requires DistinctKeys(nodes) && Absent(n.key) && n !in nodes && n != head && head !in nodes
      requires i < |n.forward| <= MAX_LEVEL
      requires Spliced(n, i) && AllPrecede(update, i, |n.forward|, n.key)
      modifies n`forward, head`forward, nodes`forward
      ensures Spliced(n, i + 1) && AllPrecede(update, i + 1, |n.forward|, n.key)
      ensures forall x | x in nodes + {head, n} :: |x.forward| == |old(x.forward)|
    {
      hide Less, Before, Chained;
      ghost var l := Level(i, nodes);
      var u := update[i];
      assert Linked(i, nodes) && Precedes(u, i, n.key) && l[u] == u.forward[i];
      SpliceChained(l, u, n);
      SpliceAt(n, u, i, nodes + {n});
      assert Linked(i, nodes + {n});
      forall j | 0 <= j < i
        ensures Linked(j, nodes + {n})
      {
        assert old(Linked(j, nodes + {n})) && Level(j, nodes + {n}) == old(Level(j, nodes + {n}));
      }
      forall j | i < j < MAX_LEVEL
        ensures Linked(j, nodes)
      {
        assert old(Linked(j, nodes)) && Level(j, nodes) == old(Level(j, nodes));
      }
      forall j | i < j < |n.forward|
        ensures Precedes(update[j], j, n.key)
      {
        assert old(Precedes(update[j], j, n.key));
        assert Level(j, nodes)[update[j]] == old(Level(j, nodes))[update[j]];
      }
    }

    method SpliceAll(n: Node, update: seq<Node?>)
      requires DistinctKeys(nodes) && Absent(n.key) && n !in nodes && n != head && head !in nodes
      requires |n.forward| <= MAX_LEVEL
      requires Spliced(n, 0) && AllPrecede(update, 0, |n.forward|, n.key)
      modifies n`forward, head`forward, nodes`forward
      ensures Spliced(n, |n.forward|)
      ensures forall x | x in nodes + {head, n} :: |x.forward| == |old(x.forward)|
    {
      hide Spliced, AllPrecede;
      for i := 0 to |n.forward|
        invariant Spliced(n, i) && AllPrecede(update, i, |n.forward|, n.key)
        invariant forall x | x in nodes + {head, n} :: |x.forward| == |old(x.forward)|
      {
        SpliceRound(n, update, i);
      }
    }

    // -------------------------------------------------------------------------------------------
    // Set, delete, get
    // -------------------------------------------------------------------------------------------

    /** The node after the predecessor of k on level 0 is the only one that can hold k. */
    lemma FoundOrAbsent(u: Node, k: Bytes)
      requires Valid() && Precedes(u, 0, k)
      ensures var e := u.forward[0];
              if e != null && e.key == k then e in nodes && k in contents && contents[k] == e.Cell()
              else Absent(k) && k !in contents
    {
      hide Less;
      var l, e := Level(0, nodes), u.forward[0];
      assert Linked(0, nodes) && ChainedAt(l, u) && l[u] == e;
      forall x | x in nodes && x.key == k
        ensures e == x
      {
        assert x in l;
      }
    }

    lemma HeadPrecedes(i: nat, k: Bytes)
      requires Heights(level, nodes) && level <= i < MAX_LEVEL && Linked(i, nodes)
      ensures Precedes(head, i, k)
    {
      HeadTop(i);
    }

    /** Levels the new node opens start at the head. */
    method RaiseLevel(lvl: nat, key: Bytes, below: seq<Node?>) returns (update: seq<Node?>)
      requires Heights(level, nodes) && Links(nodes) && lvl <= MAX_LEVEL
      requires |below| == MAX_LEVEL && AllPrecede(below, 0, level, key)
      modifies this`level
      ensures Heights(level, nodes) && lvl <= level
      ensures |update| == MAX_LEVEL && AllPrecede(update, 0, lvl, key)
    {
      update := below;
      if lvl > level {
        for i := level to lvl
          invariant level == old(level) && Heights(level, nodes) && Links(nodes)
          invariant |update| == MAX_LEVEL && AllPrecede(update, 0, i, key)
        {
          HeadPrecedes(i, key);
          update := update[i := head];
        }
        level := lvl;
      }
    }

    /** The insertion shared by set and delete: a new node of random height. */
    method Insert(key: Bytes, value: Bytes, deleted: bool, found: seq<Node?>)
      requires Valid() && Absent(key) && key !in contents && (deleted ==> value == [])
      requires |found| == MAX_LEVEL && AllPrecede(found, 0, level, key)
      modifies this, head`forward, nodes`forward
      ensures Valid() && fresh(nodes - old(nodes))
      ensures contents == old(contents)[key := if deleted then Tombstone else Live(value)]
    {
      hide Spliced, AllPrecede, Precedes, DistinctKeys, Absent, Footprint, Linked, Links;
      var lvl := RandomLevel();
      var update := RaiseLevel(lvl, key, found);
      var n := LinkNew(key, value, deleted, lvl, update);
      Register(n);
    }

    method LinkNew(key: Bytes, value: Bytes, deleted: bool, lvl: nat, update: seq<Node?>) returns (n: Node)
      requires Heights(level, nodes) && Links(nodes) && DistinctKeys(nodes) && Absent(key) && 1 <= lvl <= level
      requires AllPrecede(update, 0, lvl, key)
      modifies head`forward, nodes`forward
      ensures fresh(n) && n.key == key && n.value == value && n.deleted == deleted && |n.forward| == lvl
      ensures Heights(level, nodes) && Spliced(n, lvl)
    {
      hide AllPrecede, Precedes, DistinctKeys, Linked;
      n := new Node(key, value, deleted, lvl);
      assert Spliced(n, 0);
      hide Spliced;
      SpliceAll(n, update);
    }

    /** Counts the linked node in. */
    method Register(n: Node)
      requires Heights(level, nodes) && DistinctKeys(nodes) && Holds(nodes, contents)
      requires length == |nodes| && byteSize == Footprint(contents)
      requires Absent(n.key) && n.key !in contents
      requires n !in nodes && n != head && 1 <= |n.forward| <= level <= MAX_LEVEL && Spliced(n, |n.forward|)
      requires n.deleted ==> n.value == []
      modifies this`length, this`byteSize, this`nodes, this`contents
      ensures Valid() && nodes == old(nodes) + {n}
      ensures contents == old(contents)[n.key := n.Cell()]
    {
      hide Footprint, Heights, DistinctKeys, Holds, Spliced, Absent;
      ShapeWith(n);
      FootprintPut(contents, n.key, n.Cell());
      hide Shape;
      length := length + 1;
      byteSize := byteSize + |n.key| + |n.value|;
      nodes := nodes + {n};
      contents := contents[n.key := n.Cell()];
    }

    lemma ShapeWith(n: Node)
      requires Heights(level, nodes) && DistinctKeys(nodes) && Holds(nodes, contents) && Absent(n.key)
      requires n != head && 1 <= |n.forward| <= level && (n.deleted ==> n.value == [])
      requires Spliced(n, |n.forward|)
      ensures Shape(level, nodes + {n}, contents[n.key := n.Cell()])
    {
      hide Links;
      AllLinked(n);
      hide Spliced;
      assert KeySet(nodes + {n}) == KeySet(nodes) + {n.key};
    }

    /** The levels the new node does not reach need no splicing. */
    lemma AllLinked(n: Node)
      requires |n.forward| <= MAX_LEVEL && Spliced(n, |n.forward|)
      ensures Links(nodes + {n})
    {
      hide Chained;
      forall j | |n.forward| <= j < MAX_LEVEL
        ensures Linked(j, nodes + {n})
      {
        assert Linked(j, nodes) && Level(j, nodes + {n}) == Level(j, nodes);
      }
    }

    /** Rewrites an existing node in place. */
    method Overwrite(e: Node, value: Bytes, deleted: bool)
      requires Valid() && e in nodes && (deleted ==> value == [])
      modifies this`byteSize, this`contents, e`value, e`deleted
      ensures Valid()
      ensures contents == old(contents)[e.key := if deleted then Tombstone else Live(value)]
    {
      hide Footprint;
      ghost var c := if deleted then Tombstone else Live(value);
      FootprintPut(contents, e.key, c);
      byteSize := byteSize - |e.value|;
      byteSize := byteSize + |value|;
      hide Shape;
      PutCell(e, value, deleted);
      contents := contents[e.key := c];
    }

    method PutCell(e: Node, value: Bytes, deleted: bool)
      requires Shape(level, nodes, contents) && e in nodes && (deleted ==> value == [])
      modifies e`value, e`deleted
      ensures Shape(level, nodes, contents[e.key := if deleted then Tombstone else Live(value)])
    {
      hide Heights, Links;
      ghost var t := contents[e.key := if deleted then Tombstone else Live(value)];
      e.value := value;
      e.deleted := deleted;
      assert t.Keys == contents.Keys;
      forall x | x in nodes && x != e
        ensures t[x.key] == x.Cell() && (x.deleted ==> x.value == [])
      {
        assert contents[x.key] == old(x.Cell());
      }
    }

    method Set(key: Bytes, value: Bytes)
      requires Valid()
      modifies this, head`forward, nodes
      ensures Valid() && fresh(nodes - old(nodes))
      ensures contents == old(contents)[key := Live(value)]
    {
      var update, curr := Search(key);
      FoundOrAbsent(curr, key);
      hide Less, Shape, Footprint;
      var existing := curr.forward[0];
      if existing != null && existing.key == key {
        Overwrite(existing, value, false);
        return;
      }
      Insert(key, value, false, update);
    }

    method Delete(key: Bytes)
      requires Valid()
      modifies this, head`forward, nodes
      ensures Valid() && fresh(nodes - old(nodes))
      ensures contents == old(contents)[key := Tombstone]
    {
      var update, curr := Search(key);
      FoundOrAbsent(curr, key);
      hide Less, Shape, Footprint;
      var existing := curr.forward[0];
      if existing != null && existing.key == key {
        Overwrite(existing, [], true);
        return;
      }
      Insert(key, [], true, update);
    }

    method Get(key: Bytes) returns (value: Bytes, deleted: bool, found: bool)
      requires Valid()
      ensures found == (key in contents)
      ensures found ==> contents[key] == if deleted then Tombstone else Live(value)
      ensures !found ==> value == [] && !deleted
    {
      var _, curr := Search(key);
      FoundOrAbsent(curr, key);
      hide Less, Shape, Footprint;
      var e := curr.forward[0];
      if e == null || e.key != key {
        return [], false, false;
      }
      return e.value, e.deleted, true;
    }

    // -------------------------------------------------------------------------------------------
    // The levels as lists
    // -------------------------------------------------------------------------------------------

    /** The nodes met by following level i from x. */
    ghost function LevelFrom(x: Node, i: nat): seq<Node>
      requires Valid() && (x in nodes || x == head) && i < MAX_LEVEL && OnLevel(x, i)
      reads this, head, nodes
      decreases After(x)
    {
      var m := x.forward[i];
      if m == null then [] else
        StepForward(x, i);
        [m] + LevelFrom(m, i)
    }

    static ghost predicate Ascending(ns: seq<Node>) {
      forall a, b | 0 <= a < b < |ns| :: Less(ns[a].key, ns[b].key)
    }

    /** ns holds exactly the nodes of level i after x. */
    ghost predicate Lists(ns: seq<Node>, x: Node, i: nat)
      reads this`nodes, nodes`forward
    {
      && (forall b | 0 <= b < |ns| :: ns[b] in nodes && OnLevel(ns[b], i) && Before(x, ns[b].key))
      && (forall y | y in nodes && OnLevel(y, i) && Before(x, y.key) :: y in ns)
    }

    /** Following a level meets, in key order, exactly the nodes of that height further on. */
    lemma {:induction false} LevelExact(x: Node, i: nat)
      requires Valid() && (x in nodes || x == head) && i < MAX_LEVEL && OnLevel(x, i)
      ensures Ascending(LevelFrom(x, i))
      ensures Lists(LevelFrom(x, i), x, i)
      decreases After(x)
    {
      hide Less, Footprint;
      var m, l := x.forward[i], Level(i, nodes);
      assert Linked(i, nodes) && ChainedAt(l, x) && l[x] == m;
      if m == null {
        forall y | y in nodes && OnLevel(y, i)
          ensures !Before(x, y.key)
        {
          assert y in l;
        }
      } else {
        StepForward(x, i);
        LevelExact(m, i);
        LevelExactStep(x, i, LevelFrom(m, i));
      }
    }

    lemma LevelExactStep(x: Node, i: nat, rest: seq<Node>)
      requires Valid() && (x in nodes || x == head) && i < MAX_LEVEL && OnLevel(x, i) && x.forward[i] != null
      requires Ascending(rest) && Lists(rest, x.forward[i], i)
      ensures Ascending([x.forward[i]] + rest) && Lists([x.forward[i]] + rest, x, i)
    {
      hide Less, Footprint, Holds, DistinctKeys;
      var m, l := x.forward[i], Level(i, nodes);
      assert Linked(i, nodes) && ChainedAt(l, x) && l[x] == m;
      assert m in l && m != head;
      hide Links, Chained;
      forall y | y in nodes && OnLevel(y, i)
        ensures Before(x, y.key) <==> m == y || Less(m.key, y.key)
      {
        assert y in l;
        if x != head && Less(m.key, y.key) {
          LessTransitive(x.key, m.key, y.key);
        }
      }
    }
  }
}
