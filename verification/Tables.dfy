/** The abstract table that memtables, SSTables and the whole store implement. */
module Tables {

  import opened ByteStrings

  datatype Option<+T> = None | Some(value: T)

  /** What a table holds for a key: a value, or the record that the key was deleted. */
  datatype Cell = Live(bytes: Bytes) | Tombstone

  datatype Entry = Entry(key: Bytes, cell: Cell)

  type Table = map<Bytes, Cell>

  ghost predicate Sorted(es: seq<Entry>) {
    forall i, j :: 0 <= i < j < |es| ==> Less(es[i].key, es[j].key)
  }

  /** The first cell recorded for the key. */
  function Find(es: seq<Entry>, key: Bytes): Option<Cell> {
    if es == [] then None
    else if es[0].key == key then Some(es[0].cell)
    else Find(es[1..], key)
  }

  function KeysOf(es: seq<Entry>): (ks: seq<Bytes>)
    ensures |ks| == |es| && forall i :: 0 <= i < |es| ==> ks[i] == es[i].key
  {
    seq(|es|, i requires 0 <= i < |es| => es[i].key)
  }

  function Flatten(blocks: seq<seq<Entry>>): seq<Entry> {
    if blocks == [] then [] else Flatten(blocks[..|blocks| - 1]) + blocks[|blocks| - 1]
  }

  lemma {:induction false} FindSome(es: seq<Entry>, key: Bytes, i: nat)
    requires i < |es| && es[i].key == key && forall j :: 0 <= j < i ==> es[j].key != key
    ensures Find(es, key) == Some(es[i].cell)
  {
    if i > 0 {
      FindSome(es[1..], key, i - 1);
    }
  }

  lemma {:induction false} FindNone(es: seq<Entry>, key: Bytes)
    requires forall i :: 0 <= i < |es| ==> es[i].key != key
    ensures Find(es, key) == None
  {
    if es != [] {
      FindNone(es[1..], key);
    }
  }

  lemma SortedFind(es: seq<Entry>, i: nat)
    requires Sorted(es) && i < |es|
    ensures Find(es, es[i].key) == Some(es[i].cell)
  {
    forall j | 0 <= j < i
      ensures es[j].key != es[i].key
    {
      LessIrreflexive(es[j].key);
    }
    FindSome(es, es[i].key, i);
  }

  lemma {:induction false} FindWitness(es: seq<Entry>, key: Bytes) returns (i: nat)
    requires Find(es, key).Some?
    ensures i < |es| && es[i] == Entry(key, Find(es, key).value)
  {
    if es[0].key == key {
      i := 0;
    } else {
      i := FindWitness(es[1..], key);
      i := i + 1;
    }
  }

  lemma {:induction false} FindConcat(a: seq<Entry>, b: seq<Entry>, key: Bytes)
    ensures Find(a + b, key) == if Find(a, key).Some? then Find(a, key) else Find(b, key)
  {
    if a == [] {
      assert a + b == b;
    } else {
      assert (a + b)[1..] == a[1..] + b;
      FindConcat(a[1..], b, key);
    }
  }

  /** A sorted list is determined by what its lookups return. */
  lemma {:induction false} SortedDetermined(a: seq<Entry>, b: seq<Entry>)
    requires Sorted(a) && Sorted(b) && forall k :: Find(a, k) == Find(b, k)
    ensures a == b
  {
    if a == [] || b == [] {
      if a != [] {
        SortedFind(a, 0);
      }
      if b != [] {
        SortedFind(b, 0);
      }
    } else {
      SameHead(a, b);
      forall k
        ensures Find(a[1..], k) == Find(b[1..], k)
      {
        assert Find(a, k) == Find(b, k);
        if k == a[0].key {
          TailAbsent(a);
          TailAbsent(b);
        }
      }
      SortedDetermined(a[1..], b[1..]);
      assert a == [a[0]] + a[1..] && b == [b[0]] + b[1..];
    }
  }

  lemma TailAbsent(a: seq<Entry>)
    requires Sorted(a) && a != []
    ensures Find(a[1..], a[0].key) == None
  {
    forall i | 0 <= i < |a[1..]|
      ensures a[1..][i].key != a[0].key
    {
      assert a[1..][i] == a[i + 1];
      LessIrreflexive(a[0].key);
    }
    FindNone(a[1..], a[0].key);
  }

  lemma SameHead(a: seq<Entry>, b: seq<Entry>)
    requires Sorted(a) && Sorted(b) && a != [] && b != [] && forall k :: Find(a, k) == Find(b, k)
    ensures a[0] == b[0]
  {
    SortedFind(a, 0);
    SortedFind(b, 0);
    assert Find(b, a[0].key) == Some(a[0].cell);
    assert Find(a, b[0].key) == Some(b[0].cell);
    var i := FindWitness(b, a[0].key);
    var j := FindWitness(a, b[0].key);
    if i > 0 && j > 0 {
      LessAsymmetric(b[0].key, b[i].key);
    }
  }
}
