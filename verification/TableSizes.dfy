/** How large a printed file can be: bounds from its entries, and from the inputs of a merge. */
module TableSizes {

  import opened ByteStrings
  import opened Tables
  import opened Merge
  import opened SSTableWriter
  import Bloom = BloomFilter

  /** Twice an entry's key and value bytes, and 31 bytes of headers, index, checksum and filter bits. */
  function EntryWeight(e: Entry): nat {
    2 * (|e.key| + |ValueOf(e.cell)|) + 31
  }

  function Weight(es: seq<Entry>): nat {
    if es == [] then 0 else Weight(es[..|es| - 1]) + EntryWeight(es[|es| - 1])
  }

  lemma {:induction false} WeightConcat(a: seq<Entry>, b: seq<Entry>)
    ensures Weight(a + b) == Weight(a) + Weight(b)
  {
    if b == [] {
      assert a + b == a;
    } else {
      var n := |b| - 1;
      assert (a + b)[..|a + b| - 1] == a + b[..n];
      WeightConcat(a, b[..n]);
    }
  }

  lemma {:induction false} KeptWeight(es: seq<Entry>)
    ensures Weight(KeptEntries(es)) <= Weight(es)
  {
    if es != [] {
      var n := |es| - 1;
      assert KeptEntries(es)[..n] == KeptEntries(es[..n]);
      KeptWeight(es[..n]);
    }
  }

  // ---------------------------------------------------------------------------------------------
  // The file
  // ---------------------------------------------------------------------------------------------

  /** An entry's bytes, its key once more as a first key, and a block's and an index entry's fixed parts. */
  lemma {:induction false} EntriesBound(es: seq<Entry>)
    ensures |EncodeEntries(es)| + 22 * |es| <= Weight(es)
    ensures es != [] ==> |EncodeEntries(es)| + |es[0].key| + 22 * |es| <= Weight(es)
  {
    hide EncodeEntry;
    if es != [] {
      var n := |es| - 1;
      EntriesBound(es[..n]);
      assert |EncodeEntry(es[n])| == 9 + |es[n].key| + |ValueOf(es[n].cell)|;
      if n == 0 {
        assert es[..0] == [];
      }
    }
  }

  lemma {:induction false} SectionsBound(crc: Bytes -> U32, blocks: seq<seq<Entry>>)
    requires NonEmpty(blocks)
    ensures |DataBytes(crc, blocks)| + |EncodeIndex(IndexOf(crc, blocks))| + 2 * |Flatten(blocks)|
         <= Weight(Flatten(blocks))
  {
    hide EncodeEntries, Weight, Block, EncodeIndexEntry;
    if blocks != [] {
      var n := |blocks| - 1;
      var before, last := blocks[..n], blocks[n];
      SectionsBound(crc, before);
      BlocksSnoc(crc, before, last);
      assert before + [last] == blocks;
      EncodeIndexSnoc(IndexOf(crc, before), IndexOf(crc, blocks)[n]);
      EntriesBound(last);
      WeightConcat(Flatten(before), last);
      hide DataBytes, IndexOf, EncodeIndex, Flatten;
    }
  }

  /** Every printed file is at most 53 bytes larger than its entries weigh. */
  lemma PrintedBound(crc: Bytes -> U32, file: Bytes, blocks: seq<seq<Entry>>, es: seq<Entry>)
    requires Prints(crc, file, blocks, es)
    ensures |file| <= Weight(es) + 53
  {
    hide DataBytes, EncodeIndex, IndexOf, Flatten, EncodeFooter, Bloom.BitCount, Weight;
    SectionsBound(crc, blocks);
    FilterBound(KeysOf(es));
  }

  lemma FilterBound(keys: seq<Bytes>)
    ensures |Bloom.Encode(Bloom.FilterOf(keys, Bloom.BitCount(|keys|, BITS_PER_KEY)))| <= 5 + 2 * |keys|
  {
    hide Bloom.BitCount;
    var n := |keys|;
    var m := Bloom.BitCount(n, BITS_PER_KEY);
    assert n as real * BITS_PER_KEY <= n as real * 16.0;
    assert (16 * n + 8) as real == n as real * 16.0 + 8.0;
    assert m < 16 * n + 8;
  }

  // ---------------------------------------------------------------------------------------------
  // Merges
  // ---------------------------------------------------------------------------------------------

  /** What the tables of these files weigh together. */
  ghost function WeightOf(dir: Dir, ids: set<nat>): nat
    requires ids <= dir.Keys
  {
    if ids == {} then 0 else
      var id :| id in ids;
      Weight(dir[id]) + WeightOf(dir, ids - {id})
  }

  lemma {:induction false} WeightWithout(dir: Dir, ids: set<nat>, id: nat)
    requires ids <= dir.Keys && id in ids
    ensures WeightOf(dir, ids) == Weight(dir[id]) + WeightOf(dir, ids - {id})
    decreases ids
  {
    hide Weight;
    var x :| x in ids && WeightOf(dir, ids) == Weight(dir[x]) + WeightOf(dir, ids - {x});
    if x != id {
      WeightWithout(dir, ids - {x}, id);
      WeightWithout(dir, ids - {id}, x);
      assert ids - {x} - {id} == ids - {id} - {x};
    }
  }

  /** Fewer files weigh no more. */
  lemma {:induction false} WeightMonotone(dir: Dir, some: set<nat>, ids: set<nat>)
    requires some <= ids <= dir.Keys
    ensures WeightOf(dir, some) <= WeightOf(dir, ids)
    decreases ids
  {
    hide Weight;
    if some != {} {
      var id :| id in some;
      WeightWithout(dir, some, id);
      WeightWithout(dir, ids, id);
      WeightMonotone(dir, some - {id}, ids - {id});
    }
  }

  ghost predicate Distinct(es: seq<Entry>) {
    forall i, j :: 0 <= i < j < |es| ==> es[i] != es[j]
  }

  /** The entries of a list that are in b, or those that are not, in order. */
  function Split(es: seq<Entry>, b: seq<Entry>, inside: bool): seq<Entry> {
    if es == [] then []
    else
      var n := |es| - 1;
      Split(es[..n], b, inside) + if (es[n] in b) == inside then [es[n]] else []
  }

  lemma {:induction false} SplitExact(es: seq<Entry>, b: seq<Entry>, inside: bool)
    ensures forall e :: e in Split(es, b, inside) <==> e in es && (e in b) == inside
    ensures Distinct(es) ==> Distinct(Split(es, b, inside))
  {
    if es != [] {
      var n := |es| - 1;
      SplitExact(es[..n], b, inside);
      assert es == es[..n] + [es[n]];
      if Distinct(es) {
        assert forall i :: 0 <= i < n ==> es[..n][i] == es[i] != es[n];
        assert es[n] !in es[..n];
      }
    }
  }

  lemma {:induction false} SplitWeight(es: seq<Entry>, b: seq<Entry>)
    ensures Weight(es) == Weight(Split(es, b, true)) + Weight(Split(es, b, false))
  {
    if es != [] {
      var n := |es| - 1;
      SplitWeight(es[..n], b);
      SplitLast(es, b, es[n] in b);
      hide Split, Weight;
      var last: seq<Entry> := [es[n]];
      assert es == es[..n] + last;
      WeightConcat(es[..n], last);
      WeightConcat(Split(es[..n], b, es[n] in b), last);
    }
  }

  lemma SplitLast(es: seq<Entry>, b: seq<Entry>, inside: bool)
    requires es != [] && inside == (es[|es| - 1] in b)
    ensures var before := es[..|es| - 1];
            && Split(es, b, inside) == Split(before, b, inside) + [es[|es| - 1]]
            && Split(es, b, !inside) == Split(before, b, !inside)
  {
  }

  lemma OneWeight(e: Entry)
    ensures Weight([e]) == EntryWeight(e)
  {
    assert [e][..0] == [];
  }

  /** Distinct entries that all occur in a list weigh no more than it. */
  lemma {:induction false} PartWeight(part: seq<Entry>, es: seq<Entry>)
    requires Distinct(part) && forall e | e in part :: e in es
    ensures Weight(part) <= Weight(es)
    decreases |es|
  {
    hide Weight, Split, Distinct;
    assert part != [] ==> part[0] in part;
    if es != [] {
      var n := |es| - 1;
      var last: seq<Entry> := [es[n]];
      SplitExact(part, last, true);
      SplitExact(part, last, false);
      SplitWeight(part, last);
      assert es == es[..n] + last;
      forall e | e in Split(part, last, false)
        ensures e in es[..n]
      {
        assert e in es && e !in last;
      }
      PartWeight(Split(part, last, false), es[..n]);
      AtMostOne(Split(part, last, true), es[n]);
      OneWeight(es[n]);
      WeightConcat(es[..n], last);
    }
  }

  lemma AtMostOne(es: seq<Entry>, e: Entry)
    requires Distinct(es) && forall x | x in es :: x == e
    ensures Weight(es) <= EntryWeight(e)
  {
    assert |es| > 1 ==> es[0] != es[1];
    forall i | 0 <= i < |es|
      ensures es[i] == e
    {
      assert es[i] in es;
    }
    if |es| == 1 {
      assert es == [es[0]];
      OneWeight(e);
    }
  }

  /** Distinct entries that each occur in some file's table weigh no more than the tables together. */
  lemma {:induction false} SpreadWeight(part: seq<Entry>, dir: Dir, ids: set<nat>)
    requires ids <= dir.Keys && Distinct(part)
    requires forall e | e in part :: exists id :: id in ids && e in dir[id]
    ensures Weight(part) <= WeightOf(dir, ids)
    decreases ids
  {
    hide Weight, WeightOf, Distinct;
    assert part != [] ==> part[0] in part;
    if ids == {} {
      assert part == [];
      NoWeight(dir);
    } else {
      var id :| id in ids;
      SplitExact(part, dir[id], true);
      SplitExact(part, dir[id], false);
      SplitWeight(part, dir[id]);
      PartWeight(Split(part, dir[id], true), dir[id]);
      var rest := Split(part, dir[id], false);
      forall e | e in rest
        ensures exists j :: j in ids - {id} && e in dir[j]
      {
        var j :| j in ids && e in dir[j];
        assert j != id;
      }
      SpreadWeight(rest, dir, ids - {id});
      WeightWithout(dir, ids, id);
    }
  }

  lemma NoWeight(dir: Dir)
    ensures Weight([]) == 0 && WeightOf(dir, {}) == 0
  {
  }

  /** A merge's output weighs no more than its inputs together. */
  lemma MergedWeight(sel: set<nat>, dir: Dir, out: seq<Entry>, dropped: set<Bytes>)
    requires Merged(sel, dir, out, dropped) && sel <= dir.Keys
    ensures Weight(out) <= WeightOf(dir, sel)
  {
    hide Weight, WeightOf, Visible;
    assert Distinct(out) by {
      forall i, j | 0 <= i < j < |out|
        ensures out[i] != out[j]
      {
        LessIrreflexive(out[i].key);
      }
    }
    forall e | e in out
      ensures exists id :: id in sel && e in dir[id]
    {
      var id := MergedFrom(sel, dir, out, dropped, e);
    }
    SpreadWeight(out, dir, sel);
  }
}
