/** Size-tiered grouping: the tiers groupBySize cuts, why they are few, and why no cut does better. */
module Tiers {

  datatype File = File(id: nat, size: nat)

  const SIZE_TIER_RATIO: real := 2.0

  function AtLeastOne(size: nat): (r: nat)
    ensures r >= 1
  {
    if size == 0 then 1 else size
  }

  ghost predicate SortedBySize(fs: seq<File>) {
    forall i, j :: 0 <= i < j < |fs| ==> fs[i].size <= fs[j].size
  }

  function Concat(tiers: seq<seq<File>>): seq<File> {
    if tiers == [] then [] else Concat(tiers[..|tiers| - 1]) + tiers[|tiers| - 1]
  }

  /** Every member is below twice the smallest member. */
  ghost predicate Bounded(g: seq<File>) {
    forall i, j :: 0 <= i < |g| && 0 <= j < |g| ==> g[j].size < 2 * AtLeastOne(g[i].size)
  }

  ghost predicate AllBounded(gs: seq<seq<File>>) {
    forall i :: 0 <= i < |gs| ==> gs[i] != [] && Bounded(gs[i])
  }

  /** A tier starts only at a file at least twice as large as the start of the tier before. */
  ghost predicate HeadsApart(tiers: seq<seq<File>>)
    requires forall i :: 0 <= i < |tiers| ==> tiers[i] != []
  {
    forall i :: 0 < i < |tiers| ==> tiers[i][0].size >= 2 * AtLeastOne(tiers[i - 1][0].size)
  }

  /** What groupBySize returns, whichever way sort.Slice orders files of equal size. */
  ghost predicate Grouping(files: seq<File>, tiers: seq<seq<File>>) {
    && AllBounded(tiers) && HeadsApart(tiers)
    && SortedBySize(Concat(tiers))
    && multiset(Concat(tiers)) == multiset(files)
  }

  method InsertBySize(s: seq<File>, f: File) returns (r: seq<File>)
    requires SortedBySize(s)
    ensures SortedBySize(r) && multiset(r) == multiset(s) + multiset{f}
  {
    var i := 0;
    while i < |s| && s[i].size <= f.size
      invariant i <= |s| && forall k :: 0 <= k < i ==> s[k].size <= f.size
    {
      i := i + 1;
    }
    assert s == s[..i] + s[i..];
    r := s[..i] + [f] + s[i..];
  }

  /** sort.Slice by size: some sorted permutation. */
  method SortBySize(files: seq<File>) returns (s: seq<File>)
    ensures SortedBySize(s) && multiset(s) == multiset(files)
  {
    s := [];
    for n := 0 to |files|
      invariant SortedBySize(s) && multiset(s) == multiset(files[..n])
    {
      assert files[..n + 1] == files[..n] + [files[n]];
      s := InsertBySize(s, files[n]);
    }
    assert files[..|files|] == files;
  }

  method GroupBySize(files: seq<File>) returns (tiers: seq<seq<File>>)
    ensures Grouping(files, tiers)
  {
    tiers := [];
    if |files| == 0 {
      return;
    }
    var sorted := SortBySize(files);
    var current: seq<File> := [];
    for n := 0 to |sorted|
      invariant Concat(tiers) + current == sorted[..n]
      invariant n > 0 ==> current != []
      invariant current != [] ==> AllBounded(tiers + [current]) && HeadsApart(tiers + [current])
      invariant current == [] ==> tiers == []
    {
      var f := sorted[n];
      assert sorted[..n + 1] == sorted[..n] + [f];
      if |current| == 0 {
        current := current + [f];
        continue;
      }
      assert current[0] == sorted[..n][|Concat(tiers)|];
      var smallest := current[0].size;
      if smallest == 0 {
        smallest := 1;
      }
      var ratio := f.size as real / smallest as real;
      RatioBelowTwo(f.size, smallest);
      if ratio < SIZE_TIER_RATIO {
        ExtendTier(tiers, current, f, sorted, n);
        current := current + [f];
      } else {
        NextTier(tiers, current, f);
        tiers := tiers + [current];
        current := [f];
      }
    }
    if |current| > 0 {
      ConcatSnoc(tiers, current);
      tiers := tiers + [current];
    }
    assert sorted[..|sorted|] == sorted;
  }

  lemma RatioBelowTwo(size: nat, smallest: nat)
    requires smallest > 0
    ensures size as real / smallest as real < SIZE_TIER_RATIO <==> size < 2 * smallest
  {
    QuotientOrder(size as real, smallest as real, SIZE_TIER_RATIO);
    assert (2 * smallest) as real == SIZE_TIER_RATIO * smallest as real;
  }

  lemma QuotientOrder(x: real, s: real, q: real)
    requires s > 0.0
    ensures x / s < q <==> x < q * s
  {
    ScaleOrder(x / s, q, s);
    assert (x / s) * s == x;
  }

  lemma ScaleOrder(r: real, q: real, s: real)
    requires s > 0.0
    ensures r < q <==> r * s < q * s
  {
    var d := q - r;
    assert d * s == q * s - r * s;
    assert d > 0.0 ==> d * s > 0.0;
    assert d <= 0.0 ==> d * s <= 0.0;
  }

  lemma ConcatSnoc(tiers: seq<seq<File>>, t: seq<File>)
    ensures Concat(tiers + [t]) == Concat(tiers) + t
  {
    assert (tiers + [t])[..|tiers|] == tiers;
  }

  lemma ExtendTier(tiers: seq<seq<File>>, current: seq<File>, f: File, sorted: seq<File>, n: nat)
    requires SortedBySize(sorted) && n < |sorted| && f == sorted[n]
    requires Concat(tiers) + current == sorted[..n] && current != []
    requires AllBounded(tiers + [current]) && HeadsApart(tiers + [current])
    requires f.size < 2 * AtLeastOne(current[0].size)
    ensures AllBounded(tiers + [current + [f]]) && HeadsApart(tiers + [current + [f]])
  {
    var longer, k := current + [f], |Concat(tiers)|;
    assert Bounded((tiers + [current])[|tiers|]);
    forall i | 0 <= i < |current|
      ensures current[0].size <= current[i].size <= f.size
    {
      assert current[i] == sorted[..n][k + i] && current[0] == sorted[..n][k];
    }
    assert Bounded(longer);
    var before: seq<seq<File>> := tiers + [current];
    var after: seq<seq<File>> := tiers + [longer];
    forall i | 0 <= i < |tiers|
      ensures after[i] != [] && Bounded(after[i])
    {
      assert before[i] == tiers[i];
    }
    forall i | 0 < i < |after|
      ensures after[i][0].size >= 2 * AtLeastOne(after[i - 1][0].size)
    {
      assert after[i][0] == before[i][0] && after[i - 1][0] == before[i - 1][0];
    }
  }

  lemma NextTier(tiers: seq<seq<File>>, current: seq<File>, f: File)
    requires current != [] && AllBounded(tiers + [current]) && HeadsApart(tiers + [current])
    requires f.size >= 2 * AtLeastOne(current[0].size)
    ensures AllBounded(tiers + [current] + [[f]]) && HeadsApart(tiers + [current] + [[f]])
    ensures Concat(tiers + [current]) == Concat(tiers) + current
  {
    ConcatSnoc(tiers, current);
    var before: seq<seq<File>> := tiers + [current];
    var more: seq<seq<File>> := before + [[f]];
    forall i | 0 <= i < |more|
      ensures more[i] != [] && Bounded(more[i])
    {
      if i < |tiers| + 1 {
        assert more[i] == before[i];
      }
    }
    forall i | 0 < i < |more|
      ensures more[i][0].size >= 2 * AtLeastOne(more[i - 1][0].size)
    {
      assert more[i - 1] == before[i - 1];
      if i < |tiers| + 1 {
        assert more[i] == before[i];
      }
    }
  }

  // ---------------------------------------------------------------------------------------------
  // Members and heads
  // ---------------------------------------------------------------------------------------------

  lemma {:induction false} ConcatMember(tiers: seq<seq<File>>, i: nat, j: nat) returns (k: nat)
    requires i < |tiers| && j < |tiers[i]|
    ensures k < |Concat(tiers)| && Concat(tiers)[k] == tiers[i][j]
    decreases |tiers|
  {
    var n := |tiers| - 1;
    if i == n {
      k := |Concat(tiers[..n])| + j;
    } else {
      k := ConcatMember(tiers[..n], i, j);
    }
  }

  lemma {:induction false} MemberOfSome(tiers: seq<seq<File>>, f: File) returns (i: nat)
    requires f in Concat(tiers)
    ensures i < |tiers| && f in tiers[i]
    decreases |tiers|
  {
    var n := |tiers| - 1;
    if f in tiers[n] {
      i := n;
    } else {
      i := MemberOfSome(tiers[..n], f);
    }
  }

  /** Any later tier starts at twice the size of an earlier one or more. */
  lemma {:induction false} HeadsFarApart(tiers: seq<seq<File>>, i: nat, j: nat)
    requires AllBounded(tiers) && HeadsApart(tiers) && i < j < |tiers|
    ensures tiers[j][0].size >= 2 * AtLeastOne(tiers[i][0].size)
  {
    if i + 1 < j {
      HeadsFarApart(tiers, i, j - 1);
    }
  }

  // ---------------------------------------------------------------------------------------------
  // No cut into bounded groups uses fewer groups
  // ---------------------------------------------------------------------------------------------

  lemma {:induction false} Pigeonhole(owner: seq<nat>, m: nat)
    requires forall i :: 0 <= i < |owner| ==> owner[i] < m
    requires forall i, j :: 0 <= i < j < |owner| ==> owner[i] != owner[j]
    ensures |owner| <= m
    decreases |owner|
  {
    if owner != [] {
      var n := |owner| - 1;
      var last := owner[n];
      var shifted := seq(n, i requires 0 <= i < n => if owner[i] > last then owner[i] - 1 else owner[i]);
      Pigeonhole(shifted, m - 1);
    }
  }

  lemma GroupOfHead(files: seq<File>, tiers: seq<seq<File>>, groups: seq<seq<File>>, n: nat) returns (g: nat)
    requires Grouping(files, tiers) && multiset(Concat(groups)) == multiset(files) && n < |tiers|
    ensures g < |groups| && tiers[n][0] in groups[g]
  {
    hide HeadsApart, SortedBySize, Bounded;
    var k := ConcatMember(tiers, n, 0);
    assert tiers[n][0] in multiset(Concat(tiers));
    g := MemberOfSome(groups, tiers[n][0]);
  }

  /** Two tiers never start in one bounded group. */
  lemma HeadsSeparate(tiers: seq<seq<File>>, g: seq<File>, i: nat, j: nat)
    requires AllBounded(tiers) && HeadsApart(tiers) && i < j < |tiers| && Bounded(g)
    ensures !(tiers[i][0] in g && tiers[j][0] in g)
  {
    HeadsFarApart(tiers, i, j);
  }

  lemma OptimalTiering(files: seq<File>, tiers: seq<seq<File>>, groups: seq<seq<File>>)
    requires Grouping(files, tiers)
    requires AllBounded(groups) && multiset(Concat(groups)) == multiset(files)
    ensures |tiers| <= |groups|
  {
    hide SortedBySize, Bounded, HeadsApart;
    var owner: seq<nat> := [];
    for n := 0 to |tiers|
      invariant |owner| == n
      invariant forall i :: 0 <= i < n ==> owner[i] < |groups| && tiers[i][0] in groups[owner[i]]
    {
      var g := GroupOfHead(files, tiers, groups, n);
      owner := owner + [g];
    }
    forall i, j | 0 <= i < j < |owner|
      ensures owner[i] != owner[j]
    {
      HeadsSeparate(tiers, groups[owner[i]], i, j);
    }
    Pigeonhole(owner, |groups|);
  }

  // ---------------------------------------------------------------------------------------------
  // The order of equal sizes does not matter: any two groupings have the same tiers up to that order
  // ---------------------------------------------------------------------------------------------

  /** The sizes a tier that starts at this size takes in. */
  predicate Within(f: File, head: nat) {
    head <= f.size < 2 * AtLeastOne(head)
  }

  lemma HeadIsLeast(tiers: seq<seq<File>>, i: nat, j: nat)
    requires AllBounded(tiers) && SortedBySize(Concat(tiers)) && i < |tiers| && j < |tiers[i]|
    ensures Within(tiers[i][j], tiers[i][0].size)
  {
    hide SortedBySize;
    assert Bounded(tiers[i]);
    TierSorted(tiers, i, j);
  }

  lemma {:induction false} TierSorted(tiers: seq<seq<File>>, i: nat, j: nat)
    requires SortedBySize(Concat(tiers)) && i < |tiers| && j < |tiers[i]|
    ensures tiers[i][0].size <= tiers[i][j].size
    decreases |tiers|
  {
    var n := |tiers| - 1;
    var before, last := Concat(tiers[..n]), tiers[n];
    assert forall a | 0 <= a < |before| :: before[a] == Concat(tiers)[a];
    if i < n {
      TierSorted(tiers[..n], i, j);
    } else {
      assert last[0] == Concat(tiers)[|before|] && last[j] == Concat(tiers)[|before| + j];
    }
  }

  /** How often the first n tiers hold the file. */
  ghost function Occurrences(tiers: seq<seq<File>>, n: nat, f: File): nat
    requires n <= |tiers|
  {
    if n == 0 then 0 else Occurrences(tiers, n - 1, f) + multiset(tiers[n - 1])[f]
  }

  lemma {:induction false} OccurrencesCount(tiers: seq<seq<File>>, n: nat, f: File)
    requires n <= |tiers|
    ensures Occurrences(tiers, n, f) == multiset(Concat(tiers[..n]))[f]
  {
    if n > 0 {
      OccurrencesCount(tiers, n - 1, f);
      ConcatSnoc(tiers[..n - 1], tiers[n - 1]);
      assert tiers[..n] == tiers[..n - 1] + [tiers[n - 1]];
      hide Concat;
    }
  }

  /** A tier holds exactly the files of its size range. */
  lemma TierIsRange(files: seq<File>, tiers: seq<seq<File>>, i: nat, f: File)
    requires Grouping(files, tiers) && i < |tiers|
    ensures multiset(tiers[i])[f] == if Within(f, tiers[i][0].size) then multiset(files)[f] else 0
  {
    hide HeadsApart, AllBounded, SortedBySize;
    OthersOutside(tiers, i, |tiers|, f);
    OccurrencesCount(tiers, |tiers|, f);
    assert tiers[..|tiers|] == tiers;
  }

  lemma {:induction false} OthersOutside(tiers: seq<seq<File>>, i: nat, n: nat, f: File)
    requires AllBounded(tiers) && HeadsApart(tiers) && SortedBySize(Concat(tiers)) && i < |tiers| && n <= |tiers|
    ensures if Within(f, tiers[i][0].size) then Occurrences(tiers, n, f) == if i < n then multiset(tiers[i])[f] else 0
            else multiset(tiers[i])[f] == 0
  {
    InRange(tiers, i, f);
    if n > 0 {
      OthersOutside(tiers, i, n - 1, f);
      InRange(tiers, n - 1, f);
      hide Concat, SortedBySize, Bounded;
      if Within(f, tiers[i][0].size) {
        if Within(f, tiers[n - 1][0].size) {
          RangesApart(tiers, i, n - 1, f);
        }
      }
    }
  }

  lemma InRange(tiers: seq<seq<File>>, i: nat, f: File)
    requires AllBounded(tiers) && SortedBySize(Concat(tiers)) && i < |tiers|
    ensures f in tiers[i] ==> Within(f, tiers[i][0].size)
    ensures multiset(tiers[i])[f] > 0 <==> f in tiers[i]
  {
    hide SortedBySize, Bounded;
    if f in tiers[i] {
      var j :| 0 <= j < |tiers[i]| && tiers[i][j] == f;
      HeadIsLeast(tiers, i, j);
    }
  }

  lemma RangesApart(tiers: seq<seq<File>>, i: nat, j: nat, f: File)
    requires AllBounded(tiers) && HeadsApart(tiers) && i < |tiers| && j < |tiers|
    requires Within(f, tiers[i][0].size) && Within(f, tiers[j][0].size)
    ensures i == j
  {
    if i < j {
      HeadsFarApart(tiers, i, j);
    } else if j < i {
      HeadsFarApart(tiers, j, i);
    }
  }

  /** The tier of an earlier start cannot begin above that of the other grouping. */
  lemma {:induction false} HeadsAgree(files: seq<File>, a: seq<seq<File>>, b: seq<seq<File>>, i: nat)
    requires Grouping(files, a) && Grouping(files, b) && i < |a| && i < |b|
    ensures a[i][0].size == b[i][0].size
  {
    if i > 0 {
      HeadsAgree(files, a, b, i - 1);
    }
    HeadNotAbove(files, a, b, i);
    HeadNotAbove(files, b, a, i);
  }

  lemma HeadNotAbove(files: seq<File>, a: seq<seq<File>>, b: seq<seq<File>>, i: nat)
    requires Grouping(files, a) && Grouping(files, b) && i < |a| && i < |b|
    requires i > 0 ==> a[i - 1][0].size == b[i - 1][0].size
    ensures a[i][0].size <= b[i][0].size
  {
    hide SortedBySize, Bounded;
    var j := GroupOfHead(files, b, a, i);
    var p :| 0 <= p < |a[j]| && a[j][p] == b[i][0];
    HeadIsLeast(a, j, p);
    if j < i {
      if j < i - 1 {
        HeadsFarApart(a, j, i - 1);
      }
    } else if i < j {
      HeadsFarApart(a, i, j);
    }
  }

  /** Whatever order sort.Slice gives files of equal size, the tiers have the same files. */
  lemma GroupingUnique(files: seq<File>, a: seq<seq<File>>, b: seq<seq<File>>)
    requires Grouping(files, a) && Grouping(files, b)
    ensures |a| == |b| && forall i :: 0 <= i < |a| ==> multiset(a[i]) == multiset(b[i])
  {
    OptimalTiering(files, a, b);
    OptimalTiering(files, b, a);
    hide Grouping;
    forall i | 0 <= i < |a|
      ensures multiset(a[i]) == multiset(b[i])
    {
      HeadsAgree(files, a, b, i);
      forall f
        ensures multiset(a[i])[f] == multiset(b[i])[f]
      {
        TierIsRange(files, a, i, f);
        TierIsRange(files, b, i, f);
      }
    }
  }

  // ---------------------------------------------------------------------------------------------
  // The read-amplification bound
  // ---------------------------------------------------------------------------------------------

  function Pow2(n: nat): (p: nat)
    ensures p >= 1
  {
    if n == 0 then 1 else 2 * Pow2(n - 1)
  }

  /** The largest e with 2^e <= n, for a positive n. */
  function FloorLog2(n: nat): nat {
    if n <= 1 then 0 else 1 + FloorLog2(n / 2)
  }

  lemma {:induction false} FloorLog2Above(n: nat, e: nat)
    requires Pow2(e) <= n
    ensures e <= FloorLog2(n)
  {
    if e > 0 {
      assert Pow2(e - 1) <= n / 2;
      FloorLog2Above(n / 2, e - 1);
    }
  }

  lemma {:induction false} HeadsDouble(tiers: seq<seq<File>>, n: nat)
    requires AllBounded(tiers) && HeadsApart(tiers) && n < |tiers|
    ensures Pow2(n) * AtLeastOne(tiers[0][0].size) <= AtLeastOne(tiers[n][0].size)
  {
    if n > 0 {
      HeadsDouble(tiers, n - 1);
    }
  }

  ghost predicate AnyFull(tiers: seq<seq<File>>, threshold: nat) {
    exists i :: 0 <= i < |tiers| && |tiers[i]| >= threshold
  }

  lemma AnyFullAgrees(files: seq<File>, a: seq<seq<File>>, b: seq<seq<File>>, threshold: nat)
    requires Grouping(files, a) && Grouping(files, b) && AnyFull(a, threshold)
    ensures AnyFull(b, threshold)
  {
    hide Grouping;
    GroupingUnique(files, a, b);
    var i :| 0 <= i < |a| && |a[i]| >= threshold;
    SameLength(a[i], b[i]);
  }

  lemma {:induction false} FewPerTier(tiers: seq<seq<File>>, threshold: nat)
    requires threshold >= 1 && !AnyFull(tiers, threshold)
    ensures |Concat(tiers)| <= (threshold - 1) * |tiers|
  {
    if tiers != [] {
      var n := |tiers| - 1;
      assert !AnyFull(tiers[..n], threshold) by {
        assert forall i :: 0 <= i < n ==> tiers[..n][i] == tiers[i];
      }
      FewPerTier(tiers[..n], threshold);
      assert |tiers[n]| <= threshold - 1;
      assert (threshold - 1) * n + (threshold - 1) == (threshold - 1) * (n + 1);
    }
  }

  lemma HeadIsFile(files: seq<File>, tiers: seq<seq<File>>, n: nat)
    requires Grouping(files, tiers) && n < |tiers|
    ensures tiers[n][0] in files
  {
    hide HeadsApart, SortedBySize, Bounded;
    var k := ConcatMember(tiers, n, 0);
    assert tiers[n][0] in multiset(Concat(tiers));
    assert tiers[n][0] in multiset(files);
  }

  /** When no tier is full, the file count is logarithmic in the spread of file sizes. */
  lemma ReadAmplification(files: seq<File>, tiers: seq<seq<File>>, threshold: nat, minSize: nat, maxSize: nat)
    requires files != [] && threshold >= 1 && Grouping(files, tiers) && !AnyFull(tiers, threshold)
    requires forall f :: f in files ==> minSize <= f.size <= maxSize
    ensures |files| <= (threshold - 1) * (1 + FloorLog2(AtLeastOne(maxSize) / AtLeastOne(minSize)))
  {
    SameLength(files, Concat(tiers));
    hide HeadsApart, SortedBySize, Bounded;
    FewPerTier(tiers, threshold);
    hide AnyFull;
    assert tiers != [];
    var n := |tiers| - 1;
    HeadIsFile(files, tiers, 0);
    HeadIsFile(files, tiers, n);
    HeadsDouble(tiers, n);
    hide Concat, Pow2, FloorLog2;
    var lo, hi, p, h := AtLeastOne(minSize), AtLeastOne(maxSize), Pow2(n), AtLeastOne(tiers[0][0].size);
    MultiplyBound(p, lo, h);
    QuotientAtLeast(p, lo, hi);
    FloorLog2Above(hi / lo, n);
    MultiplyBound(threshold - 1, |tiers|, 1 + FloorLog2(hi / lo));
  }

  lemma SameLength(a: seq<File>, b: seq<File>)
    requires multiset(a) == multiset(b)
    ensures |a| == |b|
  {
    assert |multiset(a)| == |a| && |multiset(b)| == |b|;
  }

  lemma QuotientAtLeast(p: nat, lo: nat, hi: nat)
    requires lo >= 1 && p * lo <= hi
    ensures p <= hi / lo
  {
    var q := hi / lo;
    assert hi < (q + 1) * lo;
    if p >= q + 1 {
      MultiplyBound(lo, q + 1, p);
    }
  }

  lemma MultiplyBound(a: nat, b: nat, c: nat)
    requires b <= c
    ensures a * b <= a * c
  {
  }
}
