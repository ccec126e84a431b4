/** Day 5, part 2: the ranges are sorted in place, fused wherever they overlap
    or touch, and the lengths of the fused ranges are added up, so that every
    fresh id is counted once. */
module RangeMerging {
  import opened Common
  import opened FreshIds

  // ---------------------------------------------------------------------------
  // `ranges.sort()`: Python orders pairs by start, then by end
  // ---------------------------------------------------------------------------

  predicate Le(a: Range, b: Range)
  {
    a.0 < b.0 || (a.0 == b.0 && a.1 <= b.1)
  }

  predicate Sorted(s: seq<Range>)
  {
    forall i, j :: 0 <= i < j < |s| ==> Le(s[i], s[j])
  }

  /** `ranges.sort()`, as an insertion sort on the caller's list. */
  method SortRanges(a: array<Range>)
    modifies a
    ensures Sorted(a[..]) && multiset(a[..]) == multiset(old(a[..]))
  {
    var i := 0;
    while i < a.Length
      invariant i <= a.Length
      invariant Sorted(a[..i]) && multiset(a[..]) == multiset(old(a[..]))
    {
      InsertLast(a, i);
      i := i + 1;
    }
    assert a[..a.Length] == a[..];
  }

  /** Moves `a[i]` left past every larger range, so that `a[..i + 1]` is sorted. */
  method InsertLast(a: array<Range>, i: nat)
    requires i < a.Length && Sorted(a[..i])
    modifies a
    ensures Sorted(a[..i + 1]) && multiset(a[..]) == multiset(old(a[..]))
  {
    var j := i;
    while j > 0 && !Le(a[j - 1], a[j])
      invariant 0 <= j <= i
      invariant forall p, q :: 0 <= p < q <= i && p != j && q != j ==> Le(a[p], a[q])
      invariant forall q :: j < q <= i ==> Le(a[j], a[q])
      invariant multiset(a[..]) == multiset(old(a[..]))
    {
      a[j - 1], a[j] := a[j], a[j - 1];
      j := j - 1;
    }
  }

  /** A sorted order is unique: two sorted lists with the same ranges are equal. */
  lemma {:induction false} SortedUnique(s: seq<Range>, t: seq<Range>)
    requires Sorted(s) && Sorted(t) && multiset(s) == multiset(t)
    ensures s == t
    decreases |s|
  {
    assert |s| == |multiset(s)| == |multiset(t)| == |t|;
    if s != [] {
      HeadLeast(t, s[0]);
      HeadLeast(s, t[0]);
      assert s[0] == t[0];
      Tail(s);
      Tail(t);
      SortedUnique(s[1..], t[1..]);
    }
  }

  /** The first range of a sorted list is at most any range in it. */
  lemma HeadLeast(s: seq<Range>, x: Range)
    requires Sorted(s) && x in multiset(s)
    ensures Le(s[0], x)
  {
    var k :| 0 <= k < |s| && s[k] == x;
    if k > 0 {
      assert Le(s[0], s[k]);
    }
  }

  lemma Tail(s: seq<Range>)
    requires Sorted(s) && s != []
    ensures Sorted(s[1..]) && multiset(s[1..]) == multiset(s) - multiset{s[0]}
  {
    assert s == [s[0]] + s[1..];
    forall i, j | 0 <= i < j < |s[1..]|
      ensures Le(s[1..][i], s[1..][j])
    {
      assert s[1..][i] == s[i + 1] && s[1..][j] == s[j + 1];
    }
  }

  // ---------------------------------------------------------------------------
  // The merge loop
  // ---------------------------------------------------------------------------

  function Max(a: int, b: int): int
  {
    if a >= b then a else b
  }

  /** One pass of the merge loop: a range starting at most one past the end of
      the last merged range extends it, any other is appended. */
  function Absorb(merged: seq<Range>, rg: Range): seq<Range>
    requires merged != []
  {
    var last := merged[|merged| - 1];
    if rg.0 <= last.1 + 1 then merged[|merged| - 1 := (last.0, Max(last.1, rg.1))]
    else merged + [rg]
  }

  /** `merge_ranges` after the sort: the first range, then every later one absorbed. */
  function Merge(s: seq<Range>): (m: seq<Range>)
    ensures |m| <= |s| && (s != [] ==> m != [])
  {
    if |s| <= 1 then s else Absorb(Merge(s[..|s| - 1]), s[|s| - 1])
  }

  /** Every range has start <= end. */
  predicate WellFormed(s: seq<Range>)
  {
    forall k :: 0 <= k < |s| ==> s[k].0 <= s[k].1
  }

  /** The merged shape: well formed, and each start more than one past the
      previous end, so no two ranges overlap or touch. */
  predicate Separated(m: seq<Range>)
  {
    WellFormed(m) && forall k :: 0 <= k < |m| - 1 ==> m[k].1 + 1 < m[k + 1].0
  }

  lemma MergeUnfold(s: seq<Range>, init: seq<Range>, rg: Range)
    requires |s| > 1 && init == s[..|s| - 1] && rg == s[|s| - 1]
    ensures Merge(s) == Absorb(Merge(init), rg)
  {
  }

  /** The last merged range starts no later than the last input range. */
  lemma {:induction false} LastStart(s: seq<Range>)
    requires Sorted(s) && s != []
    ensures Merge(s)[|Merge(s)| - 1].0 <= s[|s| - 1].0
  {
    if |s| > 1 {
      var init := s[..|s| - 1];
      MergeUnfold(s, init, s[|s| - 1]);
      LastStart(init);
      assert Le(init[|init| - 1], s[|s| - 1]);
    }
  }

  /** An id is in a list with one more range iff it is in the list or in that range. */
  lemma FreshSnoc(x: int, rs: seq<Range>, rg: Range)
    ensures IsFresh(x, rs + [rg]) == (IsFresh(x, rs) || Within(rg, x))
  {
    var t := rs + [rg];
    if IsFresh(x, rs) {
      var k :| 0 <= k < |rs| && Within(rs[k], x);
      assert t[k] == rs[k];
    }
    if IsFresh(x, t) && !Within(rg, x) {
      var k :| 0 <= k < |t| && Within(t[k], x);
      assert k < |rs| && t[k] == rs[k];
    }
    assert t[|rs|] == rg;
  }

  /** Merging keeps exactly the ids the sorted ranges hold. */
  lemma {:induction false} MergeCovers(s: seq<Range>, x: int)
    requires Sorted(s)
    ensures IsFresh(x, Merge(s)) == IsFresh(x, s)
  {
    if |s| > 1 {
      var init, rg := s[..|s| - 1], s[|s| - 1];
      assert s == init + [rg];
      MergeUnfold(s, init, rg);
      MergeCovers(init, x);
      LastStart(init);
      assert Le(init[|init| - 1], rg);
      FreshSnoc(x, init, rg);
      AbsorbCovers(x, Merge(init), rg);
    }
  }

  /** Absorbing a range that starts no earlier than the last merged one adds
      exactly its ids. */
  lemma AbsorbCovers(x: int, m: seq<Range>, rg: Range)
    requires m != [] && m[|m| - 1].0 <= rg.0
    ensures IsFresh(x, Absorb(m, rg)) == (IsFresh(x, m) || Within(rg, x))
  {
    var front, last := m[..|m| - 1], m[|m| - 1];
    assert m == front + [last];
    FreshSnoc(x, front, last);
    if rg.0 <= last.1 + 1 {
      var fused := (last.0, Max(last.1, rg.1));
      assert Absorb(m, rg) == front + [fused];
      FreshSnoc(x, front, fused);
    } else {
      FreshSnoc(x, m, rg);
    }
  }

  /** Merging well-formed sorted ranges gives separated ranges. */
  lemma {:induction false} MergeSeparated(s: seq<Range>)
    requires Sorted(s) && WellFormed(s)
    ensures Separated(Merge(s))
  {
    if |s| > 1 {
      var init, rg := s[..|s| - 1], s[|s| - 1];
      MergeUnfold(s, init, rg);
      MergeSeparated(init);
      var m := Merge(init);
      var last := m[|m| - 1];
      var m' := Merge(s);
      if rg.0 <= last.1 + 1 {
        assert forall k :: 0 <= k < |m| - 1 ==> m'[k] == m[k];
      } else {
        assert forall k :: 0 <= k < |m| ==> m'[k] == m[k];
      }
    }
  }

  /** Separated ranges are merged into themselves. */
  lemma {:induction false} MergeSeparatedIdentity(m: seq<Range>)
    requires Separated(m)
    ensures Merge(m) == m
  {
    if |m| > 1 {
      var init := m[..|m| - 1];
      MergeUnfold(m, init, m[|m| - 1]);
      MergeSeparatedIdentity(init);
      assert init + [m[|m| - 1]] == m;
    }
  }

  /** Merging twice is merging once. */
  lemma MergeIdempotent(s: seq<Range>)
    requires Sorted(s) && WellFormed(s)
    ensures Merge(Merge(s)) == Merge(s)
  {
    MergeSeparated(s);
    MergeSeparatedIdentity(Merge(s));
  }

  /** In separated ranges every range ends more than one before any later one starts. */
  lemma {:induction false} SeparatedChain(m: seq<Range>, i: nat, j: nat)
    requires Separated(m) && i < j < |m|
    ensures m[i].1 + 1 < m[j].0
    decreases j - i
  {
    if i + 1 < j {
      SeparatedChain(m, i + 1, j);
    }
  }

  lemma SeparatedSorted(m: seq<Range>)
    requires Separated(m)
    ensures Sorted(m)
  {
    forall i, j | 0 <= i < j < |m|
      ensures Le(m[i], m[j])
    {
      SeparatedChain(m, i, j);
    }
  }

  /** Handing a merged list back to `merge_ranges`: whatever order the sort
      leaves it in, the result is the list itself. */
  lemma MergeRangesIdempotent(m: seq<Range>, sorted: seq<Range>)
    requires Separated(m) && Sorted(sorted) && multiset(sorted) == multiset(m)
    ensures Merge(sorted) == m
  {
    SeparatedSorted(m);
    SortedUnique(sorted, m);
    MergeSeparatedIdentity(m);
  }

  /** `merge_ranges`: an empty list is returned as is; any other is sorted in
      place and merged. */
  method MergeRanges(ranges: array<Range>) returns (merged: seq<Range>)
    modifies ranges
    ensures Sorted(ranges[..]) && multiset(ranges[..]) == multiset(old(ranges[..]))
    ensures merged == Merge(ranges[..])
  {
    if ranges.Length == 0 {
      assert ranges[..] == [];
      return [];
    }
    SortRanges(ranges);
    merged := MergeSorted(ranges[..]);
  }

  /** The loop of `merge_ranges`: `merged` starts as the first range and every
      later range of the sorted list is absorbed into it. */
  method MergeSorted(s: seq<Range>) returns (merged: seq<Range>)
    requires s != []
    ensures merged == Merge(s)
  {
    merged := [s[0]];
    assert s[..1] == [s[0]];
    for k := 1 to |s|
      invariant merged == Merge(s[..k])
    {
      var (start, end) := s[k];
      var (lastStart, lastEnd) := merged[|merged| - 1];
      assert s[..k + 1][..k] == s[..k];
      MergeUnfold(s[..k + 1], s[..k], s[k]);
      if start <= lastEnd + 1 {
        merged := merged[|merged| - 1 := (lastStart, Max(lastEnd, end))];
      } else {
        merged := merged + [(start, end)];
      }
    }
    assert s[..|s|] == s;
  }

  // ---------------------------------------------------------------------------
  // Counting the fresh ids
  // ---------------------------------------------------------------------------

  /** The ids the ranges hold, each once. */
  function CoveredIds(s: seq<Range>): set<int>
  {
    set k, x | 0 <= k < |s| && s[k].0 <= x <= s[k].1 && Within(s[k], x) :: x
  }

  lemma CoveredIdsFresh(s: seq<Range>, x: int)
    ensures x in CoveredIds(s) <==> IsFresh(x, s)
  {
    if IsFresh(x, s) {
      var k :| 0 <= k < |s| && Within(s[k], x);
      assert s[k].0 <= x <= s[k].1;
    }
  }

  /** `total += end - start + 1` over the merged ranges. */
  function Span(m: seq<Range>): int
  {
    if m == [] then 0 else Span(m[..|m| - 1]) + (m[|m| - 1].1 - m[|m| - 1].0 + 1)
  }

  function Interval(lo: int, hi: int): set<int>
  {
    CoveredIds([(lo, hi)])
  }

  lemma {:induction false} IntervalSize(lo: int, hi: int)
    requires lo <= hi + 1
    ensures |Interval(lo, hi)| == hi - lo + 1
    decreases hi - lo
  {
    if lo <= hi {
      var h := hi - 1;
      IntervalSize(lo, h);
      assert Interval(lo, hi) == Interval(lo, h) + {hi} by {
        forall x | x in Interval(lo, hi)
          ensures x in Interval(lo, h) + {hi}
        {
          InInterval(lo, hi, x);
          InInterval(lo, h, x);
        }
        forall x | x in Interval(lo, h) + {hi}
          ensures x in Interval(lo, hi)
        {
          InInterval(lo, hi, x);
          InInterval(lo, h, x);
        }
      }
    } else {
      forall x | x in Interval(lo, hi)
        ensures false
      {
        InInterval(lo, hi, x);
      }
      assert Interval(lo, hi) == {};
    }
  }

  lemma InInterval(lo: int, hi: int, x: int)
    ensures x in Interval(lo, hi) <==> lo <= x <= hi
  {
    var one := [(lo, hi)];
    if lo <= x <= hi {
      assert Within(one[0], x);
    }
  }

  /** The span of separated ranges is the number of ids they hold. */
  lemma {:induction false} SpanCounts(m: seq<Range>)
    requires Separated(m)
    ensures Span(m) == |CoveredIds(m)|
  {
    if m != [] {
      var init, last := m[..|m| - 1], m[|m| - 1];
      assert Separated(init);
      SpanCounts(init);
      IntervalSize(last.0, last.1);
      assert m == init + [last];
      CoveredSnoc(init, last);
      CoveredBefore(m);
    }
  }

  /** One more range adds the ids of its interval. */
  lemma CoveredSnoc(init: seq<Range>, last: Range)
    ensures CoveredIds(init + [last]) == CoveredIds(init) + Interval(last.0, last.1)
  {
    var m := init + [last];
    forall x | x in CoveredIds(m)
      ensures x in CoveredIds(init) + Interval(last.0, last.1)
    {
      var k :| 0 <= k < |m| && m[k].0 <= x <= m[k].1;
      if k < |init| {
        assert init[k] == m[k] && Within(init[k], x);
      } else {
        InInterval(last.0, last.1, x);
      }
    }
    forall x | x in CoveredIds(init)
      ensures x in CoveredIds(m)
    {
      var k :| 0 <= k < |init| && init[k].0 <= x <= init[k].1;
      assert m[k] == init[k] && Within(m[k], x);
    }
    forall x | x in Interval(last.0, last.1)
      ensures x in CoveredIds(m)
    {
      InInterval(last.0, last.1, x);
      assert m[|init|] == last && Within(m[|init|], x);
    }
  }

  /** In separated ranges the ids before the last range all lie below it. */
  lemma CoveredBefore(m: seq<Range>)
    requires Separated(m) && m != []
    ensures CoveredIds(m[..|m| - 1]) * Interval(m[|m| - 1].0, m[|m| - 1].1) == {}
  {
    var init := m[..|m| - 1];
    forall x | x in CoveredIds(init)
      ensures x < m[|m| - 1].0
    {
      var k :| 0 <= k < |init| && init[k].0 <= x <= init[k].1;
      SeparatedChain(m, k, |m| - 1);
    }
  }

  /** `count_fresh_ids` of part 2 is the number of distinct ids that some
      range holds, for well-formed ranges in sorted order. */
  lemma MergedCount(s: seq<Range>)
    requires Sorted(s) && WellFormed(s)
    ensures Span(Merge(s)) == |CoveredIds(s)|
  {
    MergeSeparated(s);
    SpanCounts(Merge(s));
    assert CoveredIds(Merge(s)) == CoveredIds(s) by {
      forall x | x in CoveredIds(Merge(s))
        ensures x in CoveredIds(s)
      {
        MergeCovers(s, x);
        CoveredIdsFresh(Merge(s), x);
        CoveredIdsFresh(s, x);
      }
      forall x | x in CoveredIds(s)
        ensures x in CoveredIds(Merge(s))
      {
        MergeCovers(s, x);
        CoveredIdsFresh(Merge(s), x);
        CoveredIdsFresh(s, x);
      }
    }
  }

  /** Reordering the ranges does not change the ids they hold. */
  lemma CoveredPermutation(a: seq<Range>, b: seq<Range>)
    requires multiset(a) == multiset(b)
    ensures CoveredIds(a) == CoveredIds(b)
  {
    forall x | x in CoveredIds(a)
      ensures x in CoveredIds(b)
    {
      IsFreshPermutation(x, a, b);
      CoveredIdsFresh(a, x);
      CoveredIdsFresh(b, x);
    }
    forall x | x in CoveredIds(b)
      ensures x in CoveredIds(a)
    {
      IsFreshPermutation(x, a, b);
      CoveredIdsFresh(a, x);
      CoveredIdsFresh(b, x);
    }
  }

  /** `count_fresh_ids`: merges the caller's ranges (sorting them in place) and
      adds up the lengths of the merged ranges. */
  method CountFreshIds(ranges: array<Range>) returns (total: int)
    modifies ranges
    ensures Sorted(ranges[..]) && multiset(ranges[..]) == multiset(old(ranges[..]))
    ensures total == Span(Merge(ranges[..]))
    ensures WellFormed(old(ranges[..])) ==> total == |CoveredIds(old(ranges[..]))|
  {
    var merged := MergeRanges(ranges);
    total := 0;
    for k := 0 to |merged|
      invariant total == Span(merged[..k])
    {
      assert merged[..k + 1][..k] == merged[..k];
      var (start, end) := merged[k];
      total := total + (end - start + 1);
    }
    assert merged[..|merged|] == merged;
    if WellFormed(old(ranges[..])) {
      CountWellFormed(old(ranges[..]), ranges[..]);
    }
  }

  lemma CountWellFormed(original: seq<Range>, sorted: seq<Range>)
    requires WellFormed(original) && Sorted(sorted) && multiset(sorted) == multiset(original)
    ensures Span(Merge(sorted)) == |CoveredIds(original)|
  {
    forall k | 0 <= k < |sorted|
      ensures sorted[k].0 <= sorted[k].1
    {
      assert sorted[k] in multiset(original);
    }
    MergedCount(sorted);
    CoveredPermutation(sorted, original);
  }

  /** `parse_ranges`: the stripped lines are read as ranges up to the first blank one. */
  method ParseRanges(lines: seq<string>) returns (ranges: Option<seq<Range>>)
    ensures ranges == RangesOf(StripLines(lines)[..FirstBlank(StripLines(lines))])
  {
    var stripped := StripLines(lines);
    var stop;
    ranges, stop := ReadRanges(stripped);
  }
}
