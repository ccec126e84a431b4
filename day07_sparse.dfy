/** The sparse timeline counter of day 7, part 2: only the columns that hold
    timelines are kept, in a dict from column to count that is rebuilt for
    every row. The dict is a list of `(column, count)` pairs in insertion order. */
module SparseTimelines {
  import opened Common
  import opened Timelines
  import TimelineTables

  /** What the frontier dict keeps between rows: one entry per column, every
      column inside the grid, and only positive counts. */
  ghost predicate Frontier(d: seq<(int, nat)>, cols: nat)
  {
    DistinctKeys(d) && ColumnsIn(d, cols) && forall k :: 0 <= k < |d| ==> d[k].1 > 0
  }

  /** `next_line[c] += count` on a `defaultdict(int)`. */
  function AddTo(d: seq<(int, nat)>, c: int, count: nat): seq<(int, nat)>
  {
    Put<int, nat>(d, c, GetOr<int, nat>(d, c, 0) + count)
  }

  /** Adding a positive count keeps a frontier one, and adds the count to that
      column of the row it describes. */
  lemma AddToFacts(d: seq<(int, nat)>, c: int, count: nat, cols: nat)
    requires Frontier(d, cols) && 0 <= c < cols && count > 0
    ensures Frontier(AddTo(d, c, count), cols)
    ensures Dense(AddTo(d, c, count), cols) == Dense(d, cols)[c := Dense(d, cols)[c] + count]
  {
    var d' := AddTo(d, c, count);
    var v: nat := GetOr<int, nat>(d, c, 0) + count;
    PutFacts(d, c, v);
    PutDistinct(d, c, v);
    forall k | 0 <= k < |d'|
      ensures 0 <= d'[k].0 < cols && d'[k].1 > 0
    {
      if c !in Keys(d) {
        if k == |d| {
        } else {
          assert d'[k] == d[k];
        }
      } else {
        PutPositions(d, c, v, k);
      }
    }
    forall j | 0 <= j < cols
      ensures Dense(d', cols)[j] == Dense(d, cols)[c := Dense(d, cols)[c] + count][j]
    {
      GetOrPut(d, c, v, j, 0);
    }
  }

  /** `d[k] = v` on a key that is present touches only the pair holding it. */
  lemma {:induction false} PutPositions(d: seq<(int, nat)>, k: int, v: nat, t: nat)
    requires DistinctKeys(d) && k in Keys(d) && t < |d|
    ensures |Put(d, k, v)| == |d|
    ensures Put(d, k, v)[t] == if d[t].0 == k then (k, v) else d[t]
  {
    if d[0].0 != k {
      if t > 0 {
        PutPositions(d[1..], k, v, t - 1);
      } else {
        PutFacts(d[1..], k, v);
      }
    } else if t > 0 {
      assert d[0].0 != d[t].0;
    }
  }

  /** The total of the counts is the total of the row the dict describes. */
  lemma {:induction false} SumValuesDense(d: seq<(int, nat)>, cols: nat)
    requires DistinctKeys(d) && ColumnsIn(d, cols)
    ensures Sum(Values(d)) == Sum(Dense(d, cols))
  {
    if d == [] {
      TimelineTables.SumZeros(cols);
      assert Dense(d, cols) == Zeros(cols);
    } else {
      var (c, x) := d[0];
      var rest := d[1..];
      assert DistinctKeys(rest) && ColumnsIn(rest, cols) by {
        forall a, b | 0 <= a < b < |rest|
          ensures rest[a].0 != rest[b].0
        {
          assert d[a + 1].0 != d[b + 1].0;
        }
      }
      SumValuesDense(rest, cols);
      assert Values(d) == [x] + Values(rest);
      SumCons(x, Values(rest));
      var w := Dense(rest, cols);
      GetAbsent(rest, c);
      assert Dense(d, cols) == w[c := w[c] + x];
      SumUpdate(w, c, x);
    }
  }

  lemma {:induction false} GetAbsent(d: seq<(int, nat)>, c: int)
    requires forall t :: 0 <= t < |d| ==> d[t].0 != c
    ensures GetOr(d, c, 0) == 0
  {
    if d != [] {
      GetAbsent(d[1..], c);
    }
  }

  lemma SumUpdate(w: seq<int>, c: nat, x: int)
    requires c < |w|
    ensures Sum(w[c := w[c] + x]) == Sum(w) + x
  {
    var u := w[c := w[c] + x];
    assert w == w[..c] + [w[c]] + w[c + 1..];
    assert u == w[..c] + [w[c] + x] + w[c + 1..];
    SumConcat(w[..c] + [w[c]], w[c + 1..]);
    SumConcat(w[..c], [w[c]]);
    SumConcat(w[..c] + [w[c] + x], w[c + 1..]);
    SumConcat(w[..c], [w[c] + x]);
    assert Sum([w[c]]) == w[c] && Sum([w[c] + x]) == w[c] + x;
  }

  /** The body of the inner loop of `count_timelines_super_fast`: the
      `count` timelines in column `c` of `row` are added to `next_line`. */
  method PushEntry(row: seq<char>, next: seq<(int, nat)>, c: int, count: nat) returns (next': seq<(int, nat)>)
    requires 0 <= c < |row| && count > 0 && Frontier(next, |row|)
    ensures Frontier(next', |row|)
    ensures Dense(next', |row|) == PushOne(row, Dense(next, |row|), c, count)
  {
    var cols := |row|;
    var cell := row[c];
    next' := next;
    if cell == '.' {
      AddToFacts(next', c, count, cols);
      next' := AddTo(next', c, count);
    } else if cell == '^' {
      if c - 1 >= 0 {
        AddToFacts(next', c - 1, count, cols);
        next' := AddTo(next', c - 1, count);
      }
      if c + 1 < cols {
        AddToFacts(next', c + 1, count, cols);
        next' := AddTo(next', c + 1, count);
      }
    }
  }

  /** One row of `count_timelines_super_fast`: every frontier entry, in
      insertion order, is pushed into a fresh `next_line`. */
  method NextLine(g: Grid, r: nat, current: seq<(int, nat)>) returns (next: seq<(int, nat)>)
    requires Rectangular(g) && r < |g| && Frontier(current, |g[0]|)
    ensures Frontier(next, |g[0]|)
    ensures Dense(next, |g[0]|) == Step(g[r], Dense(current, |g[0]|))
  {
    var cols := |g[0]|;
    next := [];
    for k := 0 to |current|
      invariant Frontier(next, cols)
      invariant Dense(next, cols) == PushAll(g[r], current[..k], cols)
    {
      assert current[..k + 1][..k] == current[..k];
      var (c, count) := current[k];
      next := PushEntry(g[r], next, c, count);
    }
    assert current[..|current|] == current;
    PushAllStep(g[r], current, cols);
  }

  /** `count_timelines_super_fast`. */
  method CountTimelinesSparse(g: Grid) returns (total: Option<int>)
    requires Rectangular(g)
    ensures total == SparseTimelines(g)
  {
    var rows, cols := |g|, |g[0]|;
    var start := TimelineTables.FindStartScan(g);
    if start.None? {
      return None;
    }
    var (sr, sc) := start.value;
    var current: seq<(int, nat)> := [(sc, 1)];
    ghost var seed := Seed(cols, sc);
    assert Dense(current, cols) == seed;
    for r := sr + 1 to rows
      invariant Frontier(current, cols)
      invariant Dense(current, cols) == Advance(g, seed, sr + 1, r)
    {
      current := NextLine(g, r, current);
    }
    SumValuesDense(current, cols);
    total := Some(Sum(Values(current)));
  }
}
