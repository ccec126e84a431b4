/** The tachyon-manifold puzzle (day 7, part 2): a beam enters below the start
    cell 'S' and moves down one row at a time; a '.' lets it through, a '^'
    splits it into its two diagonal neighbours, anything else stops it. The
    solvers count timelines, i.e. beams with multiplicity.

    This module holds what the four part-2 solvers share: the grid, `find_start`,
    the one-row transition on a row of counts (stated once, in "pull" form, and
    reached by pushing counts column by column as the solvers do), and the
    memoised recursion of the `lru_cache` solver. */
module Timelines {
  import opened Common

  type Grid = seq<seq<char>>

  /** The solvers read `len(grid[0])` as the width of every row. */
  ghost predicate Rectangular(g: Grid)
  {
    |g| > 0 && forall r :: 0 <= r < |g| ==> |g[r]| == |g[0]|
  }

  // ---------------------------------------------------------------------------
  // find_start
  // ---------------------------------------------------------------------------

  /** The first column at or after `c` holding 'S'. */
  function IndexOfS(row: seq<char>, c: nat): (r: Option<nat>)
    ensures r.Some? ==> r.value < |row| && row[r.value] == 'S'
    decreases |row| - c
  {
    if c >= |row| then None
    else if row[c] == 'S' then Some(c)
    else IndexOfS(row, c + 1)
  }

  function FindStartFrom(g: Grid, r: nat): (s: Option<(nat, nat)>)
    ensures s.Some? ==> s.value.0 < |g| && s.value.1 < |g[s.value.0]| && g[s.value.0][s.value.1] == 'S'
    decreases |g| - r
  {
    if r >= |g| then None
    else match IndexOfS(g[r], 0)
      case Some(c) => Some((r, c))
      case None => FindStartFrom(g, r + 1)
  }

  /** `find_start`: the first 'S' in row-major order; `None` stands for the
      `ValueError` (or, in C, the exit) when there is none. */
  function FindStart(g: Grid): (s: Option<(nat, nat)>)
    ensures s.Some? ==> s.value.0 < |g| && s.value.1 < |g[s.value.0]| && g[s.value.0][s.value.1] == 'S'
  {
    FindStartFrom(g, 0)
  }

  lemma {:induction false} IndexOfSSpec(row: seq<char>, c: nat)
    ensures IndexOfS(row, c).Some? ==>
      var k := IndexOfS(row, c).value;
      c <= k < |row| && row[k] == 'S' && forall j :: c <= j < k ==> row[j] != 'S'
    ensures IndexOfS(row, c).None? ==> forall j :: c <= j < |row| ==> row[j] != 'S'
    decreases |row| - c
  {
    if c < |row| && row[c] != 'S' {
      IndexOfSSpec(row, c + 1);
    }
  }

  lemma {:induction false} FindStartFromSpec(g: Grid, r: nat)
    ensures FindStartFrom(g, r).Some? ==>
      var (sr, sc) := FindStartFrom(g, r).value;
      r <= sr < |g| && sc < |g[sr]| && g[sr][sc] == 'S'
      && (forall j :: 0 <= j < sc ==> g[sr][j] != 'S')
      && (forall i, j :: r <= i < sr && 0 <= j < |g[i]| ==> g[i][j] != 'S')
    ensures FindStartFrom(g, r).None? ==> forall i, j :: r <= i < |g| && 0 <= j < |g[i]| ==> g[i][j] != 'S'
    decreases |g| - r
  {
    if r < |g| {
      IndexOfSSpec(g[r], 0);
      if IndexOfS(g[r], 0).None? {
        FindStartFromSpec(g, r + 1);
      }
    }
  }

  /** `find_start` returns the first 'S' in row-major order, and fails exactly
      when the grid holds no 'S'. */
  lemma FindStartSpec(g: Grid)
    ensures FindStart(g).Some? ==>
      var (sr, sc) := FindStart(g).value;
      sr < |g| && sc < |g[sr]| && g[sr][sc] == 'S'
      && (forall j :: 0 <= j < sc ==> g[sr][j] != 'S')
      && (forall i, j :: 0 <= i < sr && 0 <= j < |g[i]| ==> g[i][j] != 'S')
    ensures FindStart(g).None? <==> forall i, j :: 0 <= i < |g| && 0 <= j < |g[i]| ==> g[i][j] != 'S'
  {
    FindStartFromSpec(g, 0);
    if FindStart(g).Some? {
      var (sr, sc) := FindStart(g).value;
      assert g[sr][sc] == 'S';
    }
  }

  // ---------------------------------------------------------------------------
  // One row of the manifold
  // ---------------------------------------------------------------------------

  /** What reaches column `c` of the next row from a row of counts `v`: the
      count above it when that cell is '.', plus the counts of the '^' cells
      diagonally above it. A beam split off either edge is lost. */
  function Pull(row: seq<char>, v: seq<nat>, c: nat): nat
    requires |row| == |v| && c < |v|
  {
    (if row[c] == '.' then v[c] else 0)
    + (if c >= 1 && row[c - 1] == '^' then v[c - 1] else 0)
    + (if c + 1 < |v| && row[c + 1] == '^' then v[c + 1] else 0)
  }

  /** The counts entering the next row. */
  function Step(row: seq<char>, v: seq<nat>): (w: seq<nat>)
    requires |row| == |v|
    ensures |w| == |v|
  {
    seq(|v|, c requires 0 <= c < |v| => Pull(row, v, c))
  }

  /** The solvers' way of computing a step: the count of column `c` is pushed
      to the cells below it, as `propagate_timeline` and the sparse loop do. */
  function PushOne(row: seq<char>, acc: seq<nat>, c: int, count: nat): (r: seq<nat>)
    requires |row| == |acc| && 0 <= c < |acc|
    ensures |r| == |acc|
  {
    if row[c] == '.' then acc[c := acc[c] + count]
    else if row[c] == '^' then
      var a := if c - 1 >= 0 then acc[c - 1 := acc[c - 1] + count] else acc;
      if c + 1 < |a| then a[c + 1 := a[c + 1] + count] else a
    else acc
  }

  function Zeros(n: nat): (z: seq<nat>)
    ensures |z| == n
  {
    seq(n, i => 0)
  }

  /** `(column, count)` pairs whose columns lie in `0 .. n - 1`. */
  ghost predicate ColumnsIn(items: seq<(int, nat)>, n: nat)
  {
    forall k :: 0 <= k < |items| ==> 0 <= items[k].0 < n
  }

  /** Pushing the counts of `items`, in order, into a row of zeros. */
  function PushAll(row: seq<char>, items: seq<(int, nat)>, n: nat): (r: seq<nat>)
    requires |row| == n && ColumnsIn(items, n)
    ensures |r| == n
  {
    if items == [] then Zeros(n)
    else
      var last := items[|items| - 1];
      PushOne(row, PushAll(row, items[..|items| - 1], n), last.0, last.1)
  }

  /** The counts of a list of `(column, count)` pairs, as a row: what a
      `defaultdict(int)` holds, read column by column. */
  function Dense(items: seq<(int, nat)>, n: nat): (v: seq<nat>)
    ensures |v| == n
  {
    seq(n, c => GetOr(items, c, 0))
  }

  /** Every column of a row with its count, in column order. */
  function Enumerate(v: seq<nat>): (items: seq<(int, nat)>)
    ensures |items| == |v|
  {
    seq(|v|, c requires 0 <= c < |v| => (c, v[c]))
  }

  /** Pushing one count is adding it to the column of a row of counts and taking
      the step: the transition is linear. */
  lemma StepAdd(row: seq<char>, v: seq<nat>, c: nat, x: nat)
    requires |row| == |v| && c < |v|
    ensures Step(row, v[c := v[c] + x]) == PushOne(row, Step(row, v), c, x)
  {
    var lhs, rhs := Step(row, v[c := v[c] + x]), PushOne(row, Step(row, v), c, x);
    forall j | 0 <= j < |v|
      ensures lhs[j] == rhs[j]
    {
    }
  }

  /** Pushing the pairs of a list with distinct columns, in any order, gives
      the step of the row they describe. */
  lemma {:induction false} PushAllStep(row: seq<char>, items: seq<(int, nat)>, n: nat)
    requires |row| == n && ColumnsIn(items, n) && DistinctKeys(items)
    ensures PushAll(row, items, n) == Step(row, Dense(items, n))
  {
    if items == [] {
      assert Step(row, Dense(items, n)) == Zeros(n);
    } else {
      var pre, last := items[..|items| - 1], items[|items| - 1];
      assert items == pre + [last];
      assert ColumnsIn(pre, n) && DistinctKeys(pre) by {
        assert forall t :: 0 <= t < |pre| ==> pre[t] == items[t];
      }
      PushAllStep(row, pre, n);
      var v := Dense(pre, n);
      GetAppendDistinct(pre, last.0, last.1);
      assert Dense(items, n) == v[last.0 := v[last.0] + last.1];
      calc {
        PushAll(row, items, n);
        PushOne(row, PushAll(row, pre, n), last.0, last.1);
        PushOne(row, Step(row, v), last.0, last.1);
        { StepAdd(row, v, last.0, last.1); }
        Step(row, v[last.0 := v[last.0] + last.1]);
        Step(row, Dense(items, n));
      }
    }
  }

  lemma {:induction false} GetAppendDistinct(pre: seq<(int, nat)>, k: int, x: nat)
    requires DistinctKeys(pre + [(k, x)])
    ensures GetOr(pre, k, 0) == 0 && GetOr(pre + [(k, x)], k, 0) == x
    ensures forall j :: j != k ==> GetOr(pre + [(k, x)], j, 0) == GetOr(pre, j, 0)
  {
    var d := pre + [(k, x)];
    assert d[|pre|].0 == k;
    if pre == [] {
      assert d[1..] == [];
    } else {
      assert d[0] == pre[0];
      assert d[1..] == pre[1..] + [(k, x)];
      assert DistinctKeys(pre[1..] + [(k, x)]) by {
        forall a, b | 0 <= a < b < |d| - 1
          ensures d[1..][a].0 != d[1..][b].0
        {
          assert d[a + 1].0 != d[b + 1].0;
        }
      }
      GetAppendDistinct(pre[1..], k, x);
      assert pre[0].0 != k by {
        assert d[0].0 != d[|pre|].0;
      }
      forall j | j != k
        ensures GetOr(d, j, 0) == GetOr(pre, j, 0)
      {
        if pre[0].0 != j {
          assert Get(d, j) == Get(d[1..], j);
          assert Get(pre, j) == Get(pre[1..], j);
          assert GetOr(d[1..], j, 0) == GetOr(pre[1..], j, 0);
        }
      }
    }
  }

  /** The list of every column with its count describes that row. */
  lemma EnumerateDense(v: seq<nat>)
    ensures ColumnsIn(Enumerate(v), |v|) && DistinctKeys(Enumerate(v))
    ensures Dense(Enumerate(v), |v|) == v
  {
    var e := Enumerate(v);
    forall c | 0 <= c < |v|
      ensures GetOr(e, c, 0) == v[c]
    {
      EnumerateGet(v, 0, c);
    }
  }

  lemma {:induction false} EnumerateGet(v: seq<nat>, from: nat, c: nat)
    requires from <= c < |v|
    ensures GetOr(Enumerate(v)[from..], c, 0) == v[c]
    decreases c - from
  {
    var e := Enumerate(v)[from..];
    assert e[0] == (from, v[from]);
    if from < c {
      assert e[1..] == Enumerate(v)[from + 1..];
      EnumerateGet(v, from + 1, c);
    }
  }

  /** Pushing every column in order, as the DP loop does, computes the step. */
  lemma PushColumnsStep(row: seq<char>, v: seq<nat>)
    requires |row| == |v|
    ensures ColumnsIn(Enumerate(v), |v|)
    ensures PushAll(row, Enumerate(v), |v|) == Step(row, v)
  {
    EnumerateDense(v);
    PushAllStep(row, Enumerate(v), |v|);
  }

  /** A zero count pushes nothing, which is why skipping it changes nothing. */
  lemma PushZero(row: seq<char>, acc: seq<nat>, c: int)
    requires |row| == |acc| && 0 <= c < |acc|
    ensures PushOne(row, acc, c, 0) == acc
  {
  }

  ghost predicate AllDots(row: seq<char>)
  {
    forall c :: 0 <= c < |row| ==> row[c] == '.'
  }

  /** A row of '.' passes every count straight down. */
  lemma StepDots(row: seq<char>, v: seq<nat>)
    requires |row| == |v| && AllDots(row)
    ensures Step(row, v) == v
  {
  }

  // ---------------------------------------------------------------------------
  // Many rows
  // ---------------------------------------------------------------------------

  /** One timeline entering column `c`. */
  function Seed(n: nat, c: nat): (v: seq<nat>)
    ensures |v| == n
  {
    seq(n, j => if j == c then 1 else 0)
  }

  /** The counts after passing rows `lo .. hi - 1`. */
  function Advance(g: Grid, v: seq<nat>, lo: nat, hi: nat): (w: seq<nat>)
    requires Rectangular(g) && |v| == |g[0]| && lo <= hi <= |g|
    ensures |w| == |v|
    decreases hi
  {
    if hi == lo then v else Step(g[hi - 1], Advance(g, v, lo, hi - 1))
  }

  // ---------------------------------------------------------------------------
  // Weighted sums: the transition is adjoint to a "gain" per column
  // ---------------------------------------------------------------------------

  /** `v[0] * w[0] + ... + v[n - 1] * w[n - 1]`. */
  function Dot(v: seq<int>, w: seq<int>): int
    requires |v| == |w|
  {
    if v == [] then 0 else Dot(v[..|v| - 1], w[..|w| - 1]) + v[|v| - 1] * w[|w| - 1]
  }

  /** What one timeline in column `c` of `row` is worth, when a timeline entering
      column `j` of the next row is worth `w[j]`. */
  function Gain(row: seq<char>, w: seq<int>, c: nat): int
    requires |row| == |w| && c < |w|
  {
    if row[c] == '.' then w[c]
    else if row[c] == '^' then
      (if c >= 1 then w[c - 1] else 0) + (if c + 1 < |w| then w[c + 1] else 0)
    else 0
  }

  function Gains(row: seq<char>, w: seq<int>): (g: seq<int>)
    requires |row| == |w|
    ensures |g| == |w|
  {
    seq(|w|, c requires 0 <= c < |w| => Gain(row, w, c))
  }

  lemma {:induction false} DotUpdate(v: seq<int>, w: seq<int>, c: nat, x: int)
    requires |v| == |w| && c < |v|
    ensures Dot(v[c := v[c] + x], w) == Dot(v, w) + x * w[c]
    decreases |v|
  {
    var n := |v|;
    var u := v[c := v[c] + x];
    if c < n - 1 {
      assert u[..n - 1] == v[..n - 1][c := v[c] + x];
      DotUpdate(v[..n - 1], w[..n - 1], c, x);
    } else {
      assert u[..n - 1] == v[..n - 1];
      assert (v[c] + x) * w[c] == v[c] * w[c] + x * w[c];
    }
  }

  lemma MulAdd(x: int, p: int, q: int)
    ensures x * (p + q) == x * p + x * q
  {
  }

  lemma DotPushOne(row: seq<char>, acc: seq<nat>, w: seq<int>, c: nat, x: nat)
    requires |row| == |acc| == |w| && c < |acc|
    ensures Dot(PushOne(row, acc, c, x), w) == Dot(acc, w) + x * Gain(row, w, c)
  {
    if row[c] == '.' {
      DotUpdate(acc, w, c, x);
    } else if row[c] == '^' {
      DotPushSplit(row, acc, w, c, x);
    }
  }

  lemma DotPushSplit(row: seq<char>, acc: seq<nat>, w: seq<int>, c: nat, x: nat)
    requires |row| == |acc| == |w| && c < |acc| && row[c] == '^'
    ensures Dot(PushOne(row, acc, c, x), w) == Dot(acc, w) + x * Gain(row, w, c)
  {
    var p := if c >= 1 then w[c - 1] else 0;
    var q := if c + 1 < |w| then w[c + 1] else 0;
    var a := if c - 1 >= 0 then acc[c - 1 := acc[c - 1] + x] else acc;
    var b := if c + 1 < |a| then a[c + 1 := a[c + 1] + x] else a;
    assert PushOne(row, acc, c, x) == b;
    assert Gain(row, w, c) == p + q;
    assert Dot(a, w) == Dot(acc, w) + x * p by {
      if c >= 1 {
        DotUpdate(acc, w, c - 1, x);
      }
    }
    assert Dot(b, w) == Dot(a, w) + x * q by {
      if c + 1 < |a| {
        DotUpdate(a, w, c + 1, x);
      }
    }
    MulAdd(x, p, q);
  }

  lemma {:induction false} DotPushColumns(row: seq<char>, v: seq<nat>, w: seq<int>, k: nat)
    requires |row| == |v| == |w| && k <= |v|
    ensures ColumnsIn(Enumerate(v)[..k], |v|)
    ensures Dot(PushAll(row, Enumerate(v)[..k], |v|), w) == Dot(v[..k], Gains(row, w)[..k])
  {
    var e := Enumerate(v)[..k];
    if k == 0 {
      DotZeros(w);
    } else {
      DotPushColumns(row, v, w, k - 1);
      assert e[..k - 1] == Enumerate(v)[..k - 1];
      DotPushOne(row, PushAll(row, e[..k - 1], |v|), w, k - 1, v[k - 1]);
      assert v[..k][..k - 1] == v[..k - 1];
      assert Gains(row, w)[..k][..k - 1] == Gains(row, w)[..k - 1];
    }
  }

  lemma {:induction false} DotZeros(w: seq<int>)
    ensures Dot(Zeros(|w|), w) == 0
    decreases |w|
  {
    if w != [] {
      assert Zeros(|w|)[..|w| - 1] == Zeros(|w| - 1);
      DotZeros(w[..|w| - 1]);
    }
  }

  /** Weighing the next row by `w` is weighing this row by the gains: the step
      and `Gains` are adjoint. */
  lemma StepAdjoint(row: seq<char>, v: seq<nat>, w: seq<int>)
    requires |row| == |v| == |w|
    ensures Dot(Step(row, v), w) == Dot(v, Gains(row, w))
  {
    DotPushColumns(row, v, w, |v|);
    PushColumnsStep(row, v);
    assert Enumerate(v)[..|v|] == Enumerate(v);
    assert v[..|v|] == v && Gains(row, w)[..|v|] == Gains(row, w);
  }

  function Ones(n: nat): (o: seq<int>)
    ensures |o| == n
  {
    seq(n, i => 1)
  }

  lemma {:induction false} DotOnes(v: seq<int>)
    ensures Dot(v, Ones(|v|)) == Sum(v)
    decreases |v|
  {
    if v != [] {
      assert Ones(|v|)[..|v| - 1] == Ones(|v| - 1);
      DotOnes(v[..|v| - 1]);
    }
  }

  lemma {:induction false} DotBounds(v: seq<nat>, w: seq<int>, hi: int)
    requires |v| == |w| && forall c :: 0 <= c < |w| ==> 0 <= w[c] <= hi
    ensures 0 <= Dot(v, w) <= hi * Sum(v)
    decreases |v|
  {
    if v != [] {
      var n := |v|;
      DotBounds(v[..n - 1], w[..n - 1], hi);
      assert 0 <= v[n - 1] * w[n - 1] <= v[n - 1] * hi by {
        MulBounds(v[n - 1], w[n - 1], hi);
      }
      assert hi * Sum(v) == hi * Sum(v[..n - 1]) + hi * v[n - 1];
    }
  }

  lemma MulBounds(x: nat, y: int, hi: int)
    requires 0 <= y <= hi
    ensures 0 <= x * y <= x * hi
  {
  }

  /** The number of timelines at most doubles from one row to the next, and a
      row passes on exactly the counts of its '.' cells once and of its '^' cells
      once per diagonal neighbour inside the grid. */
  lemma StepTotal(row: seq<char>, v: seq<nat>)
    requires |row| == |v|
    ensures Sum(Step(row, v)) == Dot(v, Gains(row, Ones(|v|)))
    ensures Sum(Step(row, v)) <= 2 * Sum(v)
  {
    var w := Step(row, v);
    var gs := Gains(row, Ones(|v|));
    StepAdjoint(row, v, Ones(|v|));
    DotOnes(w);
    assert Sum(w) == Dot(v, gs);
    GainsOnes(row);
    DotBounds(v, gs, 2);
  }

  /** With every timeline of the next row worth one, a cell is worth 0, 1 or 2. */
  lemma GainsOnes(row: seq<char>)
    ensures forall c :: 0 <= c < |row| ==> 0 <= Gains(row, Ones(|row|))[c] <= 2
  {
    var gs := Gains(row, Ones(|row|));
    forall c | 0 <= c < |row|
      ensures 0 <= gs[c] <= 2
    {
      assert gs[c] == Gain(row, Ones(|row|), c);
    }
  }

  // ---------------------------------------------------------------------------
  // The lru_cache solver
  // ---------------------------------------------------------------------------

  /** `in_bounds(grid, r, c)`. */
  predicate InBounds(g: Grid, r: int, c: int)
    requires |g| > 0
  {
    0 <= r < |g| && 0 <= c < |g[0]|
  }

  /** The memoised `dfs(r, c)`: a beam leaving the grid, through the bottom or
      either side, is one finished timeline; '^' splits it with no bounds check,
      '.' and 'S' let it through, anything else ends it. */
  function Dfs(g: Grid, r: int, c: int): nat
    requires Rectangular(g)
    decreases |g| - r
  {
    if !InBounds(g, r, c) then 1
    else if g[r][c] == '^' then Dfs(g, r + 1, c - 1) + Dfs(g, r + 1, c + 1)
    else if g[r][c] == '.' || g[r][c] == 'S' then Dfs(g, r + 1, c)
    else 0
  }

  /** `count_timelines` of the memoised solver; `None` is the missing 'S'. */
  function MemoTimelines(g: Grid): Option<int>
    requires Rectangular(g)
  {
    match FindStart(g)
    case None => None
    case Some((sr, sc)) => Some(Dfs(g, sr + 1, sc))
  }

  /** The recursion goes one row down per call, so a beam below the last row
      is always a single finished timeline, and a '^' splits even at the edges. */
  lemma DfsBoundary(g: Grid, r: int, c: int)
    requires Rectangular(g)
    ensures r >= |g| ==> Dfs(g, r, c) == 1
    ensures InBounds(g, r, c) && g[r][c] == '^' && c == 0 ==> Dfs(g, r, c) == 1 + Dfs(g, r + 1, 1)
  {
  }

  /** The memo table of `lru_cache`: every entry holds the value `dfs` has there. */
  ghost predicate MemoValid(g: Grid, memo: map<(int, int), nat>)
    requires Rectangular(g)
  {
    forall p :: p in memo ==> memo[p] == Dfs(g, p.0, p.1)
  }

  /** `dfs` with its cache made explicit: the result and every cached entry agree
      with the plain recursion, so memoisation changes no result. */
  method DfsMemo(g: Grid, r: int, c: int, memo: map<(int, int), nat>) returns (v: nat, memo': map<(int, int), nat>)
    requires Rectangular(g) && MemoValid(g, memo)
    ensures v == Dfs(g, r, c)
    ensures MemoValid(g, memo') && memo.Keys <= memo'.Keys
    decreases |g| - r
  {
    if (r, c) in memo {
      return memo[(r, c)], memo;
    }
    if !InBounds(g, r, c) {
      v := 1;
    } else if g[r][c] == '^' {
      var left, right;
      left, memo' := DfsMemo(g, r + 1, c - 1, memo);
      right, memo' := DfsMemo(g, r + 1, c + 1, memo');
      v := left + right;
    } else if g[r][c] == '.' || g[r][c] == 'S' {
      v, memo' := DfsMemo(g, r + 1, c, memo);
    } else {
      v := 0;
    }
    if !InBounds(g, r, c) || !(g[r][c] == '^' || g[r][c] == '.' || g[r][c] == 'S') {
      memo' := memo;
    }
    memo' := memo'[(r, c) := v];
  }

  /** The row of `dfs` values at row `r`. */
  function DfsRow(g: Grid, r: int): (w: seq<int>)
    requires Rectangular(g)
    ensures |w| == |g[0]|
  {
    seq(|g[0]|, c => Dfs(g, r, c))
  }

  /** Below the grid every column is one timeline. */
  lemma DfsRowBelow(g: Grid)
    requires Rectangular(g)
    ensures DfsRow(g, |g|) == Ones(|g[0]|)
  {
  }

  /** A row where no beam can leave through a side and no 'S' is met: there,
      `dfs` is the gain of the row below. */
  ghost predicate Tame(row: seq<char>)
  {
    |row| > 0 && row[0] != '^' && row[|row| - 1] != '^' && forall c :: 0 <= c < |row| ==> row[c] != 'S'
  }

  lemma DfsRowGains(g: Grid, r: nat)
    requires Rectangular(g) && r < |g| && Tame(g[r])
    ensures DfsRow(g, r) == Gains(g[r], DfsRow(g, r + 1))
  {
  }

  /** The memoised solver agrees with the row-by-row transition through the
      bottom of the grid when no beam can be split off a side and no 'S' lies
      below the start: weighing the counts by `dfs` is invariant row by row. */
  lemma {:induction false} DfsAdvance(g: Grid, v: seq<nat>, lo: nat, hi: nat)
    requires Rectangular(g) && |v| == |g[0]| && lo <= hi <= |g|
    requires forall r :: lo <= r < hi ==> Tame(g[r])
    ensures Dot(Advance(g, v, lo, hi), DfsRow(g, hi)) == Dot(v, DfsRow(g, lo))
    decreases hi - lo
  {
    if lo < hi {
      var u := Advance(g, v, lo, hi - 1);
      StepAdjoint(g[hi - 1], u, DfsRow(g, hi));
      DfsRowGains(g, hi - 1);
      DfsAdvance(g, v, lo, hi - 1);
    }
  }

  lemma {:induction false} DotSeed(n: nat, c: nat, w: seq<int>)
    requires c < n == |w|
    ensures Dot(Seed(n, c), w) == w[c]
    decreases n
  {
    if c < n - 1 {
      assert Seed(n, c)[..n - 1] == Seed(n - 1, c);
      DotSeed(n - 1, c, w[..n - 1]);
    } else {
      assert Seed(n, c)[..n - 1] == Zeros(n - 1);
      DotZeros(w[..n - 1]);
    }
  }

  // ---------------------------------------------------------------------------
  // What each solver returns
  // ---------------------------------------------------------------------------

  /** `count_timelines_dp`: one timeline enters the row below 'S'; the rows from
      there to the one before last are pushed down; the result is the sum of the
      last row, whatever sits in it. `None` is the missing 'S' and also the
      `IndexError` of seeding below an 'S' that sits on the last row. */
  function DpTimelines(g: Grid): Option<int>
    requires Rectangular(g)
  {
    match FindStart(g)
    case None => None
    case Some((sr, sc)) =>
      if sr + 1 < |g| then Some(Sum(Advance(g, Seed(|g[0]|, sc), sr + 1, |g| - 1))) else None
  }

  /** `count_timelines_super_fast`: the same seed, pushed through every row
      below 'S' including the last; with 'S' on the last row nothing is pushed
      and the single seeded timeline is the result. */
  function SparseTimelines(g: Grid): Option<int>
    requires Rectangular(g)
  {
    match FindStart(g)
    case None => None
    case Some((sr, sc)) => Some(Sum(Advance(g, Seed(|g[0]|, sc), sr + 1, |g|)))
  }

  const Word: nat := 0x1_0000_0000_0000_0000

  /** `count_timelines` of the C solver: the DP in `unsigned long long`, so the
      sum wraps modulo 2^64; with 'S' on the last row no seed is placed and the
      total is 0. `None` is the process exit when 'S' is missing. */
  function CTimelines(g: Grid): Option<int>
    requires Rectangular(g)
  {
    match FindStart(g)
    case None => None
    case Some((sr, sc)) =>
      if sr + 1 < |g| then Some(Sum(Advance(g, Seed(|g[0]|, sc), sr + 1, |g| - 1)) % Word) else Some(0)
  }

  /** The solvers part where 'S' sits on the last row: the Python DP fails, the
      sparse and memoised solvers count the one beam leaving the grid, and the C
      solver reports 0. */
  lemma StartOnLastRow(g: Grid)
    requires Rectangular(g) && FindStart(g).Some? && FindStart(g).value.0 == |g| - 1
    ensures DpTimelines(g).None?
    ensures SparseTimelines(g) == Some(1) && MemoTimelines(g) == Some(1) && CTimelines(g) == Some(0)
  {
    var sc := FindStart(g).value.1;
    var v := Seed(|g[0]|, sc);
    assert Advance(g, v, |g|, |g|) == v;
    SumSeed(|g[0]|, sc);
  }

  lemma SumSeed(n: nat, c: nat)
    requires c < n
    ensures Sum(Seed(n, c)) == 1
  {
    DotSeed(n, c, Ones(n));
    DotOnes(Seed(n, c));
  }

  /** The C solver computes the Python DP's total modulo 2^64 whenever the latter
      has one. */
  lemma CIsDpModWord(g: Grid)
    requires Rectangular(g) && DpTimelines(g).Some?
    ensures CTimelines(g) == Some(DpTimelines(g).value % Word)
  {
  }

  /** The sparse solver pushes the last row through one more transition than the
      DP: it agrees with the DP when that row is all '.', and never counts more
      than twice the DP's total. */
  lemma SparseAndDp(g: Grid)
    requires Rectangular(g) && DpTimelines(g).Some?
    ensures SparseTimelines(g).Some?
    ensures SparseTimelines(g).value <= 2 * DpTimelines(g).value
    ensures AllDots(g[|g| - 1]) ==> SparseTimelines(g) == DpTimelines(g)
  {
    var (sr, sc) := FindStart(g).value;
    var last := g[|g| - 1];
    var v := Advance(g, Seed(|g[0]|, sc), sr + 1, |g| - 1);
    assert Advance(g, Seed(|g[0]|, sc), sr + 1, |g|) == Step(last, v);
    StepTotal(last, v);
    if AllDots(last) {
      StepDots(last, v);
    }
  }

  /** The memoised solver counts what the sparse solver counts when every row
      below 'S' is tame: no '^' in the first or last column (where `dfs` would
      count a beam split off the grid while the others drop it) and no further
      'S' (which `dfs` passes through and the others stop at). */
  lemma MemoAndSparse(g: Grid)
    requires Rectangular(g) && FindStart(g).Some?
    requires forall r :: FindStart(g).value.0 < r < |g| ==> Tame(g[r])
    ensures MemoTimelines(g) == SparseTimelines(g)
  {
    var (sr, sc) := FindStart(g).value;
    var n := |g[0]|;
    var v := Seed(n, sc);
    DfsAdvance(g, v, sr + 1, |g|);
    DfsRowBelow(g);
    DotOnes(Advance(g, v, sr + 1, |g|));
    DotSeed(n, sc, DfsRow(g, sr + 1));
  }

  function Pow2(k: nat): nat
  {
    if k == 0 then 1 else 2 * Pow2(k - 1)
  }

  /** Every row at most doubles the number of timelines. */
  lemma {:induction false} AdvanceTotal(g: Grid, v: seq<nat>, lo: nat, hi: nat)
    requires Rectangular(g) && |v| == |g[0]| && lo <= hi <= |g|
    ensures Sum(Advance(g, v, lo, hi)) <= Pow2(hi - lo) * Sum(v)
    decreases hi
  {
    if lo < hi {
      var u := Advance(g, v, lo, hi - 1);
      AdvanceTotal(g, v, lo, hi - 1);
      StepTotal(g[hi - 1], u);
      SumNonNegative(v);
      assert 2 * Sum(u) <= 2 * (Pow2(hi - 1 - lo) * Sum(v));
      assert Pow2(hi - lo) * Sum(v) == 2 * (Pow2(hi - 1 - lo) * Sum(v));
    }
  }

  /** The number of timelines leaving the grid is at most 2^k for the k rows a
      beam passes below 'S'. */
  lemma SparseBound(g: Grid)
    requires Rectangular(g) && FindStart(g).Some?
    ensures SparseTimelines(g).value <= Pow2(|g| - FindStart(g).value.0 - 1)
  {
    var (sr, sc) := FindStart(g).value;
    var v := Seed(|g[0]|, sc);
    assert SparseTimelines(g).value == Sum(Advance(g, v, sr + 1, |g|));
    AdvanceTotal(g, v, sr + 1, |g|);
    SumSeed(|g[0]|, sc);
    assert Pow2(|g| - (sr + 1)) * 1 == Pow2(|g| - sr - 1);
  }
}
