/** The table-filling timeline counters of day 7, part 2: the Python DP over a
    list of rows and its C port over `unsigned long long`, with the shared
    `find_start` scan and the grid sizing of the C `load_grid`. */
module TimelineTables {
  import opened Common
  import opened Timelines

  /** `find_start` as written: a row-major scan that stops at the first 'S'. */
  method FindStartScan(g: Grid) returns (start: Option<(nat, nat)>)
    ensures start == FindStart(g)
  {
    for r := 0 to |g|
      invariant FindStartFrom(g, r) == FindStart(g)
    {
      for c := 0 to |g[r]|
        invariant IndexOfS(g[r], c) == IndexOfS(g[r], 0)
      {
        if g[r][c] == 'S' {
          return Some((r, c));
        }
      }
    }
    return None;
  }

  /** Row `r` of a table. */
  ghost function RowOf<T>(dp: array2<T>, r: nat): (row: seq<T>)
    requires r < dp.Length0
    reads dp
    ensures |row| == dp.Length1
  {
    seq(dp.Length1, c requires 0 <= c < dp.Length1 reads dp => dp[r, c])
  }

  /** `propagate_timeline`: pushes `count` timelines from cell `(r, c)` into
      row `r + 1`; the last row pushes nothing, and no other row changes. */
  method PropagateTimeline(g: Grid, dp: array2<nat>, r: nat, c: nat, count: nat, rows: nat, cols: nat)
    requires Rectangular(g) && rows == |g| == dp.Length0 && cols == |g[0]| == dp.Length1
    requires r < rows && c < cols
    modifies dp
    ensures r + 1 < rows ==> RowOf(dp, r + 1) == PushOne(g[r], old(RowOf(dp, r + 1)), c, count)
    ensures forall i, j :: 0 <= i < rows && i != r + 1 && 0 <= j < cols ==> dp[i, j] == old(dp[i, j])
    ensures r + 1 >= rows ==> forall i, j :: 0 <= i < rows && 0 <= j < cols ==> dp[i, j] == old(dp[i, j])
  {
    var cell := g[r][c];
    if cell == '.' && r + 1 < rows {
      dp[r + 1, c] := dp[r + 1, c] + count;
    } else if cell == '^' && r + 1 < rows {
      if c - 1 >= 0 {
        dp[r + 1, c - 1] := dp[r + 1, c - 1] + count;
      }
      if c + 1 < cols {
        dp[r + 1, c + 1] := dp[r + 1, c + 1] + count;
      }
    }
  }

  /** One pass of the inner loop of `count_timelines_dp` over row `r`: every
      column with a positive count is propagated, which leaves the step of
      row `r` in row `r + 1` when that row was all zeros. */
  method PropagateRow(g: Grid, dp: array2<nat>, r: nat, ghost v: seq<nat>)
    requires Rectangular(g) && |g| == dp.Length0 && |g[0]| == dp.Length1
    requires r < |g| && RowOf(dp, r) == v
    requires r + 1 < |g| ==> RowOf(dp, r + 1) == Zeros(|g[0]|)
    modifies dp
    ensures r + 1 < |g| ==> RowOf(dp, r + 1) == Step(g[r], v)
    ensures forall i, j :: 0 <= i < |g| && i != r + 1 && 0 <= j < |g[0]| ==> dp[i, j] == old(dp[i, j])
  {
    var rows, cols := |g|, |g[0]|;
    PushColumnsStep(g[r], v);
    var items := Enumerate(v);
    for c := 0 to cols
      invariant RowOf(dp, r) == v
      invariant r + 1 < rows ==> ColumnsIn(items[..c], cols) && RowOf(dp, r + 1) == PushAll(g[r], items[..c], cols)
      invariant forall i, j :: 0 <= i < rows && i != r + 1 && 0 <= j < cols ==> dp[i, j] == old(dp[i, j])
    {
      var count := dp[r, c];
      assert count == v[c];
      assert items[..c + 1][..c] == items[..c];
      if count > 0 {
        PropagateTimeline(g, dp, r, c, count, rows, cols);
      } else if r + 1 < rows {
        PushZero(g[r], RowOf(dp, r + 1), c);
      }
    }
    assert items[..cols] == items;
  }

  /** `count_timelines_dp`, with the table as a rows-by-cols array. */
  method CountTimelinesDp(g: Grid) returns (total: Option<int>)
    requires Rectangular(g)
    ensures total == DpTimelines(g)
  {
    var rows, cols := |g|, |g[0]|;
    var start := FindStartScan(g);
    if start.None? {
      return None;
    }
    var (sr, sc) := start.value;
    if sr + 1 >= rows {
      // `dp[start_r + 1]` is out of range
      return None;
    }
    ghost var seed := Seed(cols, sc);
    var dp := SeededTable<nat>(rows, cols, sr + 1, sc, 0, 1);
    assert RowOf(dp, sr + 1) == seed;
    FillRows(g, dp, sr + 1, seed);
    var sum := SumRow(dp, rows - 1);
    total := Some(sum);
  }

  /** A rows-by-cols table of zeros, `one` at `(r, c)` when that cell exists:
      the allocation of `dp` followed by the seeding of the cell below 'S'. */
  method SeededTable<T>(rows: nat, cols: nat, r: nat, c: nat, zero: T, one: T) returns (dp: array2<T>)
    ensures fresh(dp) && dp.Length0 == rows && dp.Length1 == cols
    ensures forall i, j :: 0 <= i < rows && 0 <= j < cols ==> dp[i, j] == if i == r && j == c then one else zero
  {
    dp := new T[rows, cols]((i, j) => zero);
    if r < rows && c < cols {
      dp[r, c] := one;
    }
  }

  /** The `for r in range(start_r + 1, rows)` loop of `count_timelines_dp`:
      from the seeded row `lo`, each row is propagated into the next. */
  method FillRows(g: Grid, dp: array2<nat>, lo: nat, ghost seed: seq<nat>)
    requires Rectangular(g) && |g| == dp.Length0 && |g[0]| == dp.Length1
    requires lo < |g| && |seed| == |g[0]| && RowOf(dp, lo) == seed
    requires forall i, j :: lo < i < |g| && 0 <= j < |g[0]| ==> dp[i, j] == 0
    modifies dp
    ensures RowOf(dp, |g| - 1) == Advance(g, seed, lo, |g| - 1)
  {
    var rows, cols := |g|, |g[0]|;
    for r := lo to rows
      invariant r < rows ==> RowOf(dp, r) == Advance(g, seed, lo, r)
      invariant r == rows ==> RowOf(dp, rows - 1) == Advance(g, seed, lo, rows - 1)
      invariant forall i, j :: r < i < rows && 0 <= j < cols ==> dp[i, j] == 0
    {
      ghost var v := Advance(g, seed, lo, r);
      assert r + 1 < rows ==> RowOf(dp, r + 1) == Zeros(cols);
      PropagateRow(g, dp, r, v);
    }
  }

  /** `sum(dp[rows - 1][c] for c in range(cols))`. */
  method SumRow(dp: array2<nat>, r: nat) returns (s: int)
    requires r < dp.Length0
    ensures s == Sum(RowOf(dp, r))
  {
    s := 0;
    for c := 0 to dp.Length1
      invariant s == Sum(RowOf(dp, r)[..c])
    {
      assert RowOf(dp, r)[..c + 1][..c] == RowOf(dp, r)[..c];
      s := s + dp[r, c];
    }
    assert RowOf(dp, r)[..dp.Length1] == RowOf(dp, r);
  }

  // ---------------------------------------------------------------------------
  // The C port: the same table in unsigned 64-bit arithmetic
  // ---------------------------------------------------------------------------

  type U64 = x: int | 0 <= x < Word

  /** A row of counts reduced modulo 2^64. */
  function Wrap(v: seq<int>): (w: seq<U64>)
    ensures |w| == |v|
  {
    seq(|v|, c requires 0 <= c < |v| => v[c] % Word)
  }

  lemma AddWrap(a: int, b: int)
    ensures (a % Word + b % Word) % Word == (a + b) % Word
  {
  }

  /** Only the residues of the counts matter: pushing a wrapped count into a
      wrapped row and wrapping again is wrapping the exact push. */
  lemma PushOneWrap(row: seq<char>, acc: seq<nat>, c: nat, x: nat)
    requires |row| == |acc| && c < |acc|
    ensures Wrap(PushOne(row, Wrap(acc), c, x % Word)) == Wrap(PushOne(row, acc, c, x))
  {
    var lhs, rhs := Wrap(PushOne(row, Wrap(acc), c, x % Word)), Wrap(PushOne(row, acc, c, x));
    forall j | 0 <= j < |acc|
      ensures lhs[j] == rhs[j]
    {
      AddWrap(acc[j], x);
      assert (acc[j] % Word) % Word == acc[j] % Word;
    }
  }

  lemma {:induction false} SumWrap(v: seq<int>)
    ensures Sum(Wrap(v)) % Word == Sum(v) % Word
  {
    if v != [] {
      var n := |v|;
      var a, b, x := Sum(Wrap(v[..n - 1])), Sum(v[..n - 1]), v[n - 1];
      assert Wrap(v)[..n - 1] == Wrap(v[..n - 1]);
      assert Sum(Wrap(v)) == a + x % Word;
      assert Sum(v) == b + x;
      SumWrap(v[..n - 1]);
      calc {
        (a + x % Word) % Word;
        { AddWrap(a, x % Word); WrapTwice(x); }
        (a % Word + x % Word) % Word;
        { assert a % Word == b % Word; }
        (b % Word + x % Word) % Word;
        { AddWrap(b, x); }
        (b + x) % Word;
      }
    }
  }

  lemma WrapTwice(x: int)
    ensures (x % Word) % Word == x % Word
  {
  }

  lemma WrapSmall(v: seq<U64>)
    ensures Wrap(v) == v
  {
  }

  /** The transition of cell `(r, c)` inside `count_timelines`, with `+=` on
      `unsigned long long`. */
  method PropagateWrapped(g: Grid, dp: array2<U64>, r: nat, c: nat, count: U64)
    requires Rectangular(g) && |g| == dp.Length0 && |g[0]| == dp.Length1
    requires r < |g| && c < |g[0]|
    modifies dp
    ensures r + 1 < |g| ==> RowOf(dp, r + 1) == Wrap(PushOne(g[r], old(RowOf(dp, r + 1)), c, count))
    ensures forall i, j :: 0 <= i < |g| && i != r + 1 && 0 <= j < |g[0]| ==> dp[i, j] == old(dp[i, j])
  {
    var rows, cols := |g|, |g[0]|;
    ghost var before := if r + 1 < rows then RowOf(dp, r + 1) else [];
    var cell := g[r][c];
    if cell == '.' {
      if r + 1 < rows {
        dp[r + 1, c] := (dp[r + 1, c] + count) % Word;
      }
    } else if cell == '^' {
      if r + 1 < rows {
        if c - 1 >= 0 {
          dp[r + 1, c - 1] := (dp[r + 1, c - 1] + count) % Word;
        }
        if c + 1 < cols {
          dp[r + 1, c + 1] := (dp[r + 1, c + 1] + count) % Word;
        }
      }
    }
    if r + 1 < rows {
      WrapSmall(before);
      assert RowOf(dp, r + 1) == Wrap(PushOne(g[r], before, c, count));
    }
  }

  /** The row loop of the C `count_timelines`, which skips a zero count. */
  method PropagateRowWrapped(g: Grid, dp: array2<U64>, r: nat, ghost v: seq<nat>)
    requires Rectangular(g) && |g| == dp.Length0 && |g[0]| == dp.Length1
    requires r < |g| && |v| == |g[0]| && RowOf(dp, r) == Wrap(v)
    requires r + 1 < |g| ==> RowOf(dp, r + 1) == Zeros(|g[0]|)
    modifies dp
    ensures r + 1 < |g| ==> RowOf(dp, r + 1) == Wrap(Step(g[r], v))
    ensures forall i, j :: 0 <= i < |g| && i != r + 1 && 0 <= j < |g[0]| ==> dp[i, j] == old(dp[i, j])
  {
    var rows, cols := |g|, |g[0]|;
    PushColumnsStep(g[r], v);
    var items := Enumerate(v);
    assert Wrap(Zeros(cols)) == Zeros(cols);
    for c := 0 to cols
      invariant RowOf(dp, r) == Wrap(v)
      invariant r + 1 < rows ==> ColumnsIn(items[..c], cols) && RowOf(dp, r + 1) == Wrap(PushAll(g[r], items[..c], cols))
      invariant forall i, j :: 0 <= i < rows && i != r + 1 && 0 <= j < cols ==> dp[i, j] == old(dp[i, j])
    {
      var count := dp[r, c];
      assert count == RowOf(dp, r)[c] == Wrap(v)[c] == v[c] % Word;
      if r + 1 < rows {
        WrapColumn(g[r], v, c);
      }
      if count == 0 {
        continue;
      }
      PropagateWrapped(g, dp, r, c, count);
    }
    assert items[..cols] == items;
  }

  /** Pushing column `c`'s wrapped count, or skipping it when it is 0, takes
      the wrapped row from the first `c` columns to the first `c + 1`. */
  lemma WrapColumn(row: seq<char>, v: seq<nat>, c: nat)
    requires |row| == |v| && c < |v|
    ensures ColumnsIn(Enumerate(v)[..c], |v|) && ColumnsIn(Enumerate(v)[..c + 1], |v|)
    ensures var acc := PushAll(row, Enumerate(v)[..c], |v|);
      Wrap(PushOne(row, Wrap(acc), c, v[c] % Word)) == Wrap(PushAll(row, Enumerate(v)[..c + 1], |v|))
      && (v[c] % Word == 0 ==> Wrap(acc) == Wrap(PushAll(row, Enumerate(v)[..c + 1], |v|)))
  {
    var items := Enumerate(v);
    assert items[..c + 1][..c] == items[..c];
    var acc := PushAll(row, items[..c], |v|);
    PushOneWrap(row, acc, c, v[c]);
    if v[c] % Word == 0 {
      PushZero(row, Wrap(acc), c);
      WrapSmall(Wrap(acc));
    }
  }

  /** `count_timelines` of the C solver over a rectangular grid. */
  method CountTimelinesC(g: Grid) returns (total: Option<int>)
    requires Rectangular(g)
    ensures total == CTimelines(g)
  {
    var start := FindStartScan(g);
    if start.None? {
      return None;
    }
    var (sr, sc) := start.value;
    var sum := CountBelow(g, sr, sc);
    total := Some(sum);
  }

  /** The table work of the C `count_timelines` once 'S' is found at
      `(sr, sc)`: seed the cell below, fill the rows, add up the last one. */
  method CountBelow(g: Grid, sr: nat, sc: nat) returns (sum: U64)
    requires Rectangular(g) && sr < |g| && sc < |g[0]|
    ensures sr + 1 < |g| ==> sum == Sum(Advance(g, Seed(|g[0]|, sc), sr + 1, |g| - 1)) % Word
    ensures sr + 1 == |g| ==> sum == 0
  {
    var rows, cols := |g|, |g[0]|;
    ghost var seed := Seed(cols, sc);
    var dp := SeededTable<U64>(rows, cols, sr + 1, sc, 0, 1);
    if sr + 1 < rows {
      assert RowOf(dp, sr + 1) == Wrap(seed);
      FillRowsWrapped(g, dp, sr + 1, seed);
      ghost var exact := Advance(g, seed, sr + 1, rows - 1);
      sum := SumRowWrapped(dp, rows - 1);
      assert sum == Sum(Wrap(exact)) % Word;
      SumWrap(exact);
    } else {
      // the loop does not run and the last row, the one holding 'S', is all zeros
      assert RowOf(dp, rows - 1) == Zeros(cols);
      sum := SumRowWrapped(dp, rows - 1);
      SumZeros(cols);
    }
  }

  /** The `for (r = start_r + 1; r < rows; r++)` loop of the C
      `count_timelines`. */
  method FillRowsWrapped(g: Grid, dp: array2<U64>, lo: nat, ghost seed: seq<nat>)
    requires Rectangular(g) && |g| == dp.Length0 && |g[0]| == dp.Length1
    requires lo < |g| && |seed| == |g[0]| && RowOf(dp, lo) == Wrap(seed)
    requires forall i, j :: lo < i < |g| && 0 <= j < |g[0]| ==> dp[i, j] == 0
    modifies dp
    ensures RowOf(dp, |g| - 1) == Wrap(Advance(g, seed, lo, |g| - 1))
  {
    var rows, cols := |g|, |g[0]|;
    for r := lo to rows
      invariant r < rows ==> RowOf(dp, r) == Wrap(Advance(g, seed, lo, r))
      invariant r == rows ==> RowOf(dp, rows - 1) == Wrap(Advance(g, seed, lo, rows - 1))
      invariant forall i, j :: r < i < rows && 0 <= j < cols ==> dp[i, j] == 0
    {
      ghost var v := Advance(g, seed, lo, r);
      assert r + 1 < rows ==> RowOf(dp, r + 1) == Zeros(cols);
      PropagateRowWrapped(g, dp, r, v);
    }
  }

  /** `total += dp[rows - 1][c]` on `unsigned long long`. */
  method SumRowWrapped(dp: array2<U64>, r: nat) returns (s: U64)
    requires r < dp.Length0
    ensures s == Sum(RowOf(dp, r)) % Word
  {
    s := 0;
    ghost var row := RowOf(dp, r);
    for c := 0 to dp.Length1
      invariant s == Sum(row[..c]) % Word
    {
      assert row[..c + 1][..c] == row[..c];
      AddWrap(Sum(row[..c]), row[c]);
      assert dp[r, c] == row[c] == row[c] % Word;
      s := (s + dp[r, c]) % Word;
    }
    assert row[..dp.Length1] == row;
  }

  lemma {:induction false} SumZeros(n: nat)
    ensures Sum(Zeros(n)) == 0
  {
    if n > 0 {
      assert Zeros(n)[..n - 1] == Zeros(n - 1);
      SumZeros(n - 1);
    }
  }

  // ---------------------------------------------------------------------------
  // The sizing in the C load_grid
  // ---------------------------------------------------------------------------

  const MaxRows: nat := 10000

  /** One trailing newline removed, as `load_grid` does after `fgets`. */
  function Chomp(line: string): (r: string)
    ensures |r| <= |line|
  {
    if |line| > 0 && line[|line| - 1] == '\n' then line[..|line| - 1] else line
  }

  /** The length of the longest line, 0 for no lines. */
  function MaxLength(lines: seq<string>): nat
  {
    if lines == [] then 0
    else var m := MaxLength(lines[..|lines| - 1]);
      if |lines[|lines| - 1]| > m then |lines[|lines| - 1]| else m
  }

  /** `cols` bounds every line and is the length of one of them. */
  lemma {:induction false} MaxLengthSpec(lines: seq<string>)
    ensures forall i :: 0 <= i < |lines| ==> |lines[i]| <= MaxLength(lines)
    ensures lines != [] ==> exists i :: 0 <= i < |lines| && |lines[i]| == MaxLength(lines)
    ensures lines == [] ==> MaxLength(lines) == 0
  {
    if lines != [] {
      var pre := lines[..|lines| - 1];
      MaxLengthSpec(pre);
      if |lines[|lines| - 1]| <= MaxLength(pre) && pre != [] {
        var i :| 0 <= i < |pre| && |pre[i]| == MaxLength(pre);
        assert |lines[i]| == MaxLength(lines);
      }
    }
  }

  /** The row and column counting of `load_grid`, over the lines `fgets` hands
      back: every line loses one trailing newline, `rows` counts the lines and
      `cols` keeps the longest length seen. */
  method LoadGridSize(lines: seq<string>) returns (grid: seq<string>, rows: nat, cols: nat)
    requires |lines| <= MaxRows
    ensures |grid| == rows == |lines|
    ensures forall i :: 0 <= i < |lines| ==> grid[i] == Chomp(lines[i])
    ensures cols == MaxLength(grid)
  {
    grid, rows, cols := [], 0, 0;
    while rows < |lines|
      invariant rows <= |lines| && |grid| == rows
      invariant forall i :: 0 <= i < rows ==> grid[i] == Chomp(lines[i])
      invariant cols == MaxLength(grid)
    {
      var line := Chomp(lines[rows]);
      assert (grid + [line])[..rows] == grid;
      grid := grid + [line];
      if |line| > cols {
        cols := |line|;
      }
      rows := rows + 1;
    }
  }

  /** When every line has the same length, the grid the C solver indexes is
      rectangular and `cols` is that length, so the solver reads no cell past
      the end of a row. */
  lemma LoadGridRectangular(grid: seq<string>)
    requires grid != [] && forall i :: 0 <= i < |grid| ==> |grid[i]| == |grid[0]|
    ensures Rectangular(grid) && MaxLength(grid) == |grid[0]|
  {
    MaxLengthSpec(grid);
  }
}
