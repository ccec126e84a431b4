/** The beam simulation of day 7, part 1: beams enter below 'S' and are
    processed one row per round from a queue; a '.' cell is marked '|' the
    first time a beam passes it and later beams on it stop, while a '^' splits
    every beam that reaches it and counts one division each time. */
module Beams {
  import opened Common
  import opened Timelines

  // ---------------------------------------------------------------------------
  // What the simulation computes, row by row
  // ---------------------------------------------------------------------------

  /** The beams a row passes on: a '.' cell expands once however many beams
      reach it; every other cell keeps its count. */
  function Once(row: seq<char>, a: seq<nat>): (o: seq<nat>)
    requires |row| == |a|
    ensures |o| == |a|
  {
    seq(|a|, c requires 0 <= c < |a| => if row[c] == '.' && a[c] > 1 then 1 else a[c])
  }

  /** The beams reaching the next row: the timeline transition applied to what
      the row passes on. */
  function BeamStep(row: seq<char>, a: seq<nat>): (b: seq<nat>)
    requires |row| == |a|
    ensures |b| == |a|
  {
    Step(row, Once(row, a))
  }

  /** The beams reaching row `hi` when `a` reaches row `lo`. */
  function Beam(g: Grid, a: seq<nat>, lo: nat, hi: nat): (b: seq<nat>)
    requires Rectangular(g) && |a| == |g[0]| && lo <= hi <= |g|
    ensures |b| == |a|
    decreases hi
  {
    if hi == lo then a else BeamStep(g[hi - 1], Beam(g, a, lo, hi - 1))
  }

  /** The beams of `a` that land on a '^' of `row`: one division each. */
  function SplitHits(row: seq<char>, a: seq<nat>): nat
    requires |row| == |a|
  {
    if a == [] then 0
    else SplitHits(row[..|row| - 1], a[..|a| - 1]) + (if row[|row| - 1] == '^' then a[|a| - 1] else 0)
  }

  /** The divisions counted in rows `lo .. hi - 1`. */
  function Hits(g: Grid, a: seq<nat>, lo: nat, hi: nat): nat
    requires Rectangular(g) && |a| == |g[0]| && lo <= hi <= |g|
    decreases hi
  {
    if hi == lo then 0 else Hits(g, a, lo, hi - 1) + SplitHits(g[hi - 1], Beam(g, a, lo, hi - 1))
  }

  /** A row after its beams have passed: a '.' reached by a beam is '|'. */
  function Marked(row: seq<char>, a: seq<nat>): (m: seq<char>)
    requires |row| == |a|
    ensures |m| == |row|
  {
    seq(|row|, c requires 0 <= c < |row| => if row[c] == '.' && a[c] > 0 then '|' else row[c])
  }

  /** The division count `simulate_beams` reports; `None` is the `ValueError`
      of a grid without 'S'. With 'S' on the last row the one beam is out of
      bounds and the count is 0. */
  function BeamDivisions(g: Grid): Option<nat>
    requires Rectangular(g)
  {
    match FindStart(g)
    case None => None
    case Some((sr, sc)) => Some(Hits(g, Seed(|g[0]|, sc), sr + 1, |g|))
  }

  /** The grid once the beams of rows `lo .. k - 1` have passed. */
  function Progress(g: Grid, a: seq<nat>, lo: nat, k: nat): (f: Grid)
    requires Rectangular(g) && |a| == |g[0]| && lo <= k <= |g|
    ensures |f| == |g|
  {
    seq(|g|, i requires 0 <= i < |g| => if lo <= i < k then Marked(g[i], Beam(g, a, lo, i)) else g[i])
  }

  /** The grid once the simulation is over: every row from the one below 'S'
      down is marked where a beam passed. */
  function FinalGrid(g: Grid): (f: Grid)
    requires Rectangular(g) && FindStart(g).Some?
    ensures |f| == |g|
  {
    var (sr, sc) := FindStart(g).value;
    Progress(g, Seed(|g[0]|, sc), sr + 1, |g|)
  }

  // ---------------------------------------------------------------------------
  // Beams against timelines
  // ---------------------------------------------------------------------------

  ghost predicate AtMost(a: seq<nat>, b: seq<nat>)
  {
    |a| == |b| && forall c :: 0 <= c < |a| ==> a[c] <= b[c]
  }

  lemma StepMonotone(row: seq<char>, a: seq<nat>, b: seq<nat>)
    requires |row| == |a| && AtMost(a, b)
    ensures AtMost(Step(row, a), Step(row, b))
  {
  }

  /** Each beam of part 1 is a timeline of part 2 that has not merged with
      another at a '.': row by row, there are never more beams than timelines. */
  lemma {:induction false} BeamsBelowTimelines(g: Grid, a: seq<nat>, lo: nat, hi: nat)
    requires Rectangular(g) && |a| == |g[0]| && lo <= hi <= |g|
    ensures AtMost(Beam(g, a, lo, hi), Advance(g, a, lo, hi))
    decreases hi
  {
    if lo < hi {
      var b, t := Beam(g, a, lo, hi - 1), Advance(g, a, lo, hi - 1);
      BeamsBelowTimelines(g, a, lo, hi - 1);
      assert AtMost(Once(g[hi - 1], b), t);
      StepMonotone(g[hi - 1], Once(g[hi - 1], b), t);
    }
  }

  /** Without '.' cells nothing merges: the beams are exactly the timelines. */
  lemma {:induction false} NoDotsBeamsAreTimelines(g: Grid, a: seq<nat>, lo: nat, hi: nat)
    requires Rectangular(g) && |a| == |g[0]| && lo <= hi <= |g|
    requires forall r, c :: lo <= r < hi && 0 <= c < |g[0]| ==> g[r][c] != '.'
    ensures Beam(g, a, lo, hi) == Advance(g, a, lo, hi)
    decreases hi
  {
    if lo < hi {
      NoDotsBeamsAreTimelines(g, a, lo, hi - 1);
      var b := Beam(g, a, lo, hi - 1);
      assert Once(g[hi - 1], b) == b;
    }
  }

  // ---------------------------------------------------------------------------
  // The queue
  // ---------------------------------------------------------------------------

  /** How many queued beams sit in each column. */
  function Counts(items: seq<(int, int)>, n: nat): (w: seq<nat>)
    ensures |w| == n
  {
    if items == [] then Zeros(n)
    else
      var last := items[|items| - 1];
      var w := Counts(items[..|items| - 1], n);
      if 0 <= last.1 < n then w[last.1 := w[last.1] + 1] else w
  }

  lemma CountsAppend(items: seq<(int, int)>, x: (int, int), n: nat)
    requires 0 <= x.1 < n
    ensures Counts(items + [x], n) == Counts(items, n)[x.1 := Counts(items, n)[x.1] + 1]
  {
    assert (items + [x])[..|items|] == items;
  }

  lemma SplitHitsAdd(row: seq<char>, a: seq<nat>, c: nat)
    requires |row| == |a| && c < |a|
    ensures SplitHits(row, a[c := a[c] + 1]) == SplitHits(row, a) + (if row[c] == '^' then 1 else 0)
    decreases |a|
  {
    var n := |a|;
    if c < n - 1 {
      assert a[c := a[c] + 1][..n - 1] == a[..n - 1][c := a[c] + 1];
      SplitHitsAdd(row[..n - 1], a[..n - 1], c);
    } else {
      assert a[c := a[c] + 1][..n - 1] == a[..n - 1];
    }
  }

  // ---------------------------------------------------------------------------
  // process_beam and simulate_beams
  // ---------------------------------------------------------------------------

  /** The grid as rows of characters. */
  ghost function Cells(grid: array2<char>): (g: Grid)
    reads grid
    ensures |g| == grid.Length0
  {
    seq(grid.Length0, i requires 0 <= i < grid.Length0 reads grid =>
      seq(grid.Length1, j requires 0 <= j < grid.Length1 reads grid => grid[i, j]))
  }

  /** `in_bounds(grid, r, c)`. */
  predicate InGrid(grid: array2<char>, r: int, c: int)
  {
    0 <= r < grid.Length0 && 0 <= c < grid.Length1
  }

  /** The positions `process_beam` appends for a beam on a cell holding `cell`:
      the in-bounds diagonals below a '^', left first; the cell below a '.'. */
  function Successors(rows: nat, cols: nat, r: int, c: int, cell: char): seq<(int, int)>
  {
    if cell == '^' then
      (if 0 <= r + 1 < rows && 0 <= c - 1 < cols then [(r + 1, c - 1)] else [])
      + (if 0 <= r + 1 < rows && 0 <= c + 1 < cols then [(r + 1, c + 1)] else [])
    else if cell == '.' && 0 <= r + 1 < rows && 0 <= c < cols then [(r + 1, c)]
    else []
  }

  /** `process_beam`: out of bounds nothing happens; otherwise a '^' counts one
      division, the successors are appended, and a '.' is marked '|' and
      reported as an updated line. '^', 'S' and '|' are never overwritten. */
  method ProcessBeam(grid: array2<char>, r: int, c: int, beams: seq<(int, int)>)
      returns (divisions: nat, lineUpdated: bool, beams': seq<(int, int)>)
    modifies grid
    ensures !InGrid(grid, r, c) ==> divisions == 0 && !lineUpdated && beams' == beams
    ensures InGrid(grid, r, c) ==>
      var cell := old(grid[r, c]);
      divisions == (if cell == '^' then 1 else 0)
      && lineUpdated == (cell == '.')
      && beams' == beams + Successors(grid.Length0, grid.Length1, r, c, cell)
      && grid[r, c] == (if cell == '.' then '|' else cell)
    ensures forall i, j :: 0 <= i < grid.Length0 && 0 <= j < grid.Length1 && (i != r || j != c) ==> grid[i, j] == old(grid[i, j])
    ensures !InGrid(grid, r, c) ==> forall i, j :: 0 <= i < grid.Length0 && 0 <= j < grid.Length1 ==> grid[i, j] == old(grid[i, j])
  {
    beams' := beams;
    if !InGrid(grid, r, c) {
      return 0, false, beams';
    }
    var cell := grid[r, c];
    divisions, lineUpdated := 0, false;
    if cell == '^' {
      divisions := 1;
      if InGrid(grid, r + 1, c - 1) {
        beams' := beams' + [(r + 1, c - 1)];
      }
      if InGrid(grid, r + 1, c + 1) {
        beams' := beams' + [(r + 1, c + 1)];
      }
    } else if cell == '.' && InGrid(grid, r + 1, c) {
      beams' := beams' + [(r + 1, c)];
    }
    if grid[r, c] == '.' {
      grid[r, c] := '|';
      lineUpdated := true;
    }
  }

  /** One more beam on column `c` adds one pushed beam when the cell is a '^'
      or a '.' no beam has reached yet, and changes nothing otherwise. */
  lemma OnceMore(row: seq<char>, cnt: seq<nat>, c: nat)
    requires |row| == |cnt| && c < |cnt|
    ensures BeamStep(row, cnt[c := cnt[c] + 1])
      == if row[c] == '^' || (row[c] == '.' && cnt[c] == 0) then PushOne(row, BeamStep(row, cnt), c, 1) else BeamStep(row, cnt)
  {
    var n := |cnt|;
    var o, o' := Once(row, cnt), Once(row, cnt[c := cnt[c] + 1]);
    if row[c] == '.' && cnt[c] > 0 {
      assert o' == o;
    } else {
      assert o' == o[c := o[c] + 1];
      StepAdd(row, o, c, 1);
    }
  }

  /** The successors of a cell, appended to the queue, push one beam into the
      next row's counts. */
  lemma SuccessorCounts(row: seq<char>, added: seq<(int, int)>, rows: nat, k: nat, c: nat, cell: char)
    requires |row| > c && k + 1 < rows && (cell == row[c] || cell == '|')
    ensures var n := |row|; var w := Counts(added, n);
      Counts(added + Successors(rows, n, k, c, cell), n)
        == if cell == '^' || cell == '.' then PushOne(row, w, c, 1) else w
  {
    var n := |row|;
    var succ := Successors(rows, n, k, c, cell);
    if cell == '^' {
      SplitterCounts(row, added, rows, k, c);
    } else if cell == '.' {
      CountsAppend(added, (k + 1, c), n);
    } else {
      assert added + succ == added;
    }
  }

  lemma SplitterCounts(row: seq<char>, added: seq<(int, int)>, rows: nat, k: nat, c: nat)
    requires |row| > c && k + 1 < rows && row[c] == '^'
    ensures Counts(added + Successors(rows, |row|, k, c, '^'), |row|) == PushOne(row, Counts(added, |row|), c, 1)
  {
    var n := |row|;
    var w := Counts(added, n);
    var left: seq<(int, int)> := if 0 <= c - 1 < n then [(k + 1, c - 1)] else [];
    var right: seq<(int, int)> := if c + 1 < n then [(k + 1, c + 1)] else [];
    var mid := added + left;
    var fin := mid + right;
    assert added + Successors(rows, n, k, c, '^') == fin;
    MaybeAppend(added, left, k + 1, c - 1, n);
    MaybeAppend(mid, right, k + 1, c + 1, n);
    var p := PushOne(row, w, c, 1);
    forall j | 0 <= j < n
      ensures Counts(fin, n)[j] == p[j]
    {
      SplitAt(row, w, c, j);
    }
  }

  /** Column `j` after one beam is pushed through the '^' in column `c`. */
  lemma SplitAt(row: seq<char>, w: seq<nat>, c: nat, j: nat)
    requires |row| == |w| && c < |w| && row[c] == '^' && j < |w|
    ensures PushOne(row, w, c, 1)[j] == w[j] + (if j == c - 1 then 1 else 0) + (if j == c + 1 then 1 else 0)
  {
    var a := if c - 1 >= 0 then w[c - 1 := w[c - 1] + 1] else w;
    assert a[j] == w[j] + (if j == c - 1 then 1 else 0);
  }

  /** Appending the beam `(r, c)` when column `c` exists, or nothing when it
      does not, counts one more beam in that column. */
  lemma MaybeAppend(items: seq<(int, int)>, tail: seq<(int, int)>, r: int, c: int, n: nat)
    requires tail == if 0 <= c < n then [(r, c)] else []
    ensures forall j :: 0 <= j < n ==> Counts(items + tail, n)[j] == Counts(items, n)[j] + (if j == c then 1 else 0)
  {
    if 0 <= c < n {
      CountsAppend(items, (r, c), n);
    } else {
      assert items + tail == items;
    }
  }

  /** Processing the beam in column `c` of row `k` of a round that has already
      processed the beams counted in `cnt`: the division count, the appended
      beams and the mark follow the row's totals one beam at a time. */
  lemma BeamFacts(row: seq<char>, cnt: seq<nat>, c: nat, rows: nat, k: nat, added: seq<(int, int)>)
    requires |row| == |cnt| && c < |cnt| && k < rows
    requires Counts(added, |cnt|) == if k + 1 < rows then BeamStep(row, cnt) else Zeros(|cnt|)
    ensures var cnt' := cnt[c := cnt[c] + 1];
      var added' := added + Successors(rows, |cnt|, k, c, Marked(row, cnt)[c]);
      Counts(added', |cnt|) == (if k + 1 < rows then BeamStep(row, cnt') else Zeros(|cnt|))
      && SplitHits(row, cnt') == SplitHits(row, cnt) + (if Marked(row, cnt)[c] == '^' then 1 else 0)
      && Marked(row, cnt') == Marked(row, cnt)[c := if Marked(row, cnt)[c] == '.' then '|' else Marked(row, cnt)[c]]
  {
    var cell := Marked(row, cnt)[c];
    SplitHitsAdd(row, cnt, c);
    if k + 1 < rows {
      OnceMore(row, cnt, c);
      SuccessorCounts(row, added, rows, k, c, cell);
    } else {
      assert Successors(rows, |cnt|, k, c, cell) == [];
      assert added + [] == added;
    }
  }

  /** The beams appended during round `k`: all on row `k + 1`, inside the grid. */
  ghost predicate NextRowBeams(added: seq<(int, int)>, k: nat, rows: nat, cols: nat)
  {
    forall t :: 0 <= t < |added| ==> added[t].0 == k + 1 && 0 <= added[t].1 < cols && k + 1 < rows
  }

  /** What the beams of `cnt` on row `k` send to the next row. */
  function NextCounts(g: Grid, k: nat, cnt: seq<nat>): (w: seq<nat>)
    requires Rectangular(g) && k < |g| && |cnt| == |g[0]|
    ensures |w| == |cnt|
  {
    if k + 1 < |g| then BeamStep(g[k], cnt) else Zeros(|cnt|)
  }

  ghost predicate RowIs(grid: array2<char>, k: nat, m: seq<char>)
    reads grid
  {
    k < grid.Length0 && |m| == grid.Length1 && forall j :: 0 <= j < grid.Length1 ==> grid[k, j] == m[j]
  }

  ghost predicate OtherRowsAre(grid: array2<char>, k: nat, before: Grid)
    reads grid
  {
    |before| == grid.Length0
    && (forall i :: 0 <= i < |before| ==> |before[i]| == grid.Length1)
    && forall i, j :: 0 <= i < grid.Length0 && i != k && 0 <= j < grid.Length1 ==> grid[i, j] == before[i][j]
  }

  /** The bookkeeping of one pop on row `k`: the beam at column `c` adds one
      to the counts of row `k`, its successors extend the next row, a '^' adds
      one division and a '.' is marked. */
  lemma PopCounts(g: Grid, k: nat, done: seq<(int, int)>, c: nat, added: seq<(int, int)>, cell: char)
    requires Rectangular(g) && k < |g| && c < |g[0]|
    requires NextRowBeams(added, k, |g|, |g[0]|)
    requires Counts(added, |g[0]|) == NextCounts(g, k, Counts(done, |g[0]|))
    requires cell == Marked(g[k], Counts(done, |g[0]|))[c]
    ensures var added' := added + Successors(|g|, |g[0]|, k, c, cell);
      var cnt' := Counts(done + [(k, c)], |g[0]|);
      NextRowBeams(added', k, |g|, |g[0]|)
      && Counts(added', |g[0]|) == NextCounts(g, k, cnt')
      && SplitHits(g[k], cnt') == SplitHits(g[k], Counts(done, |g[0]|)) + (if cell == '^' then 1 else 0)
      && Marked(g[k], cnt') == Marked(g[k], Counts(done, |g[0]|))[c := if cell == '.' then '|' else cell]
  {
    var cols := |g[0]|;
    var cnt := Counts(done, cols);
    CountsAppend(done, (k, c), cols);
    assert Counts(done + [(k, c)], cols) == cnt[c := cnt[c] + 1];
    assert Counts(added, cols) == if k + 1 < |g| then BeamStep(g[k], cnt) else Zeros(cols);
    BeamFacts(g[k], cnt, c, |g|, k, added);
    var succ := Successors(|g|, cols, k, c, cell);
    assert NextRowBeams(added + succ, k, |g|, cols) by {
      assert forall t :: 0 <= t < |succ| ==> succ[t].0 == k + 1 && 0 <= succ[t].1 < cols && k + 1 < |g|;
    }
  }

  /** One iteration of the inner loop of `simulate_beams`: `queue.popleft()`
      followed by `process_beam`, on a beam of row `k`. */
  method PopBeam(grid: array2<char>, queue: seq<(int, int)>, ghost g: Grid, ghost k: nat,
                 ghost done: seq<(int, int)>, ghost rest: seq<(int, int)>, ghost added: seq<(int, int)>, ghost before: Grid)
      returns (d: nat, queue': seq<(int, int)>, ghost added': seq<(int, int)>)
    requires Rectangular(g) && |g| == grid.Length0 && |g[0]| == grid.Length1 && k <= |g|
    requires queue == rest + added && rest != [] && rest[0].0 == k && 0 <= rest[0].1 < |g[0]|
    requires NextRowBeams(added, k, |g|, |g[0]|)
    requires k < |g| ==> Counts(added, |g[0]|) == NextCounts(g, k, Counts(done, |g[0]|))
    requires k < |g| ==> RowIs(grid, k, Marked(g[k], Counts(done, |g[0]|)))
    requires OtherRowsAre(grid, k, before)
    modifies grid
    ensures queue' == rest[1..] + added'
    ensures NextRowBeams(added', k, |g|, |g[0]|)
    ensures k < |g| ==> Counts(added', |g[0]|) == NextCounts(g, k, Counts(done + [rest[0]], |g[0]|))
    ensures k < |g| ==> SplitHits(g[k], Counts(done + [rest[0]], |g[0]|)) == SplitHits(g[k], Counts(done, |g[0]|)) + d
    ensures k >= |g| ==> d == 0
    ensures k < |g| ==> RowIs(grid, k, Marked(g[k], Counts(done + [rest[0]], |g[0]|)))
    ensures OtherRowsAre(grid, k, before)
  {
    var rows, cols := grid.Length0, grid.Length1;
    var (r, c) := queue[0];
    assert (r, c) == rest[0];
    var q := queue[1..];
    assert q == rest[1..] + added;
    if r < rows {
      ghost var m := Marked(g[k], Counts(done, cols));
      PopCounts(g, k, done, c, added, m[c]);
      d, queue' := MarkBeam(grid, r, c, q, m, before);
      added' := added + Successors(rows, cols, r, c, m[c]);
    } else {
      var lineUpdated;
      d, lineUpdated, queue' := ProcessBeam(grid, r, c, q);
      added' := added;
    }
  }

  /** `process_beam` on a cell inside the grid whose row reads `m`: only that
      cell can change, from '.' to '|'. */
  method MarkBeam(grid: array2<char>, r: nat, c: nat, q: seq<(int, int)>, ghost m: seq<char>, ghost before: Grid)
      returns (d: nat, queue': seq<(int, int)>)
    requires r < grid.Length0 && c < grid.Length1
    requires RowIs(grid, r, m) && OtherRowsAre(grid, r, before)
    modifies grid
    ensures d == (if m[c] == '^' then 1 else 0)
    ensures queue' == q + Successors(grid.Length0, grid.Length1, r, c, m[c])
    ensures RowIs(grid, r, m[c := if m[c] == '.' then '|' else m[c]])
    ensures OtherRowsAre(grid, r, before)
  {
    var lineUpdated;
    d, lineUpdated, queue' := ProcessBeam(grid, r, c, q);
  }

  /** One round of `simulate_beams`: the beams queued at its start, all on row
      `k`, are popped and processed; what is queued at the end is the next row. */
  method Round(grid: array2<char>, beams: seq<(int, int)>, ghost g: Grid, ghost k: nat, ghost before: Grid)
      returns (divisions: nat, next: seq<(int, int)>)
    requires Rectangular(g) && |g| == grid.Length0 && |g[0]| == grid.Length1
    requires k <= |g| && forall t :: 0 <= t < |beams| ==> beams[t].0 == k && 0 <= beams[t].1 < |g[0]|
    requires k < |g| ==> RowIs(grid, k, g[k])
    requires OtherRowsAre(grid, k, before)
    modifies grid
    ensures forall t :: 0 <= t < |next| ==> next[t].0 == k + 1 && 0 <= next[t].1 < |g[0]|
    ensures k + 1 >= |g| ==> next == []
    ensures k < |g| ==> Counts(next, |g[0]|) == NextCounts(g, k, Counts(beams, |g[0]|))
    ensures divisions == if k < |g| then SplitHits(g[k], Counts(beams, |g[0]|)) else 0
    ensures k < |g| ==> RowIs(grid, k, Marked(g[k], Counts(beams, |g[0]|)))
    ensures OtherRowsAre(grid, k, before)
  {
    var rows, cols := grid.Length0, grid.Length1;
    var queue := beams;
    divisions := 0;
    ghost var added: seq<(int, int)> := [];
    if k < rows {
      ZeroHits(g[k], Zeros(cols));
      assert beams[..0] == [];
      assert Marked(g[k], Zeros(cols)) == g[k];
    }
    for i := 0 to |beams|
      invariant queue == beams[i..] + added
      invariant NextRowBeams(added, k, rows, cols)
      invariant k < rows ==> Counts(added, cols) == NextCounts(g, k, Counts(beams[..i], cols))
      invariant divisions == if k < rows then SplitHits(g[k], Counts(beams[..i], cols)) else 0
      invariant k < rows ==> RowIs(grid, k, Marked(g[k], Counts(beams[..i], cols)))
      invariant OtherRowsAre(grid, k, before)
    {
      assert beams[..i + 1] == beams[..i] + [beams[i]];
      var d;
      d, queue, added := PopBeam(grid, queue, g, k, beams[..i], beams[i..], added, before);
      assert beams[i..][1..] == beams[i + 1..];
      divisions := divisions + d;
    }
    assert beams[..|beams|] == beams;
    assert queue == added by {
      assert beams[|beams|..] == [];
    }
    assert |added| > 0 ==> added[0].0 == k + 1 && k + 1 < rows;
    next := queue;
  }

  /** The array holds the rows of `p`. */
  ghost predicate Matches(grid: array2<char>, p: Grid)
    reads grid
  {
    |p| == grid.Length0 && (forall i :: 0 <= i < |p| ==> |p[i]| == grid.Length1)
    && forall i, j :: 0 <= i < grid.Length0 && 0 <= j < grid.Length1 ==> grid[i, j] == p[i][j]
  }

  lemma MatchesSplit(grid: array2<char>, p: Grid, k: nat)
    requires Matches(grid, p)
    ensures OtherRowsAre(grid, k, p) && (k < |p| ==> RowIs(grid, k, p[k]))
  {
  }

  lemma MatchesJoin(grid: array2<char>, p: Grid, k: nat, m: seq<char>)
    requires OtherRowsAre(grid, k, p) && (k < |p| ==> RowIs(grid, k, m))
    ensures Matches(grid, if k < |p| then p[k := m] else p)
  {
  }

  lemma MatchesCells(grid: array2<char>, p: Grid)
    requires Matches(grid, p)
    ensures Cells(grid) == p
  {
    forall i | 0 <= i < |p|
      ensures Cells(grid)[i] == p[i]
    {
    }
  }

  /** `find_start` on the grid being simulated. */
  method FindStartInGrid(grid: array2<char>) returns (start: Option<(nat, nat)>)
    ensures start == FindStart(Cells(grid))
  {
    ghost var g := Cells(grid);
    for r := 0 to grid.Length0
      invariant FindStartFrom(g, r) == FindStart(g)
    {
      for c := 0 to grid.Length1
        invariant IndexOfS(g[r], c) == IndexOfS(g[r], 0)
      {
        assert g[r][c] == grid[r, c];
        if grid[r, c] == 'S' {
          return Some((r, c));
        }
      }
    }
    return None;
  }

  /** `simulate_beams` without its event stream: the division count it finally
      reports, and the grid it leaves marked. An empty grid has no 'S', so
      `find_start` raises. */
  method SimulateBeams(grid: array2<char>) returns (divisions: Option<nat>)
    modifies grid
    ensures grid.Length0 > 0 ==> Rectangular(old(Cells(grid)))
    ensures divisions == if grid.Length0 == 0 then None else BeamDivisions(old(Cells(grid)))
    ensures divisions.Some? ==> Cells(grid) == FinalGrid(old(Cells(grid)))
    ensures divisions.None? ==> Cells(grid) == old(Cells(grid))
  {
    if grid.Length0 == 0 {
      return None;
    }
    divisions := SimulateRows(grid);
  }

  /** `simulate_beams` on a grid with at least one row. */
  method SimulateRows(grid: array2<char>) returns (divisions: Option<nat>)
    requires grid.Length0 > 0
    modifies grid
    ensures Rectangular(old(Cells(grid)))
    ensures divisions == BeamDivisions(old(Cells(grid)))
    ensures divisions.Some? ==> Cells(grid) == FinalGrid(old(Cells(grid)))
    ensures divisions.None? ==> Cells(grid) == old(Cells(grid))
  {
    ghost var g := Cells(grid);
    var rows, cols := grid.Length0, grid.Length1;
    assert Rectangular(g);
    var start := FindStartInGrid(grid);
    if start.None? {
      return None;
    }
    var (sr, sc) := start.value;
    var beams := [(sr + 1, sc)];
    ghost var seed := Seed(cols, sc);
    StartSimulated(grid, g, sr, sc, beams);
    var total := RunRounds(grid, g, seed, sr + 1, beams);
    divisions := Some(total);
    MatchesCells(grid, Progress(g, seed, sr + 1, rows));
  }

  /** The state before the first round: one beam below 'S', nothing counted,
      nothing marked; the final grid and the count are those the rounds reach. */
  lemma StartSimulated(grid: array2<char>, g: Grid, sr: nat, sc: nat, beams: seq<(int, int)>)
    requires g == Cells(grid) && grid.Length0 > 0
    requires FindStart(g) == Some((sr, sc)) && beams == [(sr + 1, sc)]
    ensures Rectangular(g) && |g[0]| == grid.Length1
    ensures Simulated(grid, g, Seed(grid.Length1, sc), sr + 1, sr + 1, beams, 0)
    ensures FinalGrid(g) == Progress(g, Seed(grid.Length1, sc), sr + 1, |g|)
    ensures BeamDivisions(g) == Some(Hits(g, Seed(grid.Length1, sc), sr + 1, |g|))
  {
    CellsShape(grid);
    var seed := Seed(grid.Length1, sc);
    assert sr < |g| && sc < |g[sr]| == grid.Length1;
    assert Beam(g, seed, sr + 1, sr + 1) == seed && Hits(g, seed, sr + 1, sr + 1) == 0;
    OneBeamCounts(beams, grid.Length1, sr + 1, sc);
    NothingMarked(g, seed, sr + 1);
    CellsMatch(grid);
    StartResult(g, sr, sc);
  }

  lemma StartResult(g: Grid, sr: nat, sc: nat)
    requires Rectangular(g) && FindStart(g) == Some((sr, sc))
    ensures sr < |g|
    ensures FinalGrid(g) == Progress(g, Seed(|g[0]|, sc), sr + 1, |g|)
    ensures BeamDivisions(g) == Some(Hits(g, Seed(|g[0]|, sc), sr + 1, |g|))
  {
  }

  lemma CellsShape(grid: array2<char>)
    requires grid.Length0 > 0
    ensures Rectangular(Cells(grid)) && |Cells(grid)[0]| == grid.Length1
  {
  }

  lemma CellsMatch(grid: array2<char>)
    ensures Matches(grid, Cells(grid))
  {
  }

  /** A queue of one beam in column `c` counts one beam there. */
  lemma OneBeamCounts(beams: seq<(int, int)>, n: nat, r: int, c: nat)
    requires beams == [(r, c)] && c < n
    ensures Counts(beams, n) == Seed(n, c)
  {
    assert beams[..0] == [];
  }

  /** Before any round, the grid is unmarked. */
  lemma NothingMarked(g: Grid, a: seq<nat>, lo: nat)
    requires Rectangular(g) && |a| == |g[0]| && lo <= |g|
    ensures Progress(g, a, lo, lo) == g
  {
  }

  /** The `while queue` loop of `simulate_beams`, from the first beam below
      'S' to the empty queue. */
  method RunRounds(grid: array2<char>, ghost g: Grid, ghost seed: seq<nat>, ghost lo: nat, beams: seq<(int, int)>)
      returns (total: int)
    requires Simulated(grid, g, seed, lo, lo, beams, 0)
    modifies grid
    ensures total == Hits(g, seed, lo, |g|)
    ensures Matches(grid, Progress(g, seed, lo, |g|))
  {
    var queue := beams;
    var rows := grid.Length0;
    total := 0;
    ghost var k := lo;
    while |queue| > 0
      invariant Simulated(grid, g, seed, lo, k, queue, total)
      decreases rows - k, |queue|
    {
      total, queue := NextRound(grid, g, seed, lo, k, queue, total);
      k := NextRow(k, rows);
    }
    SimulationDone(grid, g, seed, lo, k, total);
  }

  /** The state of `simulate_beams` between rounds: the queue holds the beams
      of row `k`, which count as the model's beams there, `total` the divisions
      of the rows above, and the grid has the rows above marked. */
  ghost predicate Simulated(grid: array2<char>, g: Grid, seed: seq<nat>, lo: nat, k: nat,
                            beams: seq<(int, int)>, total: int)
    reads grid
  {
    Rectangular(g) && |g| == grid.Length0 && |g[0]| == grid.Length1 && |seed| == |g[0]|
    && 0 < lo <= k <= |g|
    && (forall t :: 0 <= t < |beams| ==> beams[t].0 == k && 0 <= beams[t].1 < |g[0]|)
    && (k < |g| ==> Counts(beams, |g[0]|) == Beam(g, seed, lo, k))
    && total == Hits(g, seed, lo, k)
    && Matches(grid, Progress(g, seed, lo, k))
  }

  /** The row the queue moves to after a round on row `k`. */
  function NextRow(k: nat, rows: nat): nat
  {
    if k < rows then k + 1 else k
  }

  /** One round of the `while queue` loop of `simulate_beams`: the beams of row
      `k` are processed, their divisions added, and the queue moves to row
      `k + 1`. */
  method NextRound(grid: array2<char>, ghost g: Grid, ghost seed: seq<nat>, ghost lo: nat, ghost k: nat,
                   beams: seq<(int, int)>, total: int)
      returns (total': int, next: seq<(int, int)>)
    requires Simulated(grid, g, seed, lo, k, beams, total)
    modifies grid
    ensures Simulated(grid, g, seed, lo, NextRow(k, |g|), next, total')
    ensures k == |g| ==> next == []
  {
    ghost var p := Progress(g, seed, lo, k);
    ghost var cols := |g[0]|;
    ghost var hits := Hits(g, seed, lo, k);
    assert total == hits;
    MatchesSplit(grid, p, k);
    var d;
    d, next := Round(grid, beams, g, k, p);
    total' := total + d;
    if k < |g| {
      ghost var b := Beam(g, seed, lo, k);
      assert Counts(beams, cols) == b;
      RoundNext(g, seed, lo, k);
      MatchesJoin(grid, p, k, Marked(g[k], b));
    } else {
      MatchesJoin(grid, p, k, []);
    }
  }

  /** What one round adds to the model's state: the next row's beams, its
      divisions and its marks. */
  lemma RoundNext(g: Grid, a: seq<nat>, lo: nat, k: nat)
    requires Rectangular(g) && |a| == |g[0]| && lo <= k < |g|
    ensures k + 1 < |g| ==> Beam(g, a, lo, k + 1) == NextCounts(g, k, Beam(g, a, lo, k))
    ensures Hits(g, a, lo, k + 1) == Hits(g, a, lo, k) + SplitHits(g[k], Beam(g, a, lo, k))
    ensures Progress(g, a, lo, k)[k] == g[k]
    ensures Progress(g, a, lo, k)[k := Marked(g[k], Beam(g, a, lo, k))] == Progress(g, a, lo, k + 1)
  {
    ProgressNext(g, a, lo, k);
  }

  /** Once the queue is empty no beam is left: the divisions counted so far
      are all of them, and the grid is marked as in the final one. */
  lemma SimulationDone(grid: array2<char>, g: Grid, seed: seq<nat>, lo: nat, k: nat, total: int)
    requires Simulated(grid, g, seed, lo, k, [], total)
    ensures total == Hits(g, seed, lo, |g|)
    ensures Matches(grid, Progress(g, seed, lo, |g|))
  {
    if k < |g| {
      assert Beam(g, seed, lo, k) == Zeros(|g[0]|);
      QuietRows(g, seed, lo, k, |g|);
    }
    QuietMarks(g, seed, lo, k);
  }

  lemma ProgressNext(g: Grid, a: seq<nat>, lo: nat, k: nat)
    requires Rectangular(g) && |a| == |g[0]| && lo <= k < |g|
    ensures Progress(g, a, lo, k)[k] == g[k]
    ensures Progress(g, a, lo, k)[k := Marked(g[k], Beam(g, a, lo, k))] == Progress(g, a, lo, k + 1)
  {
  }

  /** Once no beam reaches a row, none reaches any row below, and no division
      is counted there. */
  lemma QuietRows(g: Grid, a: seq<nat>, lo: nat, k: nat, hi: nat)
    requires Rectangular(g) && |a| == |g[0]| && lo <= k <= hi <= |g|
    requires Beam(g, a, lo, k) == Zeros(|g[0]|)
    ensures Beam(g, a, lo, hi) == Zeros(|g[0]|) && Hits(g, a, lo, hi) == Hits(g, a, lo, k)
  {
    QuietBeams(g, a, lo, k, hi);
    QuietHits(g, a, lo, k, hi);
  }

  lemma {:induction false} QuietBeams(g: Grid, a: seq<nat>, lo: nat, k: nat, hi: nat)
    requires Rectangular(g) && |a| == |g[0]| && lo <= k <= hi <= |g|
    requires Beam(g, a, lo, k) == Zeros(|g[0]|)
    ensures Beam(g, a, lo, hi) == Zeros(|g[0]|)
    decreases hi
  {
    if k < hi {
      var h := hi - 1;
      var z := Zeros(|g[0]|);
      QuietBeams(g, a, lo, k, h);
      QuietStep(g[h], z);
      BeamUnfold(g, a, lo, h, hi);
    }
  }

  lemma {:induction false} QuietHits(g: Grid, a: seq<nat>, lo: nat, k: nat, hi: nat)
    requires Rectangular(g) && |a| == |g[0]| && lo <= k <= hi <= |g|
    requires Beam(g, a, lo, k) == Zeros(|g[0]|)
    ensures Hits(g, a, lo, hi) == Hits(g, a, lo, k)
    decreases hi
  {
    if k < hi {
      var h := hi - 1;
      QuietHits(g, a, lo, k, h);
      QuietBeams(g, a, lo, k, h);
      ZeroHits(g[h], Zeros(|g[0]|));
      BeamUnfold(g, a, lo, h, hi);
    }
  }

  /** One more row of the model: the step of the row above. */
  lemma BeamUnfold(g: Grid, a: seq<nat>, lo: nat, h: nat, hi: nat)
    requires Rectangular(g) && |a| == |g[0]| && lo <= h && hi == h + 1 && hi <= |g|
    ensures Beam(g, a, lo, hi) == BeamStep(g[h], Beam(g, a, lo, h))
    ensures Hits(g, a, lo, hi) == Hits(g, a, lo, h) + SplitHits(g[h], Beam(g, a, lo, h))
  {
  }

  /** No beam in, no beam out. */
  lemma QuietStep(row: seq<char>, z: seq<nat>)
    requires z == Zeros(|row|)
    ensures BeamStep(row, z) == z
  {
    assert Once(row, z) == z;
    forall c | 0 <= c < |row|
      ensures Step(row, z)[c] == 0
    {
      assert Step(row, z)[c] == Pull(row, z, c);
    }
  }

  lemma {:induction false} ZeroHits(row: seq<char>, a: seq<nat>)
    requires |row| == |a| && a == Zeros(|a|)
    ensures SplitHits(row, a) == 0
  {
    if a != [] {
      assert a[..|a| - 1] == Zeros(|a| - 1);
      ZeroHits(row[..|row| - 1], a[..|a| - 1]);
    }
  }

  /** Rows no beam reaches keep their cells. */
  lemma QuietMarks(g: Grid, a: seq<nat>, lo: nat, k: nat)
    requires Rectangular(g) && |a| == |g[0]| && lo <= k <= |g|
    requires k < |g| ==> Beam(g, a, lo, k) == Zeros(|g[0]|)
    ensures Progress(g, a, lo, k) == Progress(g, a, lo, |g|)
  {
    forall i | k <= i < |g|
      ensures Marked(g[i], Beam(g, a, lo, i)) == g[i]
    {
      QuietRows(g, a, lo, k, i);
    }
  }
}
