/** Day 9, part 1: two-dimensional prefix sums over the filled canvas, and the
    search for the largest rectangle spanned by two red tiles that lies wholly
    inside the polygon. */
module LargestRectangle {
  import opened Common
  import opened PolygonCanvas

  // ------------------------------------------------------------ prefix sums

  /** The sum of cells `x0 .. x1 - 1` of row `r`. */
  function CellsSum(canvas: array2<int>, r: nat, x0: nat, x1: nat): int
    requires r < canvas.Length0 && x0 <= x1 <= canvas.Length1
    reads canvas
    decreases x1 - x0
  {
    if x0 == x1 then 0 else CellsSum(canvas, r, x0, x1 - 1) + canvas[r, x1 - 1]
  }

  /** The sum of the cells in rows `y0 .. y1 - 1` and columns `x0 .. x1 - 1`. */
  function RegionSum(canvas: array2<int>, y0: nat, y1: nat, x0: nat, x1: nat): int
    requires y0 <= y1 <= canvas.Length0 && x0 <= x1 <= canvas.Length1
    reads canvas
    decreases y1 - y0
  {
    if y0 == y1 then 0 else RegionSum(canvas, y0, y1 - 1, x0, x1) + CellsSum(canvas, y1 - 1, x0, x1)
  }

  /** `ps` holds, at (y, x), the sum of the canvas above row y and left of column x. */
  predicate IsPrefixSum(ps: array2<int>, canvas: array2<int>)
    reads ps, canvas
  {
    ps.Length0 == canvas.Length0 + 1 && ps.Length1 == canvas.Length1 + 1 &&
    forall y, x :: 0 <= y < ps.Length0 && 0 <= x < ps.Length1 ==> ps[y, x] == RegionSum(canvas, 0, y, 0, x)
  }

  lemma CellsSplit(canvas: array2<int>, r: nat, x0: nat, x1: nat)
    requires r < canvas.Length0 && x0 <= x1 <= canvas.Length1
    ensures CellsSum(canvas, r, 0, x1) == CellsSum(canvas, r, 0, x0) + CellsSum(canvas, r, x0, x1)
    decreases x1 - x0
  {
    if x0 < x1 {
      CellsSplit(canvas, r, x0, x1 - 1);
    }
  }

  /** A region's sum from four prefix sums: inclusion and exclusion. */
  lemma {:induction false} RegionFromPrefix(canvas: array2<int>, y0: nat, y1: nat, x0: nat, x1: nat)
    requires y0 <= y1 <= canvas.Length0 && x0 <= x1 <= canvas.Length1
    ensures RegionSum(canvas, y0, y1, x0, x1) ==
              RegionSum(canvas, 0, y1, 0, x1) - RegionSum(canvas, 0, y0, 0, x1)
              - RegionSum(canvas, 0, y1, 0, x0) + RegionSum(canvas, 0, y0, 0, x0)
    decreases y1
  {
    if y0 < y1 {
      RegionFromPrefix(canvas, y0, y1 - 1, x0, x1);
      CellsSplit(canvas, y1 - 1, x0, x1);
    }
  }

  /** The recurrence `compute_prefix_sum` fills its table with. */
  lemma PrefixStep(canvas: array2<int>, y: nat, x: nat)
    requires 0 < y <= canvas.Length0 && 0 < x <= canvas.Length1
    ensures RegionSum(canvas, 0, y, 0, x) ==
              RegionSum(canvas, 0, y, 0, x - 1) + RegionSum(canvas, 0, y - 1, 0, x)
              - RegionSum(canvas, 0, y - 1, 0, x - 1) + canvas[y - 1, x - 1]
  {
    RegionFromPrefix(canvas, y - 1, y, x - 1, x);
  }

  lemma {:induction false} EmptyColumn(canvas: array2<int>, y: nat)
    requires y <= canvas.Length0
    ensures RegionSum(canvas, 0, y, 0, 0) == 0
  {
    if y > 0 {
      EmptyColumn(canvas, y - 1);
    }
  }

  /** `compute_prefix_sum`: a table one larger in each direction, with a zero
      first row and column. */
  method ComputePrefixSum(canvas: array2<int>) returns (ps: array2<int>)
    ensures fresh(ps)
    ensures IsPrefixSum(ps, canvas)
  {
    ps := new int[canvas.Length0 + 1, canvas.Length1 + 1]((y, x) => 0);
    forall x | 0 <= x < ps.Length1
      ensures RegionSum(canvas, 0, 0, 0, x) == 0
    {
    }
    for y := 1 to canvas.Length0 + 1
      invariant forall r, x :: 0 <= r < y && 0 <= x < ps.Length1 ==> ps[r, x] == RegionSum(canvas, 0, r, 0, x)
      invariant forall r, x :: y <= r < ps.Length0 && 0 <= x < ps.Length1 ==> ps[r, x] == 0
    {
      PrefixRow(ps, canvas, y - 1, y);
    }
  }

  /** One row of `compute_prefix_sum`, from the row above it. */
  method PrefixRow(ps: array2<int>, canvas: array2<int>, above: nat, y: nat)
    requires ps != canvas
    requires ps.Length0 == canvas.Length0 + 1 && ps.Length1 == canvas.Length1 + 1
    requires y == above + 1 && y <= canvas.Length0
    requires ps[y, 0] == 0
    requires forall x :: 0 <= x < ps.Length1 ==> ps[above, x] == RegionSum(canvas, 0, above, 0, x)
    modifies ps
    ensures forall x :: 0 <= x < ps.Length1 ==> ps[y, x] == RegionSum(canvas, 0, y, 0, x)
    ensures forall r, x :: 0 <= r < ps.Length0 && r != y && 0 <= x < ps.Length1 ==> ps[r, x] == old(ps[r, x])
  {
    EmptyColumn(canvas, y);
    for x := 1 to canvas.Length1 + 1
      invariant forall c :: 0 <= c < x ==> ps[y, c] == RegionSum(canvas, 0, y, 0, c)
      invariant forall r, c :: 0 <= r < ps.Length0 && r != y && 0 <= c < ps.Length1 ==> ps[r, c] == old(ps[r, c])
    {
      PrefixStep(canvas, y, x);
      ps[y, x] := ps[y, x - 1] + ps[y - 1, x] - ps[y - 1, x - 1] + canvas[y - 1, x - 1];
    }
  }

  // -------------------------------------------------------- filled regions

  predicate Cells01(canvas: array2<int>)
    reads canvas
  {
    forall r, c :: 0 <= r < canvas.Length0 && 0 <= c < canvas.Length1 ==> 0 <= canvas[r, c] <= 1
  }

  predicate AllOnes(canvas: array2<int>, y0: nat, y1: nat, x0: nat, x1: nat)
    requires y1 <= canvas.Length0 && x1 <= canvas.Length1
    reads canvas
  {
    forall r, c :: y0 <= r < y1 && x0 <= c < x1 ==> canvas[r, c] == 1
  }

  lemma {:induction false} CellsFull(canvas: array2<int>, r: nat, x0: nat, x1: nat)
    requires Cells01(canvas)
    requires r < canvas.Length0 && x0 <= x1 <= canvas.Length1
    ensures CellsSum(canvas, r, x0, x1) <= x1 - x0
    ensures CellsSum(canvas, r, x0, x1) == x1 - x0 <==> AllOnes(canvas, r, r + 1, x0, x1)
    decreases x1 - x0
  {
    if x0 < x1 {
      CellsFull(canvas, r, x0, x1 - 1);
    }
  }

  lemma {:induction false} RegionFull(canvas: array2<int>, y0: nat, y1: nat, x0: nat, x1: nat)
    requires Cells01(canvas)
    requires y0 <= y1 <= canvas.Length0 && x0 <= x1 <= canvas.Length1
    ensures RegionSum(canvas, y0, y1, x0, x1) <= (y1 - y0) * (x1 - x0)
    ensures RegionSum(canvas, y0, y1, x0, x1) == (y1 - y0) * (x1 - x0) <==> AllOnes(canvas, y0, y1, x0, x1)
    decreases y1 - y0
  {
    if y0 < y1 {
      var h := y1 - 1 - y0;
      var w := x1 - x0;
      RegionFull(canvas, y0, y1 - 1, x0, x1);
      CellsFull(canvas, y1 - 1, x0, x1);
      assert (h + 1) * w == h * w + w;
      if AllOnes(canvas, y0, y1 - 1, x0, x1) && AllOnes(canvas, y1 - 1, y1, x0, x1) {
        assert AllOnes(canvas, y0, y1, x0, x1);
      }
    }
  }

  // ------------------------------------------------------------- the search

  /** The corners of the rectangle spanned by two points, as `(x0, y0, x1, y1)`. */
  function Corners(a: Point, b: Point): (rect: (int, int, int, int))
    ensures rect.0 <= rect.2 && rect.1 <= rect.3
    ensures rect.0 in {a.x, b.x} && rect.2 in {a.x, b.x} && rect.1 in {a.y, b.y} && rect.3 in {a.y, b.y}
  {
    (Min(a.x, b.x), Min(a.y, b.y), Max(a.x, b.x), Max(a.y, b.y))
  }

  /** The number of tiles in the rectangle spanned by two points, edges included. */
  function Area(a: Point, b: Point): (n: int)
    ensures n >= 1
  {
    var rect := Corners(a, b);
    var w, h := rect.2 - rect.0 + 1, rect.3 - rect.1 + 1;
    assert w * h >= w;
    w * h
  }

  /** What `find_largest_rectangle` needs of its arguments: every coordinate
      has a compressed index that leaves room for the `+ 1` of `is_filled`. */
  predicate Indexed(points: seq<Point>, ps: array2<int>, xx: map<int, int>, yy: map<int, int>)
    reads ps
  {
    ps.Length0 > 0 && ps.Length1 > 0 && Mapped(points, xx, yy, ps.Length1 - 1, ps.Length0 - 1)
  }

  /** `is_filled`: the prefix sums say the compressed rectangle between the
      coordinates is full, its sum being its number of cells. */
  predicate IsFilled(ps: array2<int>, xx: map<int, int>, yy: map<int, int>, x0: int, x1: int, y0: int, y1: int)
    requires x0 in xx && x1 in xx && y0 in yy && y1 in yy
    requires 0 <= xx[x0] < ps.Length1 - 1 && 0 <= xx[x1] < ps.Length1 - 1
    requires 0 <= yy[y0] < ps.Length0 - 1 && 0 <= yy[y1] < ps.Length0 - 1
    reads ps
  {
    var xx0, xx1, yy0, yy1 := xx[x0], xx[x1], yy[y0], yy[y1];
    var filled := ps[yy1 + 1, xx1 + 1] - ps[yy0, xx1 + 1] - ps[yy1 + 1, xx0] + ps[yy0, xx0];
    filled == (yy1 - yy0 + 1) * (xx1 - xx0 + 1)
  }

  /** For the prefix sums of a 0/1 canvas, `is_filled` holds exactly when every
      cell of the compressed rectangle is 1. */
  lemma IsFilledMeansFull(ps: array2<int>, canvas: array2<int>, xx: map<int, int>, yy: map<int, int>,
                          x0: int, x1: int, y0: int, y1: int)
    requires IsPrefixSum(ps, canvas) && Cells01(canvas)
    requires x0 in xx && x1 in xx && y0 in yy && y1 in yy
    requires 0 <= xx[x0] <= xx[x1] < canvas.Length1 && 0 <= yy[y0] <= yy[y1] < canvas.Length0
    ensures IsFilled(ps, xx, yy, x0, x1, y0, y1) <==> AllOnes(canvas, yy[y0], yy[y1] + 1, xx[x0], xx[x1] + 1)
  {
    var xx0, xx1, yy0, yy1 := xx[x0], xx[x1], yy[y0], yy[y1];
    RegionFromPrefix(canvas, yy0, yy1 + 1, xx0, xx1 + 1);
    RegionFull(canvas, yy0, yy1 + 1, xx0, xx1 + 1);
  }

  /** The pair (a, b) qualifies: its rectangle is filled. */
  predicate Qualifies(points: seq<Point>, ps: array2<int>, xx: map<int, int>, yy: map<int, int>, a: nat, b: nat)
    requires a < |points| && b < |points|
    requires Indexed(points, ps, xx, yy)
    reads ps
  {
    var rect := Corners(points[a], points[b]);
    assert points[a] in points && points[b] in points;
    IsFilled(ps, xx, yy, rect.0, rect.2, rect.1, rect.3)
  }

  /** The pair (a, b) comes before (i, j) in the order the loops visit them. */
  predicate Before(a: nat, b: nat, i: nat, j: nat)
  {
    a < i || (a == i && b < j)
  }

  /** (i, j) is the first qualifying pair of greatest area among the pairs
      visited before (ti, tj). */
  ghost predicate Winner(points: seq<Point>, ps: array2<int>, xx: map<int, int>, yy: map<int, int>,
                   i: nat, j: nat, ti: nat, tj: nat)
    requires Indexed(points, ps, xx, yy)
    reads ps
  {
    i < j < |points| && Before(i, j, ti, tj) && Qualifies(points, ps, xx, yy, i, j) &&
    (forall a, b :: 0 <= a < b < |points| && Before(a, b, ti, tj) && Qualifies(points, ps, xx, yy, a, b) ==>
       Area(points[a], points[b]) <= Area(points[i], points[j])) &&
    (forall a, b :: 0 <= a < b < |points| && Before(a, b, i, j) && Qualifies(points, ps, xx, yy, a, b) ==>
       Area(points[a], points[b]) < Area(points[i], points[j]))
  }

  /** No pair visited before (ti, tj) qualifies. */
  ghost predicate NoneBefore(points: seq<Point>, ps: array2<int>, xx: map<int, int>, yy: map<int, int>, ti: nat, tj: nat)
    requires Indexed(points, ps, xx, yy)
    reads ps
  {
    forall a, b :: 0 <= a < b < |points| && Before(a, b, ti, tj) ==> !Qualifies(points, ps, xx, yy, a, b)
  }

  /** The state of `max_area` and `max_rect` once the pairs before (ti, tj)
      have been visited, with (bi, bj) the pair that set them. */
  ghost predicate Scanned(points: seq<Point>, ps: array2<int>, xx: map<int, int>, yy: map<int, int>,
                          best: Option<(int, int, int, int)>, maxArea: int, bi: nat, bj: nat, ti: nat, tj: nat)
    requires Indexed(points, ps, xx, yy)
    reads ps
  {
    (best.None? <==> maxArea == 0) &&
    (best.None? ==> NoneBefore(points, ps, xx, yy, ti, tj)) &&
    (best.Some? ==> Winner(points, ps, xx, yy, bi, bj, ti, tj) &&
                    best.value == Corners(points[bi], points[bj]) && maxArea == Area(points[bi], points[bj]))
  }

  /** Visiting (i, j) without replacing the best keeps the state. */
  lemma ScanKeep(points: seq<Point>, ps: array2<int>, xx: map<int, int>, yy: map<int, int>,
                 best: Option<(int, int, int, int)>, maxArea: int, bi: nat, bj: nat, i: nat, j: nat)
    requires Indexed(points, ps, xx, yy) && i < j < |points|
    requires Scanned(points, ps, xx, yy, best, maxArea, bi, bj, i, j)
    requires !(Area(points[i], points[j]) > maxArea && Qualifies(points, ps, xx, yy, i, j))
    ensures Scanned(points, ps, xx, yy, best, maxArea, bi, bj, i, j + 1)
  {
    if best.None? {
      assert !Qualifies(points, ps, xx, yy, i, j);
    }
  }

  /** Visiting a qualifying (i, j) of strictly greater area makes it the best. */
  lemma ScanReplace(points: seq<Point>, ps: array2<int>, xx: map<int, int>, yy: map<int, int>,
                    best: Option<(int, int, int, int)>, maxArea: int, bi: nat, bj: nat, i: nat, j: nat)
    requires Indexed(points, ps, xx, yy) && i < j < |points|
    requires Scanned(points, ps, xx, yy, best, maxArea, bi, bj, i, j)
    requires Area(points[i], points[j]) > maxArea && Qualifies(points, ps, xx, yy, i, j)
    ensures Scanned(points, ps, xx, yy, Some(Corners(points[i], points[j])), Area(points[i], points[j]), i, j, i, j + 1)
  {
  }

  /** The first pair of a row follows the last pair of the previous row. */
  lemma ScanRowStart(points: seq<Point>, ps: array2<int>, xx: map<int, int>, yy: map<int, int>,
                     best: Option<(int, int, int, int)>, maxArea: int, bi: nat, bj: nat, i: nat)
    requires Indexed(points, ps, xx, yy)
    requires Scanned(points, ps, xx, yy, best, maxArea, bi, bj, i, 0)
    ensures Scanned(points, ps, xx, yy, best, maxArea, bi, bj, i, i + 1)
  {
  }

  lemma ScanRowEnd(points: seq<Point>, ps: array2<int>, xx: map<int, int>, yy: map<int, int>,
                   best: Option<(int, int, int, int)>, maxArea: int, bi: nat, bj: nat, i: nat)
    requires Indexed(points, ps, xx, yy)
    requires Scanned(points, ps, xx, yy, best, maxArea, bi, bj, i, |points|)
    ensures Scanned(points, ps, xx, yy, best, maxArea, bi, bj, i + 1, 0)
  {
  }

  /** `find_largest_rectangle`: of all pairs of points, in the order of the two
      loops, the one whose filled rectangle has the greatest area; a later pair
      must be strictly larger to replace it. */
  method FindLargestRectangle(points: seq<Point>, ps: array2<int>, xx: map<int, int>, yy: map<int, int>)
    returns (best: Option<(int, int, int, int)>)
    requires Indexed(points, ps, xx, yy)
    ensures best.None? <==> forall a, b :: 0 <= a < b < |points| ==> !Qualifies(points, ps, xx, yy, a, b)
    ensures best.Some? ==> exists i, j :: 0 <= i < j < |points| && Winner(points, ps, xx, yy, i, j, |points|, 0) &&
                                          best.value == Corners(points[i], points[j])
  {
    var maxArea := 0;
    best := None;
    ghost var bi: nat, bj: nat := 0, 0;
    var n := |points|;
    for i := 0 to n
      invariant Scanned(points, ps, xx, yy, best, maxArea, bi, bj, i, 0)
    {
      best, maxArea, bi, bj := ScanRow(points, ps, xx, yy, i, best, maxArea, bi, bj);
    }
    if best.Some? {
      assert Qualifies(points, ps, xx, yy, bi, bj);
    }
  }

  /** The inner loop of `find_largest_rectangle`: pairs (i, j) for j > i. */
  method ScanRow(points: seq<Point>, ps: array2<int>, xx: map<int, int>, yy: map<int, int>, i: nat,
                 best0: Option<(int, int, int, int)>, area0: int, ghost bi0: nat, ghost bj0: nat)
    returns (best: Option<(int, int, int, int)>, maxArea: int, ghost bi: nat, ghost bj: nat)
    requires Indexed(points, ps, xx, yy) && i < |points|
    requires Scanned(points, ps, xx, yy, best0, area0, bi0, bj0, i, 0)
    ensures Scanned(points, ps, xx, yy, best, maxArea, bi, bj, i + 1, 0)
  {
    best, maxArea, bi, bj := best0, area0, bi0, bj0;
    ScanRowStart(points, ps, xx, yy, best, maxArea, bi, bj, i);
    for j := i + 1 to |points|
      invariant Scanned(points, ps, xx, yy, best, maxArea, bi, bj, i, j)
    {
      best, maxArea, bi, bj := Visit(points, ps, xx, yy, i, j, best, maxArea, bi, bj);
    }
    ScanRowEnd(points, ps, xx, yy, best, maxArea, bi, bj, i);
  }

  /** One pass of the inner loop: pair (i, j) replaces the best so far when its
      area is strictly larger and its rectangle is filled. */
  method Visit(points: seq<Point>, ps: array2<int>, xx: map<int, int>, yy: map<int, int>, i: nat, j: nat,
               best0: Option<(int, int, int, int)>, area0: int, ghost bi0: nat, ghost bj0: nat)
    returns (best: Option<(int, int, int, int)>, maxArea: int, ghost bi: nat, ghost bj: nat)
    requires Indexed(points, ps, xx, yy) && i < j < |points|
    requires Scanned(points, ps, xx, yy, best0, area0, bi0, bj0, i, j)
    ensures Scanned(points, ps, xx, yy, best, maxArea, bi, bj, i, j + 1)
  {
    best, maxArea, bi, bj := best0, area0, bi0, bj0;
    var a, b := points[i], points[j];
    var rect := Corners(a, b);
    var area := (rect.2 - rect.0 + 1) * (rect.3 - rect.1 + 1);
    assert area == Area(a, b);
    assert a in points && b in points;
    if area > maxArea && IsFilled(ps, xx, yy, rect.0, rect.2, rect.1, rect.3) {
      ScanReplace(points, ps, xx, yy, best, maxArea, bi, bj, i, j);
      maxArea := area;
      best := Some(rect);
      bi, bj := i, j;
    } else {
      ScanKeep(points, ps, xx, yy, best, maxArea, bi, bj, i, j);
    }
  }
}
