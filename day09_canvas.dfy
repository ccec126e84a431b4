/** Day 9, part 1: the polygon drawn on the compressed grid, then filled row by
    row with the even-odd rule. */
module PolygonCanvas {

  datatype Point = Point(x: int, y: int)

  function Min(a: int, b: int): int { if a <= b then a else b }
  function Max(a: int, b: int): int { if a <= b then b else a }

  /** Every coordinate of every point has a compressed index inside the canvas. */
  predicate Mapped(points: seq<Point>, xx: map<int, int>, yy: map<int, int>, width: nat, height: nat)
  {
    forall p | p in points :: p.x in xx && 0 <= xx[p.x] < width && p.y in yy && 0 <= yy[p.y] < height
  }

  /** Cell (r, c) lies on the edge from `points[i]` to the next point, the last
      point closing the loop back to the first. A diagonal edge covers nothing. */
  predicate OnEdge(points: seq<Point>, xx: map<int, int>, yy: map<int, int>, i: nat, r: int, c: int)
    requires i < |points|
    requires forall p | p in points :: p.x in xx && p.y in yy
  {
    var a := points[i];
    var b := points[(i + 1) % |points|];
    if a.x == b.x then
      c == xx[a.x] && Min(yy[a.y], yy[b.y]) <= r <= Max(yy[a.y], yy[b.y])
    else if a.y == b.y then
      r == yy[a.y] && Min(xx[a.x], xx[b.x]) <= c <= Max(xx[a.x], xx[b.x])
    else
      false
  }

  /** Cell (r, c) lies on one of the first `n` edges. */
  predicate OnOutline(points: seq<Point>, xx: map<int, int>, yy: map<int, int>, n: nat, r: int, c: int)
    requires n <= |points|
    requires forall p | p in points :: p.x in xx && p.y in yy
  {
    n > 0 && (OnOutline(points, xx, yy, n - 1, r, c) || OnEdge(points, xx, yy, n - 1, r, c))
  }

  /** The outline is exactly the union of the edges drawn so far. */
  lemma {:induction false} OutlineIsUnion(points: seq<Point>, xx: map<int, int>, yy: map<int, int>, n: nat, r: int, c: int)
    requires n <= |points|
    requires forall p | p in points :: p.x in xx && p.y in yy
    ensures OnOutline(points, xx, yy, n, r, c) <==> exists i :: 0 <= i < n && OnEdge(points, xx, yy, i, r, c)
  {
    if n > 0 {
      OutlineIsUnion(points, xx, yy, n - 1, r, c);
    }
  }

  /** Both ends of an axis-aligned edge are on it: the drawing is inclusive. */
  lemma EdgeEnds(points: seq<Point>, xx: map<int, int>, yy: map<int, int>, i: nat)
    requires i < |points|
    requires forall p | p in points :: p.x in xx && p.y in yy
    requires points[i].x == points[(i + 1) % |points|].x || points[i].y == points[(i + 1) % |points|].y
    ensures OnEdge(points, xx, yy, i, yy[points[i].y], xx[points[i].x])
    ensures var b := points[(i + 1) % |points|]; OnEdge(points, xx, yy, i, yy[b.y], xx[b.x])
  {
  }

  /** `create_canvas`: a `height` by `width` grid of zeros with every cell of
      every axis-aligned edge set to 1. */
  method CreateCanvas(points: seq<Point>, width: nat, height: nat, xx: map<int, int>, yy: map<int, int>)
    returns (canvas: array2<int>)
    requires Mapped(points, xx, yy, width, height)
    ensures fresh(canvas)
    ensures canvas.Length0 == height && canvas.Length1 == width
    ensures forall r, c :: 0 <= r < height && 0 <= c < width ==>
              canvas[r, c] == if OnOutline(points, xx, yy, |points|, r, c) then 1 else 0
  {
    canvas := new int[height, width]((r, c) => 0);
    for i := 0 to |points|
      invariant forall r, c :: 0 <= r < height && 0 <= c < width ==>
                  canvas[r, c] == if OnOutline(points, xx, yy, i, r, c) then 1 else 0
    {
      DrawEdge(canvas, points, xx, yy, i);
    }
  }

  /** One pass of the loop of `create_canvas`: draw edge `i`. */
  method DrawEdge(canvas: array2<int>, points: seq<Point>, xx: map<int, int>, yy: map<int, int>, i: nat)
    requires i < |points|
    requires Mapped(points, xx, yy, canvas.Length1, canvas.Length0)
    modifies canvas
    ensures forall r, c :: 0 <= r < canvas.Length0 && 0 <= c < canvas.Length1 ==>
              canvas[r, c] == if OnEdge(points, xx, yy, i, r, c) then 1 else old(canvas[r, c])
  {
    var a := points[i];
    var b := points[(i + 1) % |points|];
    assert a in points && b in points;
    if a.x == b.x {
      var y0, y1 := Min(yy[a.y], yy[b.y]), Max(yy[a.y], yy[b.y]);
      DrawColumn(canvas, xx[a.x], y0, y1);
    } else if a.y == b.y {
      var x0, x1 := Min(xx[a.x], xx[b.x]), Max(xx[a.x], xx[b.x]);
      DrawRow(canvas, yy[a.y], x0, x1);
    }
  }

  /** Set cells `y0..y1` (inclusive) of column `x` to 1. */
  method DrawColumn(canvas: array2<int>, x: nat, y0: nat, y1: int)
    requires x < canvas.Length1 && y1 < canvas.Length0
    modifies canvas
    ensures forall r, c :: 0 <= r < canvas.Length0 && 0 <= c < canvas.Length1 ==>
              canvas[r, c] == if c == x && y0 <= r <= y1 then 1 else old(canvas[r, c])
  {
    var y := y0;
    while y <= y1
      invariant y0 <= y <= Max(y0, y1 + 1)
      invariant forall r, c :: 0 <= r < canvas.Length0 && 0 <= c < canvas.Length1 ==>
                  canvas[r, c] == if c == x && y0 <= r < y then 1 else old(canvas[r, c])
      decreases y1 + 1 - y
    {
      canvas[y, x] := 1;
      y := y + 1;
    }
  }

  /** Set cells `x0..x1` (inclusive) of row `y` to 1. */
  method DrawRow(canvas: array2<int>, y: nat, x0: nat, x1: int)
    requires y < canvas.Length0 && x1 < canvas.Length1
    modifies canvas
    ensures forall r, c :: 0 <= r < canvas.Length0 && 0 <= c < canvas.Length1 ==>
              canvas[r, c] == if r == y && x0 <= c <= x1 then 1 else old(canvas[r, c])
  {
    var x := x0;
    while x <= x1
      invariant x0 <= x <= Max(x0, x1 + 1)
      invariant forall r, c :: 0 <= r < canvas.Length0 && 0 <= c < canvas.Length1 ==>
                  canvas[r, c] == if r == y && x0 <= c < x then 1 else old(canvas[r, c])
      decreases x1 + 1 - x
    {
      canvas[y, x] := 1;
      x := x + 1;
    }
  }

  // ---------------------------------------------------------------- filling

  /** The number of nonzero cells in `row`: how often the scanline toggles. */
  function Crossings(row: seq<int>): (n: nat)
    ensures n <= |row|
  {
    if row == [] then 0
    else Crossings(row[..|row| - 1]) + (if row[|row| - 1] != 0 then 1 else 0)
  }

  /** The value the scanline leaves in cell `x`: 1 while inside (after an odd
      number of toggles, counting the cell itself), the old value otherwise. */
  function Filled(row: seq<int>, x: nat): int
    requires x < |row|
  {
    if Crossings(row[..x + 1]) % 2 == 1 then 1 else row[x]
  }

  function FillRow(row: seq<int>): seq<int>
  {
    seq(|row|, x requires 0 <= x < |row| => Filled(row, x))
  }

  predicate Binary(row: seq<int>)
  {
    forall x :: 0 <= x < |row| ==> row[x] == 0 || row[x] == 1
  }

  /** The even-odd rule on a 0/1 row: a cell ends up 1 exactly when it is on
      the outline or an odd number of outline cells lie to its left. */
  lemma EvenOdd(row: seq<int>, x: nat)
    requires Binary(row) && x < |row|
    ensures FillRow(row)[x] == if row[x] == 1 || Crossings(row[..x]) % 2 == 1 then 1 else 0
  {
    assert row[..x + 1][..x] == row[..x];
  }

  /** Filling never clears a cell, and keeps a 0/1 row 0/1. */
  lemma FillKeeps(row: seq<int>)
    ensures |FillRow(row)| == |row|
    ensures forall x :: 0 <= x < |row| && row[x] != 0 ==> FillRow(row)[x] != 0
    ensures Binary(row) ==> Binary(FillRow(row))
  {
  }

  /** The toggle count over a prefix, read off the count of toggles before it. */
  lemma CrossingsStep(row: seq<int>, x: nat)
    requires x < |row|
    ensures Crossings(row[..x + 1]) == Crossings(row[..x]) + (if row[x] != 0 then 1 else 0)
  {
    assert row[..x + 1][..x] == row[..x];
  }

  function RowOf(canvas: array2<int>, r: nat): seq<int>
    requires r < canvas.Length0
    reads canvas
  {
    seq(canvas.Length1, c requires 0 <= c < canvas.Length1 reads canvas => canvas[r, c])
  }

  /** `fill_interior`: every row is scanned left to right. */
  method FillInterior(canvas: array2<int>)
    modifies canvas
    ensures forall r, c :: 0 <= r < canvas.Length0 && 0 <= c < canvas.Length1 ==>
              canvas[r, c] == FillRow(old(RowOf(canvas, r)))[c]
  {
    for y := 0 to canvas.Length0
      invariant forall r, c :: 0 <= r < y && 0 <= c < canvas.Length1 ==>
                  canvas[r, c] == FillRow(old(RowOf(canvas, r)))[c]
      invariant forall r, c :: y <= r < canvas.Length0 && 0 <= c < canvas.Length1 ==>
                  canvas[r, c] == old(canvas[r, c])
    {
      assert RowOf(canvas, y) == old(RowOf(canvas, y));
      FillLine(canvas, y);
    }
  }

  /** One row of `fill_interior`: `inside` flips at every nonzero cell. */
  method FillLine(canvas: array2<int>, y: nat)
    requires y < canvas.Length0
    modifies canvas
    ensures forall c :: 0 <= c < canvas.Length1 ==> canvas[y, c] == FillRow(old(RowOf(canvas, y)))[c]
    ensures forall r, c :: 0 <= r < canvas.Length0 && r != y && 0 <= c < canvas.Length1 ==>
              canvas[r, c] == old(canvas[r, c])
  {
    ghost var row := RowOf(canvas, y);
    var inside := 0;
    for x := 0 to canvas.Length1
      invariant inside == Crossings(row[..x]) % 2
      invariant forall c :: 0 <= c < x ==> canvas[y, c] == Filled(row, c)
      invariant forall c :: x <= c < canvas.Length1 ==> canvas[y, c] == row[c]
      invariant forall r, c :: 0 <= r < canvas.Length0 && r != y && 0 <= c < canvas.Length1 ==>
                  canvas[r, c] == old(canvas[r, c])
    {
      CrossingsStep(row, x);
      assert canvas[y, x] == row[x];
      if canvas[y, x] != 0 {
        inside := 1 - inside;
      }
      if inside != 0 {
        canvas[y, x] := 1;
      }
    }
  }
}
