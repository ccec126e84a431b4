/** Day 9, part 1: the integer part of `generate_html_zone`, which compresses
    both axes, draws and fills the polygon, and searches for the largest
    rectangle. Its result is stated without the tables it builds: the
    rectangle between two red tiles whose compressed cells all lie inside the
    polygon under the even-odd rule. */
module PolygonZone {
  import opened Common
  import opened AxisCompression
  import opened PolygonCanvas
  import opened LargestRectangle

  function Xs(points: seq<Point>): (xs: seq<int>)
    ensures |xs| == |points| && forall k :: 0 <= k < |points| ==> xs[k] == points[k].x
  {
    seq(|points|, k requires 0 <= k < |points| => points[k].x)
  }

  function Ys(points: seq<Point>): (ys: seq<int>)
    ensures |ys| == |points| && forall k :: 0 <= k < |points| ==> ys[k] == points[k].y
  {
    seq(|points|, k requires 0 <= k < |points| => points[k].y)
  }

  /** Row `r` of the canvas as drawn: 1 on the outline, 0 elsewhere. */
  ghost function OutlineRow(points: seq<Point>, xx: map<int, int>, yy: map<int, int>, width: nat, r: int): seq<int>
    requires forall p | p in points :: p.x in xx && p.y in yy
  {
    seq(width, c requires 0 <= c < width => if OnOutline(points, xx, yy, |points|, r, c) then 1 else 0)
  }

  /** Cell (r, c) is 1 once the outline's row has been filled. */
  ghost predicate Interior(points: seq<Point>, xx: map<int, int>, yy: map<int, int>, width: nat, r: int, c: int)
    requires forall p | p in points :: p.x in xx && p.y in yy
    requires 0 <= c < width
  {
    FillRow(OutlineRow(points, xx, yy, width, r))[c] == 1
  }

  /** Every compressed cell of the rectangle spanned by points a and b is interior. */
  ghost predicate InsidePair(points: seq<Point>, xx: map<int, int>, yy: map<int, int>, width: nat, height: nat, a: nat, b: nat)
    requires Mapped(points, xx, yy, width, height)
    requires a < |points| && b < |points|
  {
    var rect := Corners(points[a], points[b]);
    assert points[a] in points && points[b] in points;
    forall r, c :: yy[rect.1] <= r <= yy[rect.3] && xx[rect.0] <= c <= xx[rect.2] ==>
      Interior(points, xx, yy, width, r, c)
  }

  /** (i, j) is the first inside pair, in the order of the two loops, of
      greatest area among all inside pairs. */
  ghost predicate InsideWinner(points: seq<Point>, xx: map<int, int>, yy: map<int, int>, width: nat, height: nat, i: nat, j: nat)
    requires Mapped(points, xx, yy, width, height)
  {
    i < j < |points| && InsidePair(points, xx, yy, width, height, i, j) &&
    (forall a, b :: 0 <= a < b < |points| && InsidePair(points, xx, yy, width, height, a, b) ==>
       Area(points[a], points[b]) <= Area(points[i], points[j])) &&
    (forall a, b :: 0 <= a < b < |points| && Before(a, b, i, j) && InsidePair(points, xx, yy, width, height, a, b) ==>
       Area(points[a], points[b]) < Area(points[i], points[j]))
  }

  /** A compressed axis numbers its keys from 0 up to the index of the last value. */
  lemma CompressedBounds(all: seq<int>, mapping: map<int, int>)
    requires Increasing(all) && all != []
    requires forall y :: y in mapping <==> y in all
    requires forall y, z :: y in mapping && z in mapping && y < z ==> mapping[y] < mapping[z]
    requires forall y :: y in mapping && (forall z :: z in mapping ==> y <= z) ==> mapping[y] == 0
    ensures forall y :: y in mapping ==> 0 <= mapping[y] <= mapping[all[|all| - 1]]
  {
    var first, last := all[0], all[|all| - 1];
    assert first in all && last in all;
    forall z | z in mapping
      ensures first <= z <= last
    {
      var k :| 0 <= k < |all| && all[k] == z;
    }
    assert mapping[first] == 0;
  }

  /** Point coordinates are keys of the compressed axes. */
  lemma PointsListed(points: seq<Point>, p: Point)
    requires p in points
    ensures p.x in Xs(points) && p.y in Ys(points)
  {
    var k :| 0 <= k < |points| && points[k] == p;
    assert Xs(points)[k] == p.x && Ys(points)[k] == p.y;
  }

  /** On the drawn, filled and summed canvas, `is_filled` says exactly that the pair is inside. */
  lemma QualifiesInside(points: seq<Point>, ps: array2<int>, canvas: array2<int>,
                        xx: map<int, int>, yy: map<int, int>, a: nat, b: nat)
    requires IsPrefixSum(ps, canvas) && Cells01(canvas)
    requires Mapped(points, xx, yy, canvas.Length1, canvas.Length0)
    requires forall y, z :: y in xx && z in xx && y < z ==> xx[y] < xx[z]
    requires forall y, z :: y in yy && z in yy && y < z ==> yy[y] < yy[z]
    requires forall r, c :: 0 <= r < canvas.Length0 && 0 <= c < canvas.Length1 ==>
               (canvas[r, c] == 1 <==> Interior(points, xx, yy, canvas.Length1, r, c))
    requires a < |points| && b < |points|
    ensures Indexed(points, ps, xx, yy)
    ensures Qualifies(points, ps, xx, yy, a, b) <==> InsidePair(points, xx, yy, canvas.Length1, canvas.Length0, a, b)
  {
    var rect := Corners(points[a], points[b]);
    assert points[a] in points && points[b] in points;
    assert xx[rect.0] <= xx[rect.2] && yy[rect.1] <= yy[rect.3];
    IsFilledMeansFull(ps, canvas, xx, yy, rect.0, rect.2, rect.1, rect.3);
  }

  lemma WinnerInside(points: seq<Point>, ps: array2<int>, xx: map<int, int>, yy: map<int, int>,
                     width: nat, height: nat, i: nat, j: nat)
    requires Indexed(points, ps, xx, yy) && Mapped(points, xx, yy, width, height)
    requires forall a, b :: 0 <= a < b < |points| ==>
               (Qualifies(points, ps, xx, yy, a, b) <==> InsidePair(points, xx, yy, width, height, a, b))
    requires Winner(points, ps, xx, yy, i, j, |points|, 0)
    ensures InsideWinner(points, xx, yy, width, height, i, j)
  {
  }

  /** The axes of `generate_html_zone`: the sorted distinct coordinates,
      compressed, and the canvas size one past the index of the largest. */
  method Axes(points: seq<Point>) returns (xx: map<int, int>, yy: map<int, int>, width: nat, height: nat)
    requires points != []
    ensures Mapped(points, xx, yy, width, height)
    ensures forall v :: v in xx <==> v in Xs(points)
    ensures forall v :: v in yy <==> v in Ys(points)
    ensures forall y, z :: y in xx && z in xx && y < z ==> xx[y] < xx[z]
    ensures forall y, z :: y in yy && z in yy && y < z ==> yy[y] < yy[z]
  {
    var allX := SortedDistinct(Xs(points));
    var allY := SortedDistinct(Ys(points));
    assert Xs(points)[0] in allX && Ys(points)[0] in allY;
    xx := CompressAxis(allX);
    yy := CompressAxis(allY);
    CompressedBounds(allX, xx);
    CompressedBounds(allY, yy);
    width := xx[allX[|allX| - 1]] + 1;
    height := yy[allY[|allY| - 1]] + 1;
    forall p | p in points
      ensures p.x in xx && 0 <= xx[p.x] < width && p.y in yy && 0 <= yy[p.y] < height
    {
      PointsListed(points, p);
    }
  }

  /** The integer part of `generate_html_zone`: nothing for no points,
      otherwise the axes, the canvas size and the largest inside rectangle. */
  method LargestInside(points: seq<Point>)
    returns (best: Option<(int, int, int, int)>, xx: map<int, int>, yy: map<int, int>, width: nat, height: nat)
    ensures points == [] ==> best == None
    ensures Mapped(points, xx, yy, width, height)
    ensures points != [] ==> forall v :: v in xx <==> v in Xs(points)
    ensures points != [] ==> forall v :: v in yy <==> v in Ys(points)
    ensures best.None? <==> forall a, b :: 0 <= a < b < |points| ==> !InsidePair(points, xx, yy, width, height, a, b)
    ensures best.Some? ==> exists i, j :: 0 <= i < j < |points| && InsideWinner(points, xx, yy, width, height, i, j) &&
                                          best.value == Corners(points[i], points[j])
  {
    if points == [] {
      return None, map[], map[], 0, 0;
    }
    xx, yy, width, height := Axes(points);
    best := Search(points, xx, yy, width, height);
  }

  /** Draw, fill, sum and search, on axes already compressed. */
  method Search(points: seq<Point>, xx: map<int, int>, yy: map<int, int>, width: nat, height: nat)
    returns (best: Option<(int, int, int, int)>)
    requires Mapped(points, xx, yy, width, height)
    requires forall y, z :: y in xx && z in xx && y < z ==> xx[y] < xx[z]
    requires forall y, z :: y in yy && z in yy && y < z ==> yy[y] < yy[z]
    ensures best.None? <==> forall a, b :: 0 <= a < b < |points| ==> !InsidePair(points, xx, yy, width, height, a, b)
    ensures best.Some? ==> exists i, j :: 0 <= i < j < |points| && InsideWinner(points, xx, yy, width, height, i, j) &&
                                          best.value == Corners(points[i], points[j])
  {
    var ps := Tables(points, xx, yy, width, height);
    best := FindLargestRectangle(points, ps, xx, yy);
    if best.Some? {
      ghost var i, j :| 0 <= i < j < |points| && Winner(points, ps, xx, yy, i, j, |points|, 0) &&
                        best.value == Corners(points[i], points[j]);
      WinnerInside(points, ps, xx, yy, width, height, i, j);
      assert 0 <= i < j < |points| && InsideWinner(points, xx, yy, width, height, i, j) &&
             best.value == Corners(points[i], points[j]);
    } else {
      forall a, b | 0 <= a < b < |points|
        ensures !InsidePair(points, xx, yy, width, height, a, b)
      {
        assert !Qualifies(points, ps, xx, yy, a, b);
      }
    }
  }

  /** The canvas drawn and filled, and its prefix sums: `is_filled` on these
      tables says that a pair is inside. */
  method Tables(points: seq<Point>, xx: map<int, int>, yy: map<int, int>, width: nat, height: nat)
    returns (ps: array2<int>)
    requires Mapped(points, xx, yy, width, height)
    requires forall y, z :: y in xx && z in xx && y < z ==> xx[y] < xx[z]
    requires forall y, z :: y in yy && z in yy && y < z ==> yy[y] < yy[z]
    ensures Indexed(points, ps, xx, yy)
    ensures forall a, b :: 0 <= a < b < |points| ==>
              (Qualifies(points, ps, xx, yy, a, b) <==> InsidePair(points, xx, yy, width, height, a, b))
  {
    var canvas := CreateCanvas(points, width, height, xx, yy);
    DrawnRows(points, canvas, xx, yy, width, height);
    FillInterior(canvas);
    FilledCanvas(points, canvas, xx, yy, width, height);
    ps := ComputePrefixSum(canvas);
    forall a, b | 0 <= a < b < |points|
      ensures Qualifies(points, ps, xx, yy, a, b) <==> InsidePair(points, xx, yy, width, height, a, b)
    {
      QualifiesInside(points, ps, canvas, xx, yy, a, b);
    }
  }

  /** The rows of the drawn canvas are the outline's rows. */
  lemma DrawnRows(points: seq<Point>, canvas: array2<int>, xx: map<int, int>, yy: map<int, int>, width: nat, height: nat)
    requires Mapped(points, xx, yy, width, height)
    requires canvas.Length0 == height && canvas.Length1 == width
    requires forall r, c :: 0 <= r < height && 0 <= c < width ==>
               canvas[r, c] == if OnOutline(points, xx, yy, |points|, r, c) then 1 else 0
    ensures forall r :: 0 <= r < height ==> RowOf(canvas, r) == OutlineRow(points, xx, yy, width, r)
  {
    forall r | 0 <= r < height
      ensures RowOf(canvas, r) == OutlineRow(points, xx, yy, width, r)
    {
      var drawn, outline := RowOf(canvas, r), OutlineRow(points, xx, yy, width, r);
      assert |drawn| == |outline|;
      assert forall c :: 0 <= c < width ==> drawn[c] == outline[c];
    }
  }

  /** After `fill_interior`, the canvas is 0/1 and its ones are the interior cells. */
  lemma FilledCanvas(points: seq<Point>, canvas: array2<int>, xx: map<int, int>, yy: map<int, int>, width: nat, height: nat)
    requires Mapped(points, xx, yy, width, height)
    requires canvas.Length0 == height && canvas.Length1 == width
    requires forall r, c :: 0 <= r < height && 0 <= c < width ==>
               canvas[r, c] == FillRow(OutlineRow(points, xx, yy, width, r))[c]
    ensures Cells01(canvas)
    ensures forall r, c :: 0 <= r < height && 0 <= c < width ==>
              (canvas[r, c] == 1 <==> Interior(points, xx, yy, width, r, c))
  {
    forall r | 0 <= r < height
      ensures Binary(FillRow(OutlineRow(points, xx, yy, width, r)))
    {
      FillKeeps(OutlineRow(points, xx, yy, width, r));
    }
  }

  // ---------------------------------------------------------------------------
  // Reading the red tiles
  // ---------------------------------------------------------------------------

  /** `Point(s)`: the pieces of `s` between commas, each read by `int`, unpacked
      into `x` and `y`; `None` is the `ValueError` of a piece that `int` refuses
      or of a count of pieces other than two. */
  function ParsePoint(s: string): Option<Point>
  {
    var pieces := Split(s, ",");
    if |pieces| != 2 then None
    else
      match (ParseInt(pieces[0]), ParseInt(pieces[1]))
      case (Some(x), Some(y)) => Some(Point(x, y))
      case _ => None
  }

  /** The points of stripped lines: blank lines skipped, the others read in
      order; the first line that does not read raises. */
  function PointsOf(lines: seq<string>): (r: Option<seq<Point>>)
    ensures r.Some? ==> |r.value| <= |lines|
  {
    if lines == [] then Some([])
    else if lines[|lines| - 1] == [] then PointsOf(lines[..|lines| - 1])
    else Append(PointsOf(lines[..|lines| - 1]), ParsePoint(lines[|lines| - 1]))
  }

  /** `read_points`: the lines stripped, then read. */
  function ReadPoints(lines: seq<string>): Option<seq<Point>>
  {
    PointsOf(StripLines(lines))
  }

  /** The line a tile at `(x, y)` is written as. */
  function FormatPoint(x: nat, y: nat): (line: string)
    ensures line != []
  {
    NatToString(x) + "," + NatToString(y)
  }

  /** A written tile is cut at its one comma. */
  lemma PointPieces(x: nat, y: nat)
    ensures Split(FormatPoint(x, y), ",") == [NatToString(x), NatToString(y)]
  {
    var a, b := NatToString(x), NatToString(y);
    forall k | 0 <= k < |a| ensures a[k] != ',' {
      assert IsDigit(a[k]);
    }
    forall k | 0 <= k < |b| ensures b[k] != ',' {
      assert IsDigit(b[k]);
    }
    SplitPrefix(a, ",", b);
    SplitNoChar(b, ",");
  }

  /** A written tile reads back as itself. */
  lemma PointRoundTrip(x: nat, y: nat)
    ensures ParsePoint(FormatPoint(x, y)) == Some(Point(x, y))
  {
    PointPieces(x, y);
    ParseIntRoundTrip(x);
    ParseIntRoundTrip(y);
  }

  /** Stripping leaves a written tile as it is. */
  lemma PointTextUnpadded(x: nat, y: nat)
    ensures Strip(FormatPoint(x, y)) == FormatPoint(x, y) != []
  {
    var a, b := NatToString(x), NatToString(y);
    var text := FormatPoint(x, y);
    assert text == a + [','] + b;
    forall k | 0 <= k < |text| ensures !IsSpace(text[k]) {
      if k < |a| {
        assert IsDigit(a[k]);
      } else if k > |a| {
        assert IsDigit(b[k - |a| - 1]);
      }
    }
    StripNoSpace(text);
  }

  /** The lines of some tiles, one per line. */
  function FormatPoints(tiles: seq<(nat, nat)>): (lines: seq<string>)
    ensures |lines| == |tiles|
  {
    seq(|tiles|, k requires 0 <= k < |tiles| => FormatPoint(tiles[k].0, tiles[k].1))
  }

  function AsPoints(tiles: seq<(nat, nat)>): (ps: seq<Point>)
    ensures |ps| == |tiles|
  {
    seq(|tiles|, k requires 0 <= k < |tiles| => Point(tiles[k].0, tiles[k].1))
  }

  /** A stripped line that reads as `p` appends `p` to what the lines before
      it read as. */
  lemma PointsOfStep(lines: seq<string>, line: string, p: Point)
    requires line != [] && ParsePoint(line) == Some(p)
    ensures PointsOf(lines + [line]) == Append(PointsOf(lines), Some(p))
  {
    var all := lines + [line];
    assert all[..|all| - 1] == lines;
    assert all[|all| - 1] == line;
  }

  /** Writing some tiles writes the ones before the last, then the last. */
  lemma FormatPointsSnoc(tiles: seq<(nat, nat)>)
    requires tiles != []
    ensures FormatPoints(tiles)
            == FormatPoints(tiles[..|tiles| - 1]) + [FormatPoint(tiles[|tiles| - 1].0, tiles[|tiles| - 1].1)]
    ensures AsPoints(tiles)
            == AsPoints(tiles[..|tiles| - 1]) + [Point(tiles[|tiles| - 1].0, tiles[|tiles| - 1].1)]
  {
  }

  /** Lines written from some tiles, read as stripped lines, give those
      tiles back in order. */
  lemma {:induction false} PointsOfRoundTrip(tiles: seq<(nat, nat)>)
    ensures PointsOf(FormatPoints(tiles)) == Some(AsPoints(tiles))
  {
    if tiles != [] {
      var m := |tiles| - 1;
      var init := tiles[..m];
      PointsOfRoundTrip(init);
      var (x, y) := tiles[m];
      FormatPointsSnoc(tiles);
      PointRoundTrip(x, y);
      PointsOfStep(FormatPoints(init), FormatPoint(x, y), Point(x, y));
    }
  }

  /** The file written from some tiles reads back as those tiles, in order. */
  lemma ReadPointsRoundTrip(tiles: seq<(nat, nat)>)
    ensures ReadPoints(FormatPoints(tiles)) == Some(AsPoints(tiles))
  {
    var lines := FormatPoints(tiles);
    forall line | line in lines ensures Strip(line) == line {
      var k :| 0 <= k < |lines| && lines[k] == line;
      PointTextUnpadded(tiles[k].0, tiles[k].1);
    }
    StripUnpadded(lines);
    PointsOfRoundTrip(tiles);
  }
}
