/** Day 12, part 1: presents of a few shapes must go under trees, each tree
    standing in a rectangular region that lists how many presents of each
    shape it needs. A region is counted as fitting when its area is at least
    the total area of its presents; the answer is the number of such regions.
    The input is a list of shapes (an index line, then rows of '#' and '.'),
    separated by blank lines, followed by one block of region lines
    "WxH: c1 c2 ...". */
module RegionFit {
  import opened Common

  // ---------------------------------------------------------------------------
  // Shapes
  // ---------------------------------------------------------------------------

  /** A parsed shape: its rows read as a binary number ('#' = 1, '.' = 0) and
      its area, the number of '#' cells. */
  datatype Shape = Shape(bitmask: int, area: nat)

  /** `"".join(rows)`. */
  function Concat(rows: seq<string>): string
  {
    if rows == [] then [] else Concat(rows[..|rows| - 1]) + rows[|rows| - 1]
  }

  /** `flat.count("#")`. */
  function CountHash(flat: string): (n: nat)
    ensures n <= |flat|
  {
    if flat == [] then 0
    else CountHash(flat[..|flat| - 1]) + (if flat[|flat| - 1] == '#' then 1 else 0)
  }

  /** The character `str.maketrans("#.", "10")` puts in place of `c`. */
  function Code(c: char): char
  {
    if c == '#' then '1' else if c == '.' then '0' else c
  }

  /** `flat.translate(str.maketrans("#.", "10"))`. */
  function Translate(flat: string): (t: string)
    ensures |t| == |flat|
  {
    if flat == [] then [] else Translate(flat[..|flat| - 1]) + [Code(flat[|flat| - 1])]
  }

  predicate IsBit(c: char)
  {
    c == '0' || c == '1'
  }

  predicate AllBits(t: string)
  {
    forall k :: 0 <= k < |t| ==> IsBit(t[k])
  }

  /** The value of a string of binary digits, most significant first. */
  function BitsValue(t: string): nat
    requires AllBits(t)
  {
    if t == [] then 0 else 2 * BitsValue(t[..|t| - 1]) + (if t[|t| - 1] == '1' then 1 else 0)
  }

  /** Python's `int(s, 2)`: surrounding whitespace, an optional sign and at
      least one binary digit; `None` stands for the `ValueError` it raises. */
  function ParseBinary(s: string): (r: Option<int>)
    ensures r.Some? ==> Strip(s) != []
  {
    var t := Strip(s);
    if |t| > 1 && (t[0] == '+' || t[0] == '-') && AllBits(t[1..]) then
      var magnitude: int := BitsValue(t[1..]);
      Some(if t[0] == '-' then -magnitude else magnitude)
    else if |t| > 0 && AllBits(t) then Some(BitsValue(t))
    else None
  }

  /** The cells of a shape chunk: every line but the first (the index line),
      joined. */
  function Cells(chunk: string): string
  {
    var lines := Split(chunk, "\n");
    Concat(lines[1..])
  }

  /** The body of the shape loop of `solver` for one chunk; `None` for the
      `ValueError` of `int(..., 2)`. */
  function ParseShape(chunk: string): Option<Shape>
  {
    var flat := Cells(chunk);
    match ParseBinary(Translate(flat))
    case None => None
    case Some(bitmask) => Some(Shape(bitmask, CountHash(flat)))
  }

  /** The number of one bits of `n`. */
  function Popcount(n: nat): nat
  {
    if n == 0 then 0 else n % 2 + Popcount(n / 2)
  }

  function Pow2(e: nat): (p: nat)
    ensures p >= 1
  {
    if e == 0 then 1 else 2 * Pow2(e - 1)
  }

  predicate IsCell(c: char)
  {
    c == '#' || c == '.'
  }

  predicate AllCells(flat: string)
  {
    forall k :: 0 <= k < |flat| ==> IsCell(flat[k])
  }

  /** Appending a binary digit `b` doubles the number and adds `b` to its
      one bits. */
  lemma PopcountStep(v: nat, b: nat)
    requires b <= 1
    ensures Popcount(2 * v + b) == b + Popcount(v)
  {
    if 2 * v + b > 0 {
      ModUnique(2 * v + b, 2, v, b);
    }
  }

  /** The number of '1' digits of `t`. */
  function CountOnes(t: string): (n: nat)
    ensures n <= |t|
  {
    if t == [] then 0
    else CountOnes(t[..|t| - 1]) + (if t[|t| - 1] == '1' then 1 else 0)
  }

  /** Translating cells gives binary digits, one '1' per '#'. */
  lemma {:induction false} TranslateOnes(flat: string)
    requires AllCells(flat)
    ensures AllBits(Translate(flat))
    ensures CountOnes(Translate(flat)) == CountHash(flat)
    decreases |flat|
  {
    if flat != [] {
      var init := flat[..|flat| - 1];
      var t := Translate(flat);
      assert forall k :: 0 <= k < |init| ==> init[k] == flat[k];
      TranslateOnes(init);
      assert t[..|t| - 1] == Translate(init);
      assert forall k :: 0 <= k < |t| - 1 ==> t[k] == Translate(init)[k];
    }
  }

  /** A binary number has as many one bits as its digits have '1's. */
  lemma {:induction false} BitsPopcount(t: string)
    requires AllBits(t)
    ensures Popcount(BitsValue(t)) == CountOnes(t)
    decreases |t|
  {
    if t != [] {
      var init := t[..|t| - 1];
      BitsPopcount(init);
      PopcountStep(BitsValue(init), if t[|t| - 1] == '1' then 1 else 0);
    }
  }

  /** A binary number fits in as many bits as it has digits. */
  lemma {:induction false} BitsBound(t: string)
    requires AllBits(t)
    ensures BitsValue(t) < Pow2(|t|)
    decreases |t|
  {
    if t != [] {
      BitsBound(t[..|t| - 1]);
    }
  }

  /** Translating cells gives binary digits whose number has one bit per '#'
      and fits in as many bits as there are cells. */
  lemma TranslateCells(flat: string)
    requires AllCells(flat)
    ensures AllBits(Translate(flat))
    ensures Popcount(BitsValue(Translate(flat))) == CountHash(flat)
    ensures BitsValue(Translate(flat)) < Pow2(|flat|)
  {
    TranslateOnes(flat);
    BitsPopcount(Translate(flat));
    BitsBound(Translate(flat));
  }

  /** A non-empty string of binary digits reads as its value. */
  lemma BinaryOfBits(t: string)
    requires t != [] && AllBits(t)
    ensures ParseBinary(t) == Some(BitsValue(t))
  {
    assert NoSpace(t) by {
      forall k | 0 <= k < |t| ensures !IsSpace(t[k]) {
        assert IsBit(t[k]);
      }
    }
    StripNoSpace(t);
    assert !(t[0] == '+' || t[0] == '-') by { assert IsBit(t[0]); }
  }

  /** A chunk whose cells are '#' and '.' only, at least one of them, parses;
      its bitmask has exactly `area` one bits and fits in one bit per cell. */
  lemma ShapeMask(chunk: string)
    requires Cells(chunk) != [] && AllCells(Cells(chunk))
    ensures ParseShape(chunk).Some?
    ensures var shape := ParseShape(chunk).value;
      0 <= shape.bitmask < Pow2(|Cells(chunk)|) && Popcount(shape.bitmask) == shape.area
  {
    var flat := Cells(chunk);
    TranslateCells(flat);
    BinaryOfBits(Translate(flat));
  }

  /** The rows of a chunk written as an index line and its rows, one per
      line, are exactly the rows: the index line is dropped. */
  lemma ShapeRows(index: string, rows: seq<string>)
    requires forall k :: 0 <= k < |index| ==> index[k] != '\n'
    requires forall i, k :: 0 <= i < |rows| && 0 <= k < |rows[i]| ==> rows[i][k] != '\n'
    ensures Cells(Join([index] + rows, "\n")) == Concat(rows)
  {
    var parts := [index] + rows;
    JoinSplit(parts, "\n");
    assert parts[1..] == rows;
  }

  /** A chunk holding only its index line has no cells, and `int("", 2)`
      raises. */
  lemma ShapeWithoutRows(index: string)
    requires forall k :: 0 <= k < |index| ==> index[k] != '\n'
    ensures ParseShape(index) == None
  {
    SplitNoChar(index, "\n");
  }

  /** The shape loop: one shape per chunk, in order; the first chunk that
      raises stops it. */
  function ParseShapes(chunks: seq<string>): (r: Option<seq<Shape>>)
    ensures r.Some? ==> |r.value| == |chunks|
  {
    if chunks == [] then Some([])
    else
      match (ParseShapes(chunks[..|chunks| - 1]), ParseShape(chunks[|chunks| - 1]))
      case (Some(shapes), Some(shape)) => Some(shapes + [shape])
      case _ => None
  }

  /** Every shape is the parse of its chunk. */
  lemma {:induction false} ParseShapesValue(chunks: seq<string>, k: int)
    requires ParseShapes(chunks).Some? && 0 <= k < |chunks|
    ensures ParseShape(chunks[k]) == Some(ParseShapes(chunks).value[k])
  {
    var init := chunks[..|chunks| - 1];
    if k < |chunks| - 1 {
      ParseShapesValue(init, k);
      assert init[k] == chunks[k];
    }
  }

  /** A chunk that raises makes the whole loop raise. */
  lemma {:induction false} ParseShapesFails(chunks: seq<string>, k: int)
    requires 0 <= k < |chunks| && ParseShape(chunks[k]).None?
    ensures ParseShapes(chunks).None?
  {
    var init := chunks[..|chunks| - 1];
    if k < |chunks| - 1 {
      assert init[k] == chunks[k];
      ParseShapesFails(init, k);
    }
  }

  // ---------------------------------------------------------------------------
  // Regions: `is_region_valid`
  // ---------------------------------------------------------------------------

  /** A parsed region line: its size and the count wanted of each shape. */
  datatype Region = Region(width: int, height: int, counts: seq<int>)

  /** "WxH: c1 c2 ...": one ": " between size and counts, one 'x' between
      width and height, counts separated by single spaces. `None` stands for
      the `ValueError` of an unpacking that does not get two values or of an
      `int` that fails. */
  function ParseRegion(region: string): Option<Region>
  {
    var halves := Split(region, ": ");
    if |halves| != 2 then None
    else
      var dims := Split(halves[0], "x");
      if |dims| != 2 then None
      else
        match (ParseInt(dims[0]), ParseInt(dims[1]), ParseInts(Split(halves[1], " ")))
        case (Some(width), Some(height), Some(counts)) => Some(Region(width, height, counts))
        case _ => None
  }

  function Min(a: int, b: int): int
  {
    if a < b then a else b
  }

  /** `sum(count * shape[1] for count, shape in zip(counts, shapes))`: `zip`
      stops at the shorter of the two lists. */
  function RequiredArea(counts: seq<int>, shapes: seq<Shape>): int
  {
    var n := Min(|counts|, |shapes|);
    Sum(seq(n, i requires 0 <= i < n => counts[i] * shapes[i].area))
  }

  /** `is_region_valid`: the region's area covers the presents' area. */
  function IsRegionValid(region: string, shapes: seq<Shape>): Option<bool>
  {
    match ParseRegion(region)
    case None => None
    case Some(r) => Some(r.width * r.height >= RequiredArea(r.counts, shapes))
  }

  /** Counts beyond the last shape are ignored. */
  lemma ExtraCountsIgnored(counts: seq<int>, extra: seq<int>, shapes: seq<Shape>)
    requires |counts| >= |shapes|
    ensures RequiredArea(counts + extra, shapes) == RequiredArea(counts, shapes)
  {
    var n := |shapes|;
    assert seq(n, i requires 0 <= i < n => (counts + extra)[i] * shapes[i].area)
        == seq(n, i requires 0 <= i < n => counts[i] * shapes[i].area);
  }

  /** Shapes beyond the last count are ignored. */
  lemma ExtraShapesIgnored(counts: seq<int>, shapes: seq<Shape>, extra: seq<Shape>)
    requires |shapes| >= |counts|
    ensures RequiredArea(counts, shapes + extra) == RequiredArea(counts, shapes)
  {
    var n := |counts|;
    assert seq(n, i requires 0 <= i < n => counts[i] * (shapes + extra)[i].area)
        == seq(n, i requires 0 <= i < n => counts[i] * shapes[i].area);
  }

  /** One more count with one more shape adds that many times its area. */
  lemma RequiredAreaStep(counts: seq<int>, shapes: seq<Shape>, c: int, shape: Shape)
    requires |counts| == |shapes|
    ensures RequiredArea(counts + [c], shapes + [shape]) == RequiredArea(counts, shapes) + c * shape.area
  {
    var n := |counts|;
    var longer := seq(n + 1, i requires 0 <= i < n + 1 => (counts + [c])[i] * (shapes + [shape])[i].area);
    assert longer[..n] == seq(n, i requires 0 <= i < n => counts[i] * shapes[i].area);
  }

  /** With no counts, or no shapes, nothing is required. */
  lemma NothingRequired(counts: seq<int>, shapes: seq<Shape>)
    requires counts == [] || shapes == []
    ensures RequiredArea(counts, shapes) == 0
  {
  }

  /** Counts that are not negative never require a negative area. */
  lemma RequiredAreaNonNegative(counts: seq<int>, shapes: seq<Shape>)
    requires forall i :: 0 <= i < |counts| ==> counts[i] >= 0
    ensures RequiredArea(counts, shapes) >= 0
  {
    var n := Min(|counts|, |shapes|);
    var terms := seq(n, i requires 0 <= i < n => counts[i] * shapes[i].area);
    assert forall k :: 0 <= k < n ==> terms[k] >= 0;
    SumNonNegative(terms);
  }

  /** The region line "WxH: c1 c2 ..." for non-negative numbers. */
  function FormatRegion(width: nat, height: nat, counts: seq<nat>): string
  {
    NatToString(width) + "x" + NatToString(height) + ": " + Join(Numerals(counts), " ")
  }

  /** The size and the counts of a region line are cut apart at ": ". */
  lemma RegionHalves(width: nat, height: nat, counts: seq<nat>)
    ensures Split(FormatRegion(width, height, counts), ": ")
         == [NatToString(width) + "x" + NatToString(height), Join(Numerals(counts), " ")]
  {
    var w := NatToString(width);
    var h := NatToString(height);
    var joined := Join(Numerals(counts), " ");
    var size := w + "x" + h;
    forall k | 0 <= k < |size| ensures size[k] != ':' {
      if k < |w| {
        assert IsDigit(w[k]);
      } else if k > |w| {
        assert IsDigit(h[k - |w| - 1]);
      }
    }
    SplitPrefix(size, ": ", joined);
    assert FormatRegion(width, height, counts) == size + ": " + joined;
    JoinDigits(Numerals(counts), ' ');
    SplitNoChar(joined, ": ");
  }

  /** Width and height are cut apart at the 'x' and read back. */
  lemma RegionSize(width: nat, height: nat)
    ensures Split(NatToString(width) + "x" + NatToString(height), "x")
         == [NatToString(width), NatToString(height)]
    ensures ParseInt(NatToString(width)) == Some(width)
    ensures ParseInt(NatToString(height)) == Some(height)
  {
    var w := NatToString(width);
    var h := NatToString(height);
    forall k | 0 <= k < |w| ensures w[k] != 'x' {
      assert IsDigit(w[k]);
    }
    forall k | 0 <= k < |h| ensures h[k] != 'x' {
      assert IsDigit(h[k]);
    }
    SplitPrefix(w, "x", h);
    SplitNoChar(h, "x");
    ParseIntRoundTrip(width);
    ParseIntRoundTrip(height);
  }

  /** Reading a region line written from its numbers gives them back; with
      at least one count, so that the counts are not the empty string that
      `int` refuses. */
  lemma RegionRoundTrip(width: nat, height: nat, counts: seq<nat>)
    requires |counts| > 0
    ensures ParseRegion(FormatRegion(width, height, counts)) == Some(Region(width, height, counts))
  {
    RegionHalves(width, height, counts);
    RegionSize(width, height);
    NumeralsRoundTrip(counts, ' ');
  }

  /** A region line with numbers holds exactly when the region's area is at
      least the area its presents need. */
  lemma RegionValidIff(width: nat, height: nat, counts: seq<nat>, shapes: seq<Shape>)
    requires |counts| > 0
    ensures IsRegionValid(FormatRegion(width, height, counts), shapes)
         == Some(width * height >= RequiredArea(counts, shapes))
  {
    RegionRoundTrip(width, height, counts);
  }

  /** "WxH: " with no count raises: `int("")` fails. */
  lemma NoCountsFail(width: nat, height: nat, shapes: seq<Shape>)
    ensures IsRegionValid(FormatRegion(width, height, []), shapes) == None
  {
    RegionHalves(width, height, []);
    assert Join(Numerals([]), " ") == "";
    assert Split("", " ") == [""];
    ParseIntsFails([""], 0);
  }

  // ---------------------------------------------------------------------------
  // `solver`
  // ---------------------------------------------------------------------------

  /** What `is_region_valid` gives for each region line. */
  function Verdicts(regions: seq<string>, shapes: seq<Shape>): (verdicts: seq<Option<bool>>)
    ensures |verdicts| == |regions|
  {
    seq(|regions|, i requires 0 <= i < |regions| => IsRegionValid(regions[i], shapes))
  }

  /** The generator `sum` over the verdicts: a `True` adds one, the first
      error stops it. */
  function CountFits(verdicts: seq<Option<bool>>): Option<nat>
  {
    if verdicts == [] then Some(0)
    else
      match (CountFits(verdicts[..|verdicts| - 1]), verdicts[|verdicts| - 1])
      case (Some(c), Some(valid)) => Some(c + if valid then 1 else 0)
      case _ => None
  }

  /** The positions of the `True` verdicts. */
  ghost function Fitting(verdicts: seq<Option<bool>>): set<int>
  {
    set i | 0 <= i < |verdicts| && verdicts[i] == Some(true)
  }

  /** The count is the number of `True` verdicts, at most one per verdict; it
      fails exactly when some verdict is an error. */
  lemma {:induction false} CountFitsCounts(verdicts: seq<Option<bool>>)
    ensures CountFits(verdicts).None? <==> exists i :: 0 <= i < |verdicts| && verdicts[i].None?
    ensures CountFits(verdicts).Some? ==> CountFits(verdicts).value == |Fitting(verdicts)|
    ensures |Fitting(verdicts)| <= |verdicts|
    decreases |verdicts|
  {
    if verdicts != [] {
      var n := |verdicts| - 1;
      var init := verdicts[..n];
      CountFitsCounts(init);
      assert forall i :: 0 <= i < n ==> init[i] == verdicts[i];
      if verdicts[n] == Some(true) {
        assert Fitting(verdicts) == Fitting(init) + {n};
      } else {
        assert Fitting(verdicts) == Fitting(init);
      }
    }
  }

  /** `data.strip().split("\n\n")`. */
  function Chunks(data: string): (chunks: seq<string>)
    ensures |chunks| >= 1
  {
    Split(Strip(data), "\n\n")
  }

  /** Every chunk but the last describes a shape. */
  function ShapeChunks(data: string): seq<string>
  {
    var chunks := Chunks(data);
    chunks[..|chunks| - 1]
  }

  /** The last chunk holds the regions, one per line. */
  function RegionLines(data: string): seq<string>
  {
    var chunks := Chunks(data);
    Split(chunks[|chunks| - 1], "\n")
  }

  /** `solver`: the number of region lines that fit, or `None` for the error
      some line raises. */
  function Solver(data: string): Option<nat>
  {
    match ParseShapes(ShapeChunks(data))
    case None => None
    case Some(shapes) => CountFits(Verdicts(RegionLines(data), shapes))
  }

  /** The answer counts the region lines that fit, so it is at most the
      number of region lines; it fails when the shapes raise or some region
      line does. */
  lemma SolverCounts(data: string)
    ensures Solver(data).None? <==>
              ParseShapes(ShapeChunks(data)).None?
              || None in Verdicts(RegionLines(data), ParseShapes(ShapeChunks(data)).value)
    ensures Solver(data).Some? ==>
              var verdicts := Verdicts(RegionLines(data), ParseShapes(ShapeChunks(data)).value);
              Solver(data).value == |Fitting(verdicts)| <= |RegionLines(data)|
  {
    if ParseShapes(ShapeChunks(data)).Some? {
      CountFitsCounts(Verdicts(RegionLines(data), ParseShapes(ShapeChunks(data)).value));
    }
  }

  /** Text without a blank line has no shapes: every line is a region line. */
  lemma NoBlankLine(data: string)
    requires forall k :: !OccursAt(Strip(data), "\n\n", k)
    ensures ShapeChunks(data) == []
    ensures RegionLines(data) == Split(Strip(data), "\n")
  {
    SplitWhole(Strip(data), "\n\n");
  }
}
