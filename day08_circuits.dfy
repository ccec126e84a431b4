/** The junction-box puzzle (day 8): every pair of boxes is an edge weighted by
    distance; edges are handed to the union-find structure closest first.
    Part 1 stops after a fixed number of edges and multiplies the three largest
    circuit sizes; part 2 stops when one circuit is left and multiplies the X
    coordinates of the edge that closed it.

    `math.dist` is replaced by the squared Euclidean distance, which orders pairs
    the same way. */
module Circuits {
  import opened Common
  import opened DisjointSets

  type Point = seq<int>

  /** `math.dist` needs points with the same number of coordinates. */
  ghost predicate SameDimension(points: seq<Point>)
  {
    forall a, b :: 0 <= a < |points| && 0 <= b < |points| ==> |points[a]| == |points[b]|
  }

  // ---------------------------------------------------------------------------
  // Reading the boxes
  // ---------------------------------------------------------------------------

  /** `tuple(map(int, line.strip().split(",")))`; `None` is the `ValueError` of
      a coordinate that `int` refuses. A box read has at least one coordinate,
      as `split` yields at least one piece. */
  function ParsePoint(line: string): (r: Option<Point>)
    ensures r.Some? ==> |r.value| >= 1
  {
    ParseInts(Split(Strip(line), ","))
  }

  /** The list comprehension over the file's lines; the first line that fails
      raises. */
  function ParsePoints(lines: seq<string>): (r: Option<seq<Point>>)
    ensures r.Some? ==> |r.value| == |lines|
  {
    if lines == [] then Some([])
    else
      match (ParsePoints(lines[..|lines| - 1]), ParsePoint(lines[|lines| - 1]))
      case (Some(ps), Some(p)) => Some(ps + [p])
      case _ => None
  }

  /** Every box is the reading of its own line. */
  lemma {:induction false} ParsePointsValue(lines: seq<string>, k: int)
    requires ParsePoints(lines).Some? && 0 <= k < |lines|
    ensures ParsePoint(lines[k]) == Some(ParsePoints(lines).value[k])
  {
    var init := lines[..|lines| - 1];
    if k < |lines| - 1 {
      ParsePointsValue(init, k);
      assert init[k] == lines[k];
    }
  }

  /** One line that does not read makes the whole file fail. */
  lemma {:induction false} ParsePointsFails(lines: seq<string>, k: int)
    requires 0 <= k < |lines| && ParsePoint(lines[k]).None?
    ensures ParsePoints(lines).None?
  {
    var init := lines[..|lines| - 1];
    if k < |lines| - 1 {
      assert init[k] == lines[k];
      ParsePointsFails(init, k);
    }
  }

  /** A box written as its coordinates with commas between them. */
  function FormatPoint(coords: seq<nat>): string
  {
    Join(Numerals(coords), ",")
  }

  /** A written box reads back as its coordinates. */
  lemma PointRoundTrip(coords: seq<nat>)
    requires |coords| > 0
    ensures ParsePoint(FormatPoint(coords)) == Some(coords)
  {
    PointTextUnpadded(coords);
    NumeralsRoundTrip(coords, ',');
  }

  lemma PointTextUnpadded(coords: seq<nat>)
    ensures Strip(FormatPoint(coords)) == FormatPoint(coords)
  {
    var text := FormatPoint(coords);
    JoinDigits(Numerals(coords), ',');
    forall k | 0 <= k < |text| ensures !IsSpace(text[k]) {
      assert IsDigit(text[k]) || text[k] == ',';
    }
    StripNoSpace(text);
  }

  /** A blank line, such as a trailing empty line of the file, has the single
      empty coordinate that `int` refuses. */
  lemma BlankLineFails(line: string)
    requires Strip(line) == []
    ensures ParsePoint(line) == None
  {
    assert Split([], ",") == [[]];
    ParseIntBlank([]);
    ParseIntsFails([[]], 0);
  }

  function Square(x: int): (s: nat)
    ensures s == 0 <==> x == 0
  {
    if x >= 0 then NonNegativeProduct(x, x); x * x
    else NonNegativeProduct(-x, -x); x * x
  }

  lemma NonNegativeProduct(x: nat, y: nat)
    ensures x * y >= 0 && (x * y == 0 <==> x == 0 || y == 0)
  {
    if x > 0 && y > 0 {
      assert x * y >= y by {
        assert x * y == (x - 1) * y + y;
      }
    }
  }

  /** The squared Euclidean distance: zero exactly for equal points. */
  function SquaredDistance(p: Point, q: Point): (d: nat)
    requires |p| == |q|
    ensures d == 0 <==> p == q
  {
    if p == [] then 0
    else
      var a, b := p[|p| - 1], q[|q| - 1];
      assert p == p[..|p| - 1] + [a] && q == q[..|q| - 1] + [b];
      SquaredDistance(p[..|p| - 1], q[..|q| - 1]) + Square(a - b)
  }

  lemma {:induction false} SquaredDistanceSymmetric(p: Point, q: Point)
    requires |p| == |q|
    ensures SquaredDistance(p, q) == SquaredDistance(q, p)
    decreases |p|
  {
    if p != [] {
      SquaredDistanceSymmetric(p[..|p| - 1], q[..|q| - 1]);
      var a, b := p[|p| - 1], q[|q| - 1];
      assert Square(a - b) == Square(b - a) by {
        assert (a - b) * (a - b) == (b - a) * (b - a);
      }
    }
  }

  // ---------------------------------------------------------------------------
  // combinations(range(n), 2)
  // ---------------------------------------------------------------------------

  predicate PairLess(p: (nat, nat), q: (nat, nat))
  {
    p.0 < q.0 || (p.0 == q.0 && p.1 < q.1)
  }

  /** `(i, j)` for `j` from `from` up to `n - 1`. */
  function RowPairs(i: nat, from: nat, n: nat): (ps: seq<(nat, nat)>)
    ensures |ps| == if from <= n then n - from else 0
    ensures forall k :: 0 <= k < |ps| ==> ps[k] == (i, from + k)
    decreases n - from
  {
    if from >= n then [] else [(i, from)] + RowPairs(i, from + 1, n)
  }

  /** The pairs `(i, j)` with `from <= i < j < n`, each once, in lexicographic order. */
  function PairsFrom(from: nat, n: nat): (ps: seq<(nat, nat)>)
    ensures forall k :: 0 <= k < |ps| ==> from <= ps[k].0 < ps[k].1 < n
    ensures forall a, b :: 0 <= a < b < |ps| ==> PairLess(ps[a], ps[b])
    ensures forall i: nat, j: nat :: from <= i < j < n ==> (i, j) in ps
    decreases n - from
  {
    if from >= n then []
    else
      var row, rest := RowPairs(from, from + 1, n), PairsFrom(from + 1, n);
      assert forall i: nat, j: nat :: from == i < j < n ==> row[j - from - 1] == (i, j);
      row + rest
  }

  /** Python's `combinations(range(n), 2)`. */
  function Pairs(n: nat): seq<(nat, nat)>
  {
    PairsFrom(0, n)
  }

  // ---------------------------------------------------------------------------
  // The edge list and its stable sort
  // ---------------------------------------------------------------------------

  /** `(d, i, j)`: boxes `i` and `j` at squared distance `d`. */
  datatype Edge = Edge(d: nat, i: nat, j: nat)

  function PairOf(e: Edge): (nat, nat)
  {
    (e.i, e.j)
  }

  /** Part 2's comprehension `[(dist(points[i], points[j]), i, j) for i, j in
      combinations(range(len(points)), 2)]`: one edge per pair, carrying the
      pair's distance. */
  function Edges(points: seq<Point>): (es: seq<Edge>)
    requires SameDimension(points)
    ensures forall k :: 0 <= k < |es| ==>
      es[k].i < es[k].j < |points| && es[k].d == SquaredDistance(points[es[k].i], points[es[k].j])
  {
    var ps := Pairs(|points|);
    seq(|ps|, k requires 0 <= k < |ps| =>
      Edge(SquaredDistance(points[ps[k].0], points[ps[k].1]), ps[k].0, ps[k].1))
  }

  /** The edges come in `combinations` order and cover every pair `i < j`. */
  lemma EdgesCover(points: seq<Point>)
    requires SameDimension(points)
    ensures InPairOrder(Edges(points))
    ensures forall i: nat, j: nat :: i < j < |points| ==>
      exists k :: 0 <= k < |Edges(points)| && PairOf(Edges(points)[k]) == (i, j)
  {
    var ps := Pairs(|points|);
    var es := Edges(points);
    assert |es| == |ps|;
    forall a, b | 0 <= a < b < |es|
      ensures PairLess(PairOf(es[a]), PairOf(es[b]))
    {
      assert PairOf(es[a]) == ps[a] && PairOf(es[b]) == ps[b];
    }
    forall i: nat, j: nat | i < j < |points|
      ensures exists k :: 0 <= k < |es| && PairOf(es[k]) == (i, j)
    {
      assert (i, j) in ps;
      var k :| 0 <= k < |ps| && ps[k] == (i, j);
      assert PairOf(es[k]) == ps[k];
    }
  }

  /** Part 1's loop appending `(dist(points[i], points[j]), i, j)` for every pair. */
  method ComputeEdges(points: seq<Point>) returns (edges: seq<Edge>)
    requires SameDimension(points)
    ensures edges == Edges(points)
  {
    var ps := Pairs(|points|);
    edges := [];
    for k := 0 to |ps|
      invariant edges == Edges(points)[..k]
    {
      var (i, j) := ps[k];
      assert Edges(points)[..k + 1] == Edges(points)[..k] + [Edge(SquaredDistance(points[i], points[j]), i, j)];
      edges := edges + [Edge(SquaredDistance(points[i], points[j]), i, j)];
    }
  }

  /** Distances never decrease along the list. */
  ghost predicate ByDistance(es: seq<Edge>)
  {
    forall a, b :: 0 <= a < b < |es| ==> es[a].d <= es[b].d
  }

  /** Insert `e` after every edge whose distance is not larger: the step of a
      stable insertion sort. */
  function InsertByDistance(sorted: seq<Edge>, e: Edge): (r: seq<Edge>)
    ensures multiset(r) == multiset(sorted) + multiset{e}
    decreases |sorted|
  {
    if sorted == [] || sorted[|sorted| - 1].d <= e.d then sorted + [e]
    else
      assert sorted == sorted[..|sorted| - 1] + [sorted[|sorted| - 1]];
      InsertByDistance(sorted[..|sorted| - 1], e) + [sorted[|sorted| - 1]]
  }

  /** Inserting into a list ordered by distance keeps it ordered. */
  lemma {:induction false} InsertByDistanceSorted(sorted: seq<Edge>, e: Edge)
    requires ByDistance(sorted)
    ensures ByDistance(InsertByDistance(sorted, e))
    decreases |sorted|
  {
    if sorted != [] && sorted[|sorted| - 1].d > e.d {
      var init, last := sorted[..|sorted| - 1], sorted[|sorted| - 1];
      InsertByDistanceSorted(init, e);
      var front := InsertByDistance(init, e);
      forall t | 0 <= t < |front|
        ensures front[t].d <= last.d
      {
        assert front[t] in multiset(front);
        if front[t] != e {
          var u :| 0 <= u < |init| && init[u] == front[t];
          assert sorted[u] == front[t];
        }
      }
    }
  }

  /** Python's `edges.sort(key=lambda e: e[0])`: a stable sort on the distance. */
  function SortByDistance(es: seq<Edge>): (r: seq<Edge>)
    ensures multiset(r) == multiset(es)
  {
    if es == [] then []
    else
      assert es == es[..|es| - 1] + [es[|es| - 1]];
      InsertByDistance(SortByDistance(es[..|es| - 1]), es[|es| - 1])
  }

  /** The sort orders by distance. */
  lemma {:induction false} SortByDistanceSorted(es: seq<Edge>)
    ensures ByDistance(SortByDistance(es))
  {
    if es != [] {
      SortByDistanceSorted(es[..|es| - 1]);
      InsertByDistanceSorted(SortByDistance(es[..|es| - 1]), es[|es| - 1]);
    }
  }

  /** The order a stable sort on distance yields from a list in pair order:
      by distance, then by pair. */
  predicate EdgeLess(a: Edge, b: Edge)
  {
    a.d < b.d || (a.d == b.d && PairLess(PairOf(a), PairOf(b)))
  }

  ghost predicate StrictlyByKey(es: seq<Edge>)
  {
    forall a, b :: 0 <= a < b < |es| ==> EdgeLess(es[a], es[b])
  }

  ghost predicate InPairOrder(es: seq<Edge>)
  {
    forall a, b :: 0 <= a < b < |es| ==> PairLess(PairOf(es[a]), PairOf(es[b]))
  }

  lemma {:induction false} InsertStable(sorted: seq<Edge>, e: Edge)
    requires StrictlyByKey(sorted)
    requires forall x :: x in sorted ==> PairLess(PairOf(x), PairOf(e))
    ensures StrictlyByKey(InsertByDistance(sorted, e))
    decreases |sorted|
  {
    if sorted == [] || sorted[|sorted| - 1].d <= e.d {
    } else {
      var init, last := sorted[..|sorted| - 1], sorted[|sorted| - 1];
      InsertStable(init, e);
      var front := InsertByDistance(init, e);
      forall x | x in front
        ensures EdgeLess(x, last)
      {
        assert x in multiset(front);
        if x != e {
          assert x in init;
        }
      }
    }
  }

  /** Ties keep their original order: sorting a list in pair order by distance
      orders it by distance and then by pair. */
  lemma {:induction false} SortStable(es: seq<Edge>)
    requires InPairOrder(es)
    ensures StrictlyByKey(SortByDistance(es))
  {
    if es != [] {
      var init, last := es[..|es| - 1], es[|es| - 1];
      SortStable(init);
      forall x | x in SortByDistance(init)
        ensures PairLess(PairOf(x), PairOf(last))
      {
        assert x in multiset(SortByDistance(init));
        assert x in init;
      }
      InsertStable(SortByDistance(init), last);
    }
  }

  // ---------------------------------------------------------------------------
  // The partition after a prefix of the edges
  // ---------------------------------------------------------------------------

  ghost predicate EdgesWithin(n: nat, es: seq<Edge>)
  {
    forall k :: 0 <= k < |es| ==> es[k].i < n && es[k].j < n
  }

  /** Sorting keeps every edge, so it keeps edges that join two distinct boxes
      of `0 .. n - 1`. */
  lemma SortWithin(n: nat, es: seq<Edge>)
    requires forall k :: 0 <= k < |es| ==> es[k].i < es[k].j < n
    ensures var s := SortByDistance(es);
      EdgesWithin(n, s) && forall k :: 0 <= k < |s| ==> s[k].i < s[k].j
  {
    var s := SortByDistance(es);
    forall k | 0 <= k < |s|
      ensures s[k].i < s[k].j < n
    {
      assert s[k] in multiset(es);
      var u :| 0 <= u < |es| && es[u] == s[k];
    }
  }

  /** Sorting keeps every pair of the list. */
  lemma SortCover(es: seq<Edge>, i: nat, j: nat)
    requires exists k :: 0 <= k < |es| && PairOf(es[k]) == (i, j)
    ensures exists k :: 0 <= k < |SortByDistance(es)| && PairOf(SortByDistance(es)[k]) == (i, j)
  {
    var s := SortByDistance(es);
    var k0 :| 0 <= k0 < |es| && PairOf(es[k0]) == (i, j);
    assert es[k0] in multiset(s);
    var k :| 0 <= k < |s| && s[k] == es[k0];
  }

  /** The sorted edge list both parts walk: ordered by distance and then by
      pair, every edge joins two distinct boxes of `0 .. n - 1`, and every pair
      `i < j` is there. */
  lemma SortedEdges(points: seq<Point>)
    requires SameDimension(points)
    ensures var s := SortByDistance(Edges(points)); StrictlyByKey(s) && EdgesWithin(|points|, s)
    ensures var s := SortByDistance(Edges(points)); forall k :: 0 <= k < |s| ==> s[k].i < s[k].j
    ensures var s := SortByDistance(Edges(points));
      forall i: nat, j: nat :: i < j < |points| ==> exists k :: 0 <= k < |s| && PairOf(s[k]) == (i, j)
  {
    var es := Edges(points);
    var s := SortByDistance(es);
    EdgesCover(points);
    SortStable(es);
    SortWithin(|points|, es);
    forall i: nat, j: nat | i < j < |points|
      ensures exists k :: 0 <= k < |s| && PairOf(s[k]) == (i, j)
    {
      SortCover(es, i, j);
    }
  }

  /** The partition after handing `es` to `union` in order, from singletons. */
  ghost function Connect(n: nat, es: seq<Edge>): (rep: seq<int>)
    requires EdgesWithin(n, es)
    ensures IsLabelling(rep) && |rep| == n
  {
    if es == [] then
      SingletonsFacts(n);
      Singletons(n)
    else
      var prev := Connect(n, es[..|es| - 1]);
      var e := es[|es| - 1];
      LinkJoins(prev, e.i, e.j);
      Link(prev, e.i, e.j)
  }

  /** The number of circuits: one per representative. */
  ghost function CircuitCount(n: nat, es: seq<Edge>): nat
    requires EdgesWithin(n, es)
  {
    |Representatives(Connect(n, es))|
  }

  /** How many of the edges found their two boxes in different circuits. */
  ghost function Merges(n: nat, es: seq<Edge>): nat
    requires EdgesWithin(n, es)
  {
    if es == [] then 0
    else
      var prev := Connect(n, es[..|es| - 1]);
      var e := es[|es| - 1];
      Merges(n, es[..|es| - 1]) + if prev[e.i] != prev[e.j] then 1 else 0
  }

  /** Every merge removes one circuit: circuits plus merges is the number of boxes. */
  lemma {:induction false} CircuitsAndMerges(n: nat, es: seq<Edge>)
    requires EdgesWithin(n, es)
    ensures CircuitCount(n, es) + Merges(n, es) == n
  {
    if es == [] {
      SingletonsFacts(n);
    } else {
      var e := es[|es| - 1];
      CircuitsAndMerges(n, es[..|es| - 1]);
      LinkRepresentatives(Connect(n, es[..|es| - 1]), e.i, e.j);
    }
  }

  /** One more edge: the circuit count drops by one exactly when the edge merges. */
  lemma CircuitStep(n: nat, es: seq<Edge>, k: nat)
    requires EdgesWithin(n, es) && k < |es|
    ensures EdgesWithin(n, es[..k]) && EdgesWithin(n, es[..k + 1])
    ensures var prev := Connect(n, es[..k]);
      && Connect(n, es[..k + 1]) == Link(prev, es[k].i, es[k].j)
      && CircuitCount(n, es[..k + 1]) == CircuitCount(n, es[..k]) - (if prev[es[k].i] != prev[es[k].j] then 1 else 0)
  {
    var pre := es[..k + 1];
    assert pre[..|pre| - 1] == es[..k];
    assert pre[|pre| - 1] == es[k];
    LinkRepresentatives(Connect(n, es[..k]), es[k].i, es[k].j);
  }

  /** Adding edges never increases the number of circuits. */
  lemma {:induction false} CircuitsNonIncreasing(n: nat, es: seq<Edge>, a: nat, b: nat)
    requires EdgesWithin(n, es) && a <= b <= |es|
    ensures EdgesWithin(n, es[..a]) && EdgesWithin(n, es[..b])
    ensures CircuitCount(n, es[..b]) <= CircuitCount(n, es[..a])
    decreases b - a
  {
    if a < b {
      CircuitsNonIncreasing(n, es, a, b - 1);
      CircuitStep(n, es, b - 1);
    }
  }

  /** After its edges, both ends of every edge are in one circuit. */
  lemma {:induction false} ConnectJoins(n: nat, es: seq<Edge>)
    requires EdgesWithin(n, es)
    ensures forall k :: 0 <= k < |es| ==> Connect(n, es)[es[k].i] == Connect(n, es)[es[k].j]
  {
    if es != [] {
      var init, e := es[..|es| - 1], es[|es| - 1];
      var prev := Connect(n, init);
      ConnectJoins(n, init);
      LinkJoins(prev, e.i, e.j);
      forall k | 0 <= k < |es| - 1
        ensures Connect(n, es)[es[k].i] == Connect(n, es)[es[k].j]
      {
        assert init[k] == es[k];
        LinkClasses(prev, e.i, e.j, es[k].i, es[k].j);
      }
    }
  }

  /** Once every box has an edge to box 0, there is a single circuit. */
  lemma AllConnected(n: nat, es: seq<Edge>)
    requires EdgesWithin(n, es) && n >= 1
    requires forall j: nat :: 0 < j < n ==> exists k :: 0 <= k < |es| && PairOf(es[k]) == (0, j)
    ensures CircuitCount(n, es) == 1
  {
    var c := Connect(n, es);
    ConnectJoins(n, es);
    forall j | 0 <= j < n
      ensures c[j] == c[0]
    {
      if j > 0 {
        var k :| 0 <= k < |es| && PairOf(es[k]) == (0, j);
      }
    }
    assert Representatives(c) == {c[0]};
  }

  /** Edge `k` is the one that leaves a single circuit. */
  ghost predicate CompletesAt(n: nat, es: seq<Edge>, k: int)
    requires EdgesWithin(n, es)
  {
    0 <= k < |es| && (EdgesWithin(n, es[..k]) && CircuitCount(n, es[..k]) >= 2)
      && (EdgesWithin(n, es[..k + 1]) && CircuitCount(n, es[..k + 1]) == 1)
  }

  /** At most one edge completes the single circuit; it is a merging edge, and
      with it exactly n - 1 edges have merged. */
  lemma CompletesAtUnique(n: nat, es: seq<Edge>, k: int, k': int)
    requires EdgesWithin(n, es) && CompletesAt(n, es, k) && CompletesAt(n, es, k')
    ensures k == k'
    ensures var prev := Connect(n, es[..k]); prev[es[k].i] != prev[es[k].j]
    ensures Merges(n, es[..k + 1]) == n - 1
  {
    if k < k' {
      CircuitsNonIncreasing(n, es, k + 1, k');
    } else if k' < k {
      CircuitsNonIncreasing(n, es, k' + 1, k);
    }
    CircuitStep(n, es, k);
    CircuitsAndMerges(n, es[..k + 1]);
  }

  // ---------------------------------------------------------------------------
  // Part 1: the first MAX_CONNECTIONS edges, then the circuit sizes
  // ---------------------------------------------------------------------------

  /** How many edges part 1 hands to `union`: it breaks once the 1-based position
      equals the limit, which never happens for a limit outside 1 .. m. */
  function Processed(maxConnections: int, m: nat): (k: nat)
    ensures k <= m
  {
    if 1 <= maxConnections <= m then maxConnections else m
  }

  /** The number of positions below `i` labelled `r`. */
  function CountBelow(rep: seq<int>, r: int, i: nat): nat
    requires i <= |rep|
  {
    if i == 0 then 0 else CountBelow(rep, r, i - 1) + if rep[i - 1] == r then 1 else 0
  }

  lemma {:induction false} CountBelowMembers(rep: seq<int>, r: int, i: nat)
    requires i <= |rep|
    ensures CountBelow(rep, r, i) == |set k | 0 <= k < i && rep[k] == r|
  {
    if i > 0 {
      CountBelowMembers(rep, r, i - 1);
      var below := set k | 0 <= k < i - 1 && rep[k] == r;
      if rep[i - 1] == r {
        assert (set k | 0 <= k < i && rep[k] == r) == below + {i - 1};
      } else {
        assert (set k | 0 <= k < i && rep[k] == r) == below;
      }
    }
  }

  /** `circuit_sizes` after the loop has visited boxes `0 .. i - 1`:
      `circuit_sizes[root] = circuit_sizes.get(root, 0) + 1` for each. */
  function Tally(rep: seq<int>, i: nat): seq<(int, int)>
    requires i <= |rep|
  {
    if i == 0 then []
    else
      var t := Tally(rep, i - 1);
      Put(t, rep[i - 1], GetOr(t, rep[i - 1], 0) + 1)
  }

  /** The labels of positions `0 .. i - 1`. */
  function Seen(rep: seq<int>, i: nat): (s: set<int>)
    requires i <= |rep|
    ensures forall x :: x in s <==> exists k :: 0 <= k < i && rep[k] == x
  {
    if i == 0 then {} else Seen(rep, i - 1) + {rep[i - 1]}
  }

  lemma {:induction false} TallyDistinct(rep: seq<int>, i: nat)
    requires i <= |rep|
    ensures DistinctKeys(Tally(rep, i))
  {
    if i > 0 {
      var t := Tally(rep, i - 1);
      TallyDistinct(rep, i - 1);
      PutDistinct(t, rep[i - 1], GetOr(t, rep[i - 1], 0) + 1);
    }
  }

  lemma {:induction false} TallyKeys(rep: seq<int>, i: nat)
    requires i <= |rep|
    ensures Keys(Tally(rep, i)) == Seen(rep, i)
  {
    if i > 0 {
      var t := Tally(rep, i - 1);
      TallyKeys(rep, i - 1);
      PutFacts(t, rep[i - 1], GetOr(t, rep[i - 1], 0) + 1);
    }
  }

  lemma {:induction false} TallyCounts(rep: seq<int>, i: nat)
    requires i <= |rep|
    ensures forall r :: GetOr(Tally(rep, i), r, 0) == CountBelow(rep, r, i)
  {
    if i > 0 {
      var t := Tally(rep, i - 1);
      var r := rep[i - 1];
      TallyCounts(rep, i - 1);
      forall r' ensures GetOr(Tally(rep, i), r', 0) == CountBelow(rep, r', i) {
        GetOrPut(t, r, GetOr(t, r, 0) + 1, r', 0);
      }
    }
  }

  lemma {:induction false} TallySum(rep: seq<int>, i: nat)
    requires i <= |rep|
    ensures Sum(Values(Tally(rep, i))) == i
  {
    if i > 0 {
      TallySum(rep, i - 1);
      PutIncrementSum(Tally(rep, i - 1), rep[i - 1]);
    }
  }

  /** The circuit-size dict has one key per circuit, each mapped to that
      circuit's size, and its values add up to the number of boxes. */
  lemma CircuitSizes(rep: seq<int>)
    requires IsLabelling(rep)
    ensures DistinctKeys(Tally(rep, |rep|))
    ensures Keys(Tally(rep, |rep|)) == Representatives(rep)
    ensures forall r :: r in Representatives(rep) ==> Get(Tally(rep, |rep|), r) == Some(Count(rep, r))
    ensures Sum(Values(Tally(rep, |rep|))) == |rep|
  {
    TallyDistinct(rep, |rep|);
    TallyKeys(rep, |rep|);
    TallyCounts(rep, |rep|);
    TallySum(rep, |rep|);
    forall r | r in Representatives(rep)
      ensures Get(Tally(rep, |rep|), r) == Some(Count(rep, r))
    {
      CountBelowMembers(rep, r, |rep|);
      assert (set k | 0 <= k < |rep| && rep[k] == r) == Members(rep, r);
      assert rep[r] == r;
    }
    assert Seen(rep, |rep|) == Representatives(rep) by {
      forall r | r in Representatives(rep) ensures r in Seen(rep, |rep|) {
        assert rep[r] == r;
      }
    }
  }

  ghost predicate Descending(s: seq<int>)
  {
    forall a, b :: 0 <= a < b < |s| ==> s[a] >= s[b]
  }

  function InsertDescending(sorted: seq<int>, x: int): (r: seq<int>)
    ensures multiset(r) == multiset(sorted) + multiset{x}
    decreases |sorted|
  {
    if sorted == [] || sorted[|sorted| - 1] >= x then sorted + [x]
    else
      assert sorted == sorted[..|sorted| - 1] + [sorted[|sorted| - 1]];
      InsertDescending(sorted[..|sorted| - 1], x) + [sorted[|sorted| - 1]]
  }

  lemma {:induction false} InsertDescendingSorted(sorted: seq<int>, x: int)
    requires Descending(sorted)
    ensures Descending(InsertDescending(sorted, x))
    decreases |sorted|
  {
    if sorted != [] && sorted[|sorted| - 1] < x {
      var init, last := sorted[..|sorted| - 1], sorted[|sorted| - 1];
      InsertDescendingSorted(init, x);
      var front := InsertDescending(init, x);
      forall t | 0 <= t < |front|
        ensures front[t] >= last
      {
        assert front[t] in multiset(front);
        if front[t] != x {
          var u :| 0 <= u < |init| && init[u] == front[t];
          assert sorted[u] == front[t];
        }
      }
    }
  }

  /** Python's `sorted(values, reverse=True)` on integers. */
  function SortDescending(s: seq<int>): (r: seq<int>)
    ensures multiset(r) == multiset(s)
  {
    if s == [] then []
    else
      assert s == s[..|s| - 1] + [s[|s| - 1]];
      InsertDescending(SortDescending(s[..|s| - 1]), s[|s| - 1])
  }

  /** The result is in descending order. */
  lemma {:induction false} SortDescendingSorted(s: seq<int>)
    ensures Descending(SortDescending(s))
  {
    if s != [] {
      SortDescendingSorted(s[..|s| - 1]);
      InsertDescendingSorted(SortDescending(s[..|s| - 1]), s[|s| - 1]);
    }
  }

  /** Python's `s[:k]`. */
  function Take(s: seq<int>, k: nat): seq<int>
  {
    if k <= |s| then s[..k] else s
  }

  /** The slice `largest_sizes[:3]` is made of the three largest values (or all of
      them when there are fewer): nothing left out is larger than anything kept. */
  lemma TopThree(vs: seq<int>)
    ensures var t := Take(SortDescending(vs), 3);
      && |t| == (if |vs| < 3 then |vs| else 3)
      && multiset(t) <= multiset(vs)
      && forall x, y :: x in t && y in multiset(vs) - multiset(t) ==> x >= y
  {
    var s := SortDescending(vs);
    SortDescendingSorted(vs);
    var t := Take(s, 3);
    assert s == t + s[|t|..];
    forall x, y | x in t && y in multiset(vs) - multiset(t)
      ensures x >= y
    {
      assert y in s[|t|..];
    }
  }

  /** Part 1's edge loop: hand the edges to `union` in order, breaking once the
      1-based position equals `maxConnections`. */
  method ConnectFirst(ds: DisjointSet, edges: seq<Edge>, maxConnections: int) returns (processed: nat)
    requires ds.Valid() && EdgesWithin(|ds.root|, edges) && ds.root == Singletons(|ds.root|)
    modifies ds, ds.parent, ds.size
    ensures ds.Valid() && ds.parent == old(ds.parent) && ds.size == old(ds.size)
    ensures processed == Processed(maxConnections, |edges|)
    ensures EdgesWithin(|ds.root|, edges[..processed])
    ensures ds.root == Connect(|ds.root|, edges[..processed])
  {
    ghost var n := |ds.root|;
    processed := 0;
    while processed < |edges|
      invariant processed <= |edges| && EdgesWithin(n, edges[..processed])
      invariant ds.Valid() && ds.parent == old(ds.parent) && ds.size == old(ds.size)
      invariant |ds.root| == n && ds.root == Connect(n, edges[..processed])
      invariant !(1 <= maxConnections <= processed)
    {
      var e := edges[processed];
      CircuitStep(n, edges, processed);
      var merged := ds.Union(e.i, e.j);
      processed := processed + 1;
      if processed == maxConnections {
        break;
      }
    }
  }

  /** Part 1's size loop: `circuit_sizes[find(i)] += 1` for every box, in order. */
  method CountCircuitSizes(ds: DisjointSet) returns (sizes: seq<(int, int)>)
    requires ds.Valid()
    modifies ds.parent
    ensures ds.Valid() && ds.root == old(ds.root)
    ensures sizes == Tally(ds.root, |ds.root|)
  {
    var roots := FindAll(ds);
    sizes := TallyRoots(roots);
  }

  /** `find(i)` for every box in turn, compressing paths on the way. */
  method FindAll(ds: DisjointSet) returns (roots: seq<int>)
    requires ds.Valid()
    modifies ds.parent
    ensures ds.Valid() && ds.root == old(ds.root)
    ensures roots == ds.root
  {
    ghost var rep := ds.root;
    roots := [];
    for i := 0 to ds.parent.Length
      invariant ds.Valid() && ds.root == rep
      invariant |roots| == i
      invariant forall k :: 0 <= k < i ==> roots[k] == rep[k]
    {
      var root := ds.Find(i);
      AgreeAppend(roots, rep, root);
      roots := roots + [root];
    }
  }

  /** Extending a prefix of `rep` by its next element gives a longer prefix. */
  lemma AgreeAppend(prefix: seq<int>, rep: seq<int>, x: int)
    requires |prefix| < |rep| && x == rep[|prefix|]
    requires forall k :: 0 <= k < |prefix| ==> prefix[k] == rep[k]
    ensures forall k :: 0 <= k < |prefix| + 1 ==> (prefix + [x])[k] == rep[k]
  {
  }

  /** The counting loop of `sizes[root] = sizes.get(root, 0) + 1`. */
  method TallyRoots(roots: seq<int>) returns (sizes: seq<(int, int)>)
    ensures sizes == Tally(roots, |roots|)
  {
    sizes := [];
    for i := 0 to |roots|
      invariant sizes == Tally(roots, i)
    {
      sizes := Put(sizes, roots[i], GetOr(sizes, roots[i], 0) + 1);
    }
  }

  /** Part 1's answer: the product of `sorted(values, reverse=True)[:3]`. */
  method MultiplyLargest(values: seq<int>) returns (result: int)
    ensures result == Product(Take(SortDescending(values), 3))
  {
    var largest := SortDescending(values);
    var top := Take(largest, 3);
    result := 1;
    for k := 0 to |top|
      invariant result == Product(top[..k])
    {
      assert top[..k + 1][..k] == top[..k];
      result := result * top[k];
    }
    assert top[..|top|] == top;
  }

  /** The whole of part 1: sort the edges, hand the first `maxConnections` of
      them to `union` (all of them when the limit is not positive or exceeds the
      list), count the boxes per root, and multiply the up-to-three largest sizes. */
  method ConnectClosest(points: seq<Point>, maxConnections: int) returns (result: int)
    requires SameDimension(points)
    ensures var es := SortByDistance(Edges(points));
      EdgesWithin(|points|, es) &&
      result == Product(Take(SortDescending(Values(Tally(Connect(|points|, es[..Processed(maxConnections, |es|)]), |points|))), 3))
  {
    var ds := new DisjointSet(|points|);
    var edges := ComputeEdges(points);
    edges := SortByDistance(edges);
    SortedEdges(points);
    var processed := ConnectFirst(ds, edges, maxConnections);
    var sizes := CountCircuitSizes(ds);
    result := MultiplyLargest(Values(sizes));
  }

  // ---------------------------------------------------------------------------
  // Part 2: connect until one circuit is left
  // ---------------------------------------------------------------------------

  /** The sorted edge list of part 2 joins every box into one circuit, and is
      empty when there are fewer than two boxes. */
  lemma SortedEdgesConnect(points: seq<Point>)
    requires SameDimension(points)
    ensures var es := SortByDistance(Edges(points));
      && EdgesWithin(|points|, es)
      && (|points| < 2 <==> es == [])
      && (|points| >= 2 ==> CircuitCount(|points|, es) == 1)
  {
    var n := |points|;
    var es := SortByDistance(Edges(points));
    SortedEdges(points);
    if n >= 2 {
      AllConnected(n, es);
      var k :| 0 <= k < |es| && PairOf(es[k]) == (0, 1);
    }
    if |es| > 0 {
      assert es[0].i < es[0].j < n;
    }
  }

  /** `union(i, j)` for the next edge of the list, as seen by the circuit count. */
  method UnionEdge(ds: DisjointSet, edges: seq<Edge>, idx: nat) returns (merged: bool)
    requires ds.Valid() && EdgesWithin(|ds.root|, edges) && idx < |edges|
    requires EdgesWithin(|ds.root|, edges[..idx]) && ds.root == Connect(|ds.root|, edges[..idx])
    modifies ds, ds.parent, ds.size
    ensures ds.Valid() && ds.parent == old(ds.parent) && ds.size == old(ds.size)
    ensures |ds.root| == |old(ds.root)| && EdgesWithin(|ds.root|, edges[..idx + 1])
    ensures ds.root == Connect(|ds.root|, edges[..idx + 1])
    ensures Merges(|ds.root|, edges[..idx + 1]) == Merges(|ds.root|, edges[..idx]) + (if merged then 1 else 0)
  {
    CircuitStep(|ds.root|, edges, idx);
    assert edges[..idx + 1][..idx] == edges[..idx];
    merged := ds.Union(edges[idx].i, edges[idx].j);
  }

  /** The edge that takes the merge count from `n - 2` to `n - 1` completes the
      single circuit. */
  lemma MergesComplete(n: nat, es: seq<Edge>, k: nat)
    requires EdgesWithin(n, es) && k < |es|
    requires EdgesWithin(n, es[..k]) && EdgesWithin(n, es[..k + 1])
    requires Merges(n, es[..k]) + 2 == n && Merges(n, es[..k + 1]) + 1 == n
    ensures CompletesAt(n, es, k)
  {
    CircuitsAndMerges(n, es[..k]);
    CircuitsAndMerges(n, es[..k + 1]);
  }

  /** The merge that leaves one circuit: before it the boxes formed two
      circuits, after it one. */
  lemma FinalMerge(n: nat, edges: seq<Edge>, idx: nat, before: int)
    requires idx < |edges| && EdgesWithin(n, edges[..idx + 1])
    requires before + Merges(n, edges[..idx]) == n && before == 2
    requires Merges(n, edges[..idx + 1]) == Merges(n, edges[..idx]) + 1
    ensures Merges(n, edges[..idx]) + 2 == n && Merges(n, edges[..idx + 1]) + 1 == n
  {
  }

  /** Part 2's loop: `union` the edges in order, counting circuits down from the
      number of boxes and remembering the pair of every successful merge; stop
      once one circuit is left. Either the count reached one at a merging edge,
      or every edge was used; in both cases the count is the number of boxes
      less the merges so far. */
  method ConnectUntilOne(ds: DisjointSet, edges: seq<Edge>) returns (total: int, lastPair: Option<(nat, nat)>, ghost last: int)
    requires ds.Valid() && EdgesWithin(|ds.root|, edges) && ds.root == Singletons(|ds.root|)
    modifies ds, ds.parent, ds.size
    ensures ds.Valid() && ds.parent == old(ds.parent) && ds.size == old(ds.size)
    ensures edges == [] ==> lastPair.None?
    ensures total != 1 ==> total + Merges(ds.parent.Length, edges) == ds.parent.Length
    ensures total == 1 && ds.parent.Length >= 2 ==> lastPair.Some? && 0 <= last < |edges|
    ensures total == 1 && ds.parent.Length >= 2 ==> lastPair == Some(PairOf(edges[last]))
    ensures total == 1 && ds.parent.Length >= 2 ==>
      EdgesWithin(ds.parent.Length, edges[..last]) && EdgesWithin(ds.parent.Length, edges[..last + 1])
    ensures total == 1 && ds.parent.Length >= 2 ==> Merges(ds.parent.Length, edges[..last]) + 2 == ds.parent.Length
    ensures total == 1 && ds.parent.Length >= 2 ==> Merges(ds.parent.Length, edges[..last + 1]) + 1 == ds.parent.Length
  {
    ghost var n := |ds.root|;
    assert n == ds.parent.Length;
    assert edges[..0] == [];
    total := ds.parent.Length;
    lastPair := None;
    last := -1;
    var idx := 0;
    while idx < |edges|
      invariant idx <= |edges| && EdgesWithin(n, edges[..idx])
      invariant ds.Valid() && ds.parent == old(ds.parent) && ds.size == old(ds.size)
      invariant |ds.root| == n && ds.root == Connect(n, edges[..idx])
      invariant total + Merges(n, edges[..idx]) == n
      invariant idx == 0 ==> lastPair.None?
      invariant lastPair.Some? ==> 0 <= last < idx && lastPair.value == PairOf(edges[last])
      invariant n >= 2 ==> total >= 2
    {
      var e := edges[idx];
      ghost var before := total;
      var merged := UnionEdge(ds, edges, idx);
      if merged {
        total := total - 1;
        lastPair := Some((e.i, e.j));
        last := idx;
        if total == 1 {
          FinalMerge(n, edges, idx, before);
          return;
        }
      }
      idx := idx + 1;
    }
    assert edges[..idx] == edges;
  }

  /** The whole of part 2: walk the sorted edges until one circuit is left; the
      answer multiplies the X coordinates of the two boxes of the edge that
      completed it. With fewer than two boxes no edge exists, `last_pair` stays
      `None` and unpacking it fails, which is `None` here. */
  method LastConnection(points: seq<Point>) returns (result: Option<int>)
    requires SameDimension(points)
    requires forall k :: 0 <= k < |points| ==> |points[k]| >= 1
    ensures result.None? <==> |points| < 2
    ensures result.Some? ==> var es := SortByDistance(Edges(points));
      EdgesWithin(|points|, es) &&
      exists k :: CompletesAt(|points|, es, k) && result.value == points[es[k].i][0] * points[es[k].j][0]
  {
    var n := |points|;
    var ds := new DisjointSet(n);
    var edges := SortByDistance(Edges(points));
    SortedEdgesConnect(points);
    var total, lastPair, last := ConnectUntilOne(ds, edges);
    if n >= 2 {
      if total == 1 {
        MergesComplete(n, edges, last);
      } else {
        CircuitsAndMerges(n, edges);
      }
    }
    if lastPair.None? {
      return None;
    }
    var (i, j) := lastPair.value;
    result := Some(points[i][0] * points[j][0]);
  }
}
