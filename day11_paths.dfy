/** Day 11: counting the paths from one device to another with a memoised
    depth-first search, and part 2's count of the paths that pass through two
    given devices. */
module PathCounting {
  import opened Common
  import opened DeviceGraph

  /** The successors `graph.get(node, [])` of a device. */
  function Next(graph: Graph, node: string): seq<string>
  {
    if node in graph then graph[node] else []
  }

  /** `rank` numbers the devices so that every edge leaving a ranked device
      other than `end` leads to a ranked device of smaller rank. A ranking that
      holds `start` exists exactly when no cycle can be reached from `start`
      without passing `end`; it is the termination argument of the search,
      which otherwise recurses forever. */
  ghost predicate Ranked(graph: Graph, rank: map<string, nat>, end: string)
  {
    forall u, k :: u in rank && u != end && 0 <= k < |Next(graph, u)| ==>
      Next(graph, u)[k] in rank && rank[Next(graph, u)[k]] < rank[u]
  }

  /** The number of paths from `node` to `end`, a path stopping the first time
      it reaches `end`; edges listed twice are two edges. */
  ghost function Paths(graph: Graph, rank: map<string, nat>, end: string, node: string): nat
    requires Ranked(graph, rank, end) && node in rank
    decreases rank[node], 1, 0
  {
    if node == end then 1 else PathsVia(graph, rank, end, node, |Next(graph, node)|)
  }

  /** The paths from `node` to `end` whose first edge is one of the first `k`
      listed for `node`. */
  ghost function PathsVia(graph: Graph, rank: map<string, nat>, end: string, node: string, k: nat): nat
    requires Ranked(graph, rank, end) && node in rank && node != end && k <= |Next(graph, node)|
    decreases rank[node], 0, k
  {
    if k == 0 then 0
    else PathsVia(graph, rank, end, node, k - 1) + Paths(graph, rank, end, Next(graph, node)[k - 1])
  }

  /** The count does not depend on which ranking stands witness for the
      absence of cycles. */
  lemma {:induction false} PathsAnyRank(graph: Graph, r1: map<string, nat>, r2: map<string, nat>, end: string, node: string)
    requires Ranked(graph, r1, end) && Ranked(graph, r2, end) && node in r1 && node in r2
    ensures Paths(graph, r1, end, node) == Paths(graph, r2, end, node)
    decreases r1[node], 1, 0
  {
    if node != end {
      PathsViaAnyRank(graph, r1, r2, end, node, |Next(graph, node)|);
    }
  }

  lemma {:induction false} PathsViaAnyRank(graph: Graph, r1: map<string, nat>, r2: map<string, nat>, end: string, node: string, k: nat)
    requires Ranked(graph, r1, end) && Ranked(graph, r2, end) && node in r1 && node in r2
    requires node != end && k <= |Next(graph, node)|
    ensures PathsVia(graph, r1, end, node, k) == PathsVia(graph, r2, end, node, k)
    decreases r1[node], 0, k
  {
    if k > 0 {
      PathsViaAnyRank(graph, r1, r2, end, node, k - 1);
      PathsAnyRank(graph, r1, r2, end, Next(graph, node)[k - 1]);
    }
  }

  /** A device with a path to `end` ranks above it: the search only moves
      down the ranking. */
  lemma {:induction false} PathsDescend(graph: Graph, rank: map<string, nat>, end: string, node: string)
    requires Ranked(graph, rank, end) && node in rank && end in rank
    requires node != end && Paths(graph, rank, end, node) > 0
    ensures rank[end] < rank[node]
    decreases rank[node], 1, 0
  {
    var k := PathsViaPositive(graph, rank, end, node, |Next(graph, node)|);
    var next := Next(graph, node)[k];
    if next != end {
      PathsDescend(graph, rank, end, next);
    }
  }

  /** A positive count has a first edge that starts a path. */
  lemma {:induction false} PathsViaPositive(graph: Graph, rank: map<string, nat>, end: string, node: string, n: nat)
    returns (k: nat)
    requires Ranked(graph, rank, end) && node in rank && node != end && n <= |Next(graph, node)|
    requires PathsVia(graph, rank, end, node, n) > 0
    ensures k < n && Paths(graph, rank, end, Next(graph, node)[k]) > 0
  {
    if Paths(graph, rank, end, Next(graph, node)[n - 1]) > 0 {
      k := n - 1;
    } else {
      k := PathsViaPositive(graph, rank, end, node, n - 1);
    }
  }

  /** The state of one `count_paths` call: the graph and target it closes over
      and the memo it fills, one entry per device whose count is known. */
  class PathCounter {
    const graph: Graph
    const end: string
    ghost const rank: map<string, nat>
    var memo: map<string, nat>

    /** Every memo entry is the true count of its device. */
    ghost predicate Valid()
      reads this
    {
      Ranked(graph, rank, end)
      && forall node :: node in memo ==> node in rank && memo[node] == Paths(graph, rank, end, node)
    }

    constructor (graph: Graph, end: string, ghost rank: map<string, nat>)
      requires Ranked(graph, rank, end)
      ensures Valid() && memo == map[]
      ensures this.graph == graph && this.end == end && this.rank == rank
    {
      this.graph := graph;
      this.end := end;
      this.rank := rank;
      memo := map[];
    }

    /** `dfs`: the count of paths from `node`, from the memo when known. */
    method Search(node: string) returns (total: nat)
      requires Valid() && node in rank
      modifies this
      ensures Valid() && total == Paths(graph, rank, end, node)
      ensures memo.Keys >= old(memo.Keys)
      decreases rank[node]
    {
      if node == end {
        return 1;
      }
      if node in memo {
        return memo[node];
      }
      var next := if node in graph then graph[node] else [];
      total := 0;
      for k := 0 to |next|
        invariant Valid()
        invariant total == PathsVia(graph, rank, end, node, k)
        invariant memo.Keys >= old(memo.Keys)
      {
        var count := Search(next[k]);
        total := total + count;
      }
      memo := memo[node := total];
    }
  }

  /** `count_paths`. */
  method CountPaths(graph: Graph, start: string, end: string, ghost rank: map<string, nat>) returns (count: nat)
    requires Ranked(graph, rank, end) && start in rank
    ensures count == Paths(graph, rank, end, start)
  {
    var counter := new PathCounter(graph, end, rank);
    count := counter.Search(start);
  }

  /** The whole graph is free of cycles: every edge goes down the ranking.
      The four searches of part 2 end at three different devices, and one
      ranking of this kind serves them all. */
  ghost predicate Acyclic(graph: Graph, rank: map<string, nat>)
  {
    forall u, k :: u in rank && 0 <= k < |Next(graph, u)| ==>
      Next(graph, u)[k] in rank && rank[Next(graph, u)[k]] < rank[u]
  }

  lemma AcyclicRanked(graph: Graph, rank: map<string, nat>, end: string)
    requires Acyclic(graph, rank)
    ensures Ranked(graph, rank, end)
  {
  }

  /** Without cycles, two distinct devices cannot each reach the other. */
  lemma OneOrder(graph: Graph, rank: map<string, nat>, a: string, b: string)
    requires Acyclic(graph, rank) && a in rank && b in rank && a != b
    ensures Paths(graph, rank, b, a) == 0 || Paths(graph, rank, a, b) == 0
  {
    if Paths(graph, rank, b, a) > 0 && Paths(graph, rank, a, b) > 0 {
      PathsDescend(graph, rank, b, a);
      PathsDescend(graph, rank, a, b);
    }
  }

  /** `main` of part 1: the paths from "you" to "out", or `None` when the
      file is malformed. */
  method YouToOut(lines: seq<string>, ghost rank: map<string, nat>) returns (answer: Option<nat>)
    requires "you" in rank
    requires Load(ParseAll(lines), |lines|).Some? ==> Ranked(Load(ParseAll(lines), |lines|).value, rank, "out")
    ensures answer.None? <==> Load(ParseAll(lines), |lines|).None?
    ensures answer.Some? ==> answer.value == Paths(Load(ParseAll(lines), |lines|).value, rank, "out", "you")
  {
    var graph := LoadGraph(lines);
    if graph.None? {
      return None;
    }
    var count := CountPaths(graph.value, "you", "out", rank);
    return Some(count);
  }

  /** The devices part 2 needs: start, end and the two to pass through. */
  const Required: seq<string> := ["svr", "out", "dac", "fft"]

  /** The paths from "svr" to "out" that go to `first`, then on to `second`,
      counted as one of the two products of part 2. */
  ghost function Chain(graph: Graph, rank: map<string, nat>, first: string, second: string): nat
    requires Acyclic(graph, rank) && "svr" in rank && first in rank && second in rank
  {
    AcyclicRanked(graph, rank, first);
    AcyclicRanked(graph, rank, second);
    AcyclicRanked(graph, rank, "out");
    Paths(graph, rank, first, "svr") * Paths(graph, rank, second, first) * Paths(graph, rank, "out", second)
  }

  /** Part 2's count: the paths that meet "dac" and then "fft", plus those
      that meet "fft" and then "dac". */
  ghost function Through(graph: Graph, rank: map<string, nat>): nat
    requires Acyclic(graph, rank) && "svr" in rank && "dac" in rank && "fft" in rank
  {
    Chain(graph, rank, "dac", "fft") + Chain(graph, rank, "fft", "dac")
  }

  /** Without cycles at most one of the two orders contributes. */
  lemma ThroughOneOrder(graph: Graph, rank: map<string, nat>)
    requires Acyclic(graph, rank) && "svr" in rank && "dac" in rank && "fft" in rank
    ensures Chain(graph, rank, "dac", "fft") == 0 || Chain(graph, rank, "fft", "dac") == 0
  {
    OneOrder(graph, rank, "dac", "fft");
  }

  /** `main` of part 2 on a loaded graph: `None` for the `ValueError` raised
      when a required device appears nowhere in the graph. */
  method ThroughBoth(graph: Graph, ghost rank: map<string, nat>) returns (total: Option<nat>)
    requires Acyclic(graph, rank) && "svr" in rank && "dac" in rank && "fft" in rank
    ensures total.None? <==> exists i :: 0 <= i < |Required| && !Known(graph, Required[i])
    ensures total.Some? ==> total.value == Through(graph, rank)
  {
    var found := AllKnown(graph);
    if !found {
      return None;
    }
    var count := CountThrough(graph, rank);
    return Some(count);
  }

  /** The loop of `main` of part 2 that looks for each required device. */
  method AllKnown(graph: Graph) returns (found: bool)
    ensures found <==> forall i :: 0 <= i < |Required| ==> Known(graph, Required[i])
  {
    for i := 0 to |Required|
      invariant forall j :: 0 <= j < i ==> Known(graph, Required[j])
    {
      var needed := Required[i];
      if !(needed in graph) && !(exists src | src in graph :: needed in graph[src]) {
        return false;
      }
    }
    return true;
  }

  /** The searches of part 2 and the formula that combines them. */
  method CountThrough(graph: Graph, ghost rank: map<string, nat>) returns (total: nat)
    requires Acyclic(graph, rank) && "svr" in rank && "dac" in rank && "fft" in rank
    ensures total == Through(graph, rank)
  {
    var dacThenFft := CountChain(graph, rank, "dac", "fft");
    var fftThenDac := CountChain(graph, rank, "fft", "dac");
    total := dacThenFft + fftThenDac;
  }

  /** One product of part 2: the counts from "svr" to `first`, from `first`
      to `second` and from `second` to "out", multiplied. */
  method CountChain(graph: Graph, ghost rank: map<string, nat>, first: string, second: string) returns (count: nat)
    requires Acyclic(graph, rank) && "svr" in rank && first in rank && second in rank
    ensures count == Chain(graph, rank, first, second)
  {
    AcyclicRanked(graph, rank, first);
    AcyclicRanked(graph, rank, second);
    AcyclicRanked(graph, rank, "out");
    var toFirst := CountPaths(graph, "svr", first, rank);
    var between := CountPaths(graph, first, second, rank);
    var toOut := CountPaths(graph, second, "out", rank);
    count := toFirst * between * toOut;
  }

  /** `main` of part 2 from the file's lines: `None` when the file is
      malformed or a required device is missing. */
  method SvrToOut(lines: seq<string>, ghost rank: map<string, nat>) returns (answer: Option<nat>)
    requires "svr" in rank && "dac" in rank && "fft" in rank
    requires Load(ParseAll(lines), |lines|).Some? ==> Acyclic(Load(ParseAll(lines), |lines|).value, rank)
    ensures answer.None? <==>
              (Load(ParseAll(lines), |lines|).None?
               || exists i :: 0 <= i < |Required| && !Known(Load(ParseAll(lines), |lines|).value, Required[i]))
    ensures answer.Some? ==> answer.value == Through(Load(ParseAll(lines), |lines|).value, rank)
  {
    var graph := LoadGraph(lines);
    if graph.None? {
      return None;
    }
    answer := ThroughBoth(graph.value, rank);
  }
}
