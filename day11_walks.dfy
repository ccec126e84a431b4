/** Day 11: what `count_paths` counts, defined independently of the search.
    A path is written as the list of edge choices it makes: at each device,
    the position of the chosen destination in that device's list. */
module PathEnumeration {
  import opened DeviceGraph
  import opened PathCounting

  /** `choices` leads from `node` to `end`, and reaches `end` only at its
      last step. */
  ghost predicate IsPath(graph: Graph, end: string, node: string, choices: seq<nat>)
    decreases |choices|
  {
    if choices == [] then node == end
    else
      node != end && choices[0] < |Next(graph, node)|
      && IsPath(graph, end, Next(graph, node)[choices[0]], choices[1..])
  }

  /** The choice lists of `s`, each with choice `k` put in front. */
  ghost function Prefixed(k: nat, s: set<seq<nat>>): (r: set<seq<nat>>)
  {
    set p | p in s :: [k] + p
  }

  /** The paths from `node` to `end`. */
  ghost function PathSet(graph: Graph, rank: map<string, nat>, end: string, node: string): set<seq<nat>>
    requires Ranked(graph, rank, end) && node in rank
    decreases rank[node], 1, 0
  {
    if node == end then {[]} else PathSetVia(graph, rank, end, node, |Next(graph, node)|)
  }

  /** The paths from `node` to `end` whose first choice is below `k`. */
  ghost function PathSetVia(graph: Graph, rank: map<string, nat>, end: string, node: string, k: nat): set<seq<nat>>
    requires Ranked(graph, rank, end) && node in rank && node != end && k <= |Next(graph, node)|
    decreases rank[node], 0, k
  {
    if k == 0 then {}
    else PathSetVia(graph, rank, end, node, k - 1) + Prefixed(k - 1, PathSet(graph, rank, end, Next(graph, node)[k - 1]))
  }

  /** `PathSet` holds the paths and nothing else. */
  lemma {:induction false} PathSetIsPaths(graph: Graph, rank: map<string, nat>, end: string, node: string, p: seq<nat>)
    requires Ranked(graph, rank, end) && node in rank
    ensures p in PathSet(graph, rank, end, node) <==> IsPath(graph, end, node, p)
    decreases rank[node], 1, 0
  {
    if node != end {
      PathSetViaIsPaths(graph, rank, end, node, |Next(graph, node)|, p);
    }
  }

  lemma {:induction false} PathSetViaIsPaths(graph: Graph, rank: map<string, nat>, end: string, node: string, k: nat, p: seq<nat>)
    requires Ranked(graph, rank, end) && node in rank && node != end && k <= |Next(graph, node)|
    ensures p in PathSetVia(graph, rank, end, node, k) <==> p != [] && p[0] < k && IsPath(graph, end, node, p)
    decreases rank[node], 0, k
  {
    if k > 0 {
      PathSetViaIsPaths(graph, rank, end, node, k - 1, p);
      var next := Next(graph, node)[k - 1];
      var rest := PathSet(graph, rank, end, next);
      if p != [] && p[0] == k - 1 {
        PathSetIsPaths(graph, rank, end, next, p[1..]);
        assert p == [k - 1] + p[1..];
        PrefixedHas(k - 1, rest, p[1..]);
      } else {
        PrefixedHead(k - 1, rest, p);
      }
    }
  }

  lemma PrefixedHas(k: nat, s: set<seq<nat>>, q: seq<nat>)
    ensures [k] + q in Prefixed(k, s) <==> q in s
  {
    if [k] + q in Prefixed(k, s) {
      var q' :| q' in s && [k] + q' == [k] + q;
      assert q' == ([k] + q')[1..] == ([k] + q)[1..] == q;
    }
  }

  lemma PrefixedHead(k: nat, s: set<seq<nat>>, p: seq<nat>)
    ensures p in Prefixed(k, s) ==> p != [] && p[0] == k
  {
  }

  /** Putting the same choice in front keeps paths apart, so it keeps the
      number of them. */
  lemma {:induction false} PrefixedCount(k: nat, s: set<seq<nat>>)
    ensures |Prefixed(k, s)| == |s|
    decreases |s|
  {
    if s != {} {
      var q :| q in s;
      PrefixedCount(k, s - {q});
      assert Prefixed(k, s) == Prefixed(k, s - {q}) + {[k] + q} by {
        forall p | p in Prefixed(k, s)
          ensures p in Prefixed(k, s - {q}) + {[k] + q}
        {
          var q' :| q' in s && p == [k] + q';
          if q' != q {
            PrefixedHas(k, s - {q}, q');
          }
        }
      }
      PrefixedHas(k, s - {q}, q);
    }
  }

  /** The search counts exactly the paths: the number `count_paths` returns is
      the size of the set of paths from `node` to `end`. */
  lemma {:induction false} PathsCounted(graph: Graph, rank: map<string, nat>, end: string, node: string)
    requires Ranked(graph, rank, end) && node in rank
    ensures |PathSet(graph, rank, end, node)| == Paths(graph, rank, end, node)
    decreases rank[node], 1, 0
  {
    if node != end {
      PathsViaCounted(graph, rank, end, node, |Next(graph, node)|);
    }
  }

  lemma {:induction false} PathsViaCounted(graph: Graph, rank: map<string, nat>, end: string, node: string, k: nat)
    requires Ranked(graph, rank, end) && node in rank && node != end && k <= |Next(graph, node)|
    ensures |PathSetVia(graph, rank, end, node, k)| == PathsVia(graph, rank, end, node, k)
    decreases rank[node], 0, k
  {
    if k > 0 {
      PathsViaCounted(graph, rank, end, node, k - 1);
      var next := Next(graph, node)[k - 1];
      PathsCounted(graph, rank, end, next);
      var earlier := PathSetVia(graph, rank, end, node, k - 1);
      var last := Prefixed(k - 1, PathSet(graph, rank, end, next));
      PrefixedCount(k - 1, PathSet(graph, rank, end, next));
      ViaDisjoint(graph, rank, end, node, k);
      DisjointSize(earlier, last);
      ViaUnfold(graph, rank, end, node, k);
    }
  }

  /** The paths through the first `k` choices: those through the first
      `k - 1`, and those through choice `k - 1`. */
  lemma ViaUnfold(graph: Graph, rank: map<string, nat>, end: string, node: string, k: nat)
    requires Ranked(graph, rank, end) && node in rank && node != end && 0 < k <= |Next(graph, node)|
    ensures var next := Next(graph, node)[k - 1];
      && next in rank
      && PathSetVia(graph, rank, end, node, k)
         == PathSetVia(graph, rank, end, node, k - 1) + Prefixed(k - 1, PathSet(graph, rank, end, next))
      && PathsVia(graph, rank, end, node, k) == PathsVia(graph, rank, end, node, k - 1) + Paths(graph, rank, end, next)
  {
  }

  /** The paths whose first choice is below `k - 1` and those whose first
      choice is `k - 1` have none in common. */
  lemma ViaDisjoint(graph: Graph, rank: map<string, nat>, end: string, node: string, k: nat)
    requires Ranked(graph, rank, end) && node in rank && node != end && 0 < k <= |Next(graph, node)|
    ensures var next := Next(graph, node)[k - 1];
      PathSetVia(graph, rank, end, node, k - 1) * Prefixed(k - 1, PathSet(graph, rank, end, next)) == {}
  {
    var next := Next(graph, node)[k - 1];
    var earlier := PathSetVia(graph, rank, end, node, k - 1);
    var last := Prefixed(k - 1, PathSet(graph, rank, end, next));
    forall p | p in earlier
      ensures p !in last
    {
      PathSetViaIsPaths(graph, rank, end, node, k - 1, p);
      PrefixedHead(k - 1, PathSet(graph, rank, end, next), p);
    }
  }

  lemma DisjointSize<T>(a: set<T>, b: set<T>)
    requires a * b == {}
    ensures |a + b| == |a| + |b|
  {
  }
}
