/** Day 11: reading the device graph. Each non-blank line is `src: d1 d2 ...`;
    the graph maps a device to the devices its outputs feed, and a device named
    again on a later line has its list replaced. */
module DeviceGraph {
  import opened Common

  type Graph = map<string, seq<string>>

  /** What one line contributes: nothing (blank), an entry, or the `ValueError`
      that `left, right = line.split(":")` raises when the line does not hold
      exactly one ':'. */
  datatype Line = Blank | Entry(src: string, dests: seq<string>) | Malformed

  /** The destinations of a line: its whitespace-separated words after the
      ':' (stripping a word and dropping empty words change nothing, see
      `DestinationsClean`). */
  function Destinations(right: string): seq<string>
  {
    Words(right)
  }

  /** Every destination is already stripped and non-empty, so the filtering
      comprehension over `right.split()` keeps every word unchanged. */
  lemma DestinationsClean(right: string)
    ensures forall k :: 0 <= k < |Destinations(right)| ==>
              Destinations(right)[k] != [] && Strip(Destinations(right)[k]) == Destinations(right)[k]
  {
    WordsFacts(right);
    forall k | 0 <= k < |Destinations(right)|
      ensures Strip(Destinations(right)[k]) == Destinations(right)[k]
    {
      StripNoSpace(Destinations(right)[k]);
    }
  }

  /** How one line of the file is read. */
  function ParseLine(line: string): Line
  {
    var t := Strip(line);
    if t == [] then Blank
    else
      var parts := Split(t, ":");
      if |parts| != 2 then Malformed
      else Entry(Strip(parts[0]), Destinations(parts[1]))
  }

  /** The lines of the file as read, one `Line` each. */
  function ParseAll(lines: seq<string>): (parsed: seq<Line>)
    ensures |parsed| == |lines|
  {
    seq(|lines|, i requires 0 <= i < |lines| => ParseLine(lines[i]))
  }

  /** What one line does to the graph: a blank line leaves it, an entry sets
      (or replaces) the list of its device, a malformed line raises. */
  function Apply(g: Graph, line: Line): Option<Graph>
  {
    match line
    case Blank => Some(g)
    case Malformed => None
    case Entry(src, dests) => Some(g[src := dests])
  }

  /** The graph after the first `k` lines, or `None` once a malformed line
      has raised. */
  function Load(parsed: seq<Line>, k: nat): Option<Graph>
    requires k <= |parsed|
  {
    if k == 0 then Some(map[])
    else
      match Load(parsed, k - 1)
      case None => None
      case Some(g) => Apply(g, parsed[k - 1])
  }

  /** Loading fails exactly when one of the lines read is malformed. */
  lemma {:induction false} LoadFails(parsed: seq<Line>, k: nat)
    requires k <= |parsed|
    ensures Load(parsed, k).None? <==> exists i :: 0 <= i < k && parsed[i].Malformed?
  {
    if k > 0 {
      LoadFails(parsed, k - 1);
    }
  }

  /** Line `i` is the last of the first `k` lines that names `src` on its left. */
  predicate LastEntry(parsed: seq<Line>, k: nat, src: string, i: int)
    requires k <= |parsed|
  {
    0 <= i < k && parsed[i].Entry? && parsed[i].src == src
    && forall j :: i < j < k ==> !(parsed[j].Entry? && parsed[j].src == src)
  }

  /** A device is a key exactly when some line names it on its left, and its
      list is the one from the last such line. */
  lemma {:induction false} LoadLookup(parsed: seq<Line>, k: nat, src: string)
    requires k <= |parsed| && Load(parsed, k).Some?
    ensures src in Load(parsed, k).value <==> exists i :: LastEntry(parsed, k, src, i)
    ensures forall i :: LastEntry(parsed, k, src, i) ==> Load(parsed, k).value[src] == parsed[i].dests
  {
    if k > 0 {
      LoadLookup(parsed, k - 1, src);
      var line := parsed[k - 1];
      if line.Entry? && line.src == src {
        assert LastEntry(parsed, k, src, k - 1);
        forall i | LastEntry(parsed, k, src, i)
          ensures i == k - 1
        {
        }
      } else {
        var g := Load(parsed, k - 1).value;
        assert src in Load(parsed, k).value <==> src in g;
        assert src in g ==> Load(parsed, k).value[src] == g[src];
        forall i | LastEntry(parsed, k, src, i)
          ensures LastEntry(parsed, k - 1, src, i)
        {
        }
        forall i | LastEntry(parsed, k - 1, src, i)
          ensures LastEntry(parsed, k, src, i)
        {
        }
        if src in g {
          var i :| LastEntry(parsed, k - 1, src, i);
          assert LastEntry(parsed, k, src, i);
        }
      }
    }
  }

  /** Once loading has failed it stays failed. */
  lemma {:induction false} LoadStops(parsed: seq<Line>, k: nat, m: nat)
    requires k <= m <= |parsed| && Load(parsed, k).None?
    ensures Load(parsed, m).None?
    decreases m - k
  {
    if k < m {
      LoadStops(parsed, k + 1, m);
    }
  }

  /** `parsed` holds the lines of the file, each one parsed. */
  ghost predicate Parses(lines: seq<string>, parsed: seq<Line>)
  {
    |parsed| == |lines|
    && forall i {:trigger ParseLine(lines[i])} :: 0 <= i < |lines| ==> parsed[i] == ParseLine(lines[i])
  }

  lemma ParseAllParses(lines: seq<string>)
    ensures Parses(lines, ParseAll(lines))
  {
  }

  /** `load_graph`, over the lines of the file. */
  method LoadGraph(lines: seq<string>) returns (graph: Option<Graph>)
    ensures graph == Load(ParseAll(lines), |lines|)
  {
    ParseAllParses(lines);
    graph := ReadLines(lines, ParseAll(lines));
  }

  /** The loop of `load_graph` over the lines; a malformed line ends it. */
  method ReadLines(lines: seq<string>, ghost parsed: seq<Line>) returns (graph: Option<Graph>)
    requires Parses(lines, parsed)
    ensures graph == Load(parsed, |lines|)
  {
    var g: Graph := map[];
    for k := 0 to |lines|
      invariant Load(parsed, k) == Some(g)
    {
      var next := ReadLine(g, lines, k, parsed);
      if next.None? {
        LoadStops(parsed, k + 1, |lines|);
        return None;
      }
      g := next.value;
    }
    return Some(g);
  }

  /** The body of the loop of `load_graph` for line `k`: strip the line, skip
      it when blank, split it at ':', read both sides and store the entry. */
  method ReadLine(g: Graph, lines: seq<string>, k: nat, ghost parsed: seq<Line>) returns (next: Option<Graph>)
    requires k < |lines| && Parses(lines, parsed)
    ensures next == Apply(g, parsed[k])
  {
    assert parsed[k] == ParseLine(lines[k]);
    var line := Strip(lines[k]);
    if line == [] {
      return Some(g);
    }
    var parts := Split(line, ":");
    if |parts| != 2 {
      return None;
    }
    var src := Strip(parts[0]);
    var dests := Destinations(parts[1]);
    return Some(g[src := dests]);
  }

  /** A device occurs in the graph, as a key or in some list of destinations:
      the test `main` of part 2 applies to each required device. */
  predicate Known(graph: Graph, node: string)
  {
    node in graph || exists src :: src in graph && node in graph[src]
  }
}
