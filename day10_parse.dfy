/** Day 10, part 1: reading one machine. A line holds an indicator diagram
    in square brackets ('#' for a light that must end up on, '.' for one that
    must end up off) and buttons in parentheses, each listing the lights it
    toggles. The two regular-expression searches of `parse_machine` are
    written out as scans over the line. */
module MachineParsing {
  import opened Common

  // ---------------------------------------------------------------------------
  // `re.search(r"\[([.#]+)\]", line)`
  // ---------------------------------------------------------------------------

  predicate IsCell(c: char)
  {
    c == '.' || c == '#'
  }

  /** The number of diagram characters from position `i` on. */
  function CellRun(line: string, i: nat): (n: nat)
    requires i <= |line|
    ensures i + n <= |line|
    ensures forall k :: i <= k < i + n ==> IsCell(line[k])
    ensures i + n < |line| ==> !IsCell(line[i + n])
    decreases |line| - i
  {
    if i < |line| && IsCell(line[i]) then 1 + CellRun(line, i + 1) else 0
  }

  /** The pattern matches at position `p`: a '[', at least one diagram
      character, then ']'. The run is maximal and ']' is not a diagram
      character, so backtracking cannot find another match at `p`. */
  predicate DiagramAt(line: string, p: nat)
  {
    p < |line| && line[p] == '['
    && CellRun(line, p + 1) > 0
    && p + 1 + CellRun(line, p + 1) < |line|
    && line[p + 1 + CellRun(line, p + 1)] == ']'
  }

  /** The group of the leftmost match at or after `p`. */
  function DiagramFrom(line: string, p: nat): Option<string>
    decreases |line| - p
  {
    if p >= |line| then None
    else if DiagramAt(line, p) then Some(line[p + 1..p + 1 + CellRun(line, p + 1)])
    else DiagramFrom(line, p + 1)
  }

  /** The search finds the leftmost match, and none exists when it fails. */
  lemma {:induction false} DiagramLeftmost(line: string, p: nat)
    ensures DiagramFrom(line, p).None? <==> forall q :: p <= q ==> !DiagramAt(line, q)
    ensures DiagramFrom(line, p).Some? ==>
              exists q :: p <= q && DiagramAt(line, q)
                && (forall r :: p <= r < q ==> !DiagramAt(line, r))
                && DiagramFrom(line, p).value == line[q + 1..q + 1 + CellRun(line, q + 1)]
    decreases |line| - p
  {
    if p < |line| && !DiagramAt(line, p) {
      DiagramLeftmost(line, p + 1);
      if DiagramFrom(line, p).Some? {
        var q :| p + 1 <= q && DiagramAt(line, q)
                 && (forall r :: p + 1 <= r < q ==> !DiagramAt(line, r))
                 && DiagramFrom(line, p).value == line[q + 1..q + 1 + CellRun(line, q + 1)];
        assert forall r :: p <= r < q ==> !DiagramAt(line, r);
      }
    }
  }

  /** `[1 if c == "#" else 0 for c in ...]`, a light that must be on as
      `true`. */
  function Target(diagram: string): (target: seq<bool>)
    ensures |target| == |diagram|
    ensures forall k :: 0 <= k < |diagram| ==> (target[k] <==> diagram[k] == '#')
  {
    seq(|diagram|, k requires 0 <= k < |diagram| => diagram[k] == '#')
  }

  // ---------------------------------------------------------------------------
  // `re.findall(r"\(([\d,]+)\)", line)`
  // ---------------------------------------------------------------------------

  predicate IsButtonChar(c: char)
  {
    IsDigit(c) || c == ','
  }

  function ButtonRun(line: string, i: nat): (n: nat)
    requires i <= |line|
    ensures i + n <= |line|
    ensures forall k :: i <= k < i + n ==> IsButtonChar(line[k])
    ensures i + n < |line| ==> !IsButtonChar(line[i + n])
    decreases |line| - i
  {
    if i < |line| && IsButtonChar(line[i]) then 1 + ButtonRun(line, i + 1) else 0
  }

  predicate ButtonAt(line: string, p: nat)
  {
    p < |line| && line[p] == '('
    && ButtonRun(line, p + 1) > 0
    && p + 1 + ButtonRun(line, p + 1) < |line|
    && line[p + 1 + ButtonRun(line, p + 1)] == ')'
  }

  /** The groups of the non-overlapping matches from `p` on, left to right:
      after a match the scan resumes behind its ')', after a failure at the
      next character. */
  function ButtonGroups(line: string, p: nat): (groups: seq<string>)
    decreases |line| - p
  {
    if p >= |line| then []
    else if ButtonAt(line, p) then
      var n := ButtonRun(line, p + 1);
      [line[p + 1..p + 1 + n]] + ButtonGroups(line, p + 2 + n)
    else ButtonGroups(line, p + 1)
  }

  /** Every group is a non-empty run of digits and commas. */
  lemma {:induction false} ButtonGroupsShape(line: string, p: nat)
    ensures forall g :: g in ButtonGroups(line, p) ==>
              |g| > 0 && forall k :: 0 <= k < |g| ==> IsButtonChar(g[k])
    decreases |line| - p
  {
    if p < |line| {
      if ButtonAt(line, p) {
        var n := ButtonRun(line, p + 1);
        ButtonGroupsShape(line, p + 2 + n);
        var g := line[p + 1..p + 1 + n];
        assert forall k :: 0 <= k < |g| ==> g[k] == line[p + 1 + k];
      } else {
        ButtonGroupsShape(line, p + 1);
      }
    }
  }

  // ---------------------------------------------------------------------------
  // `[int(x) for x in b.split(",")]` for every group
  // ---------------------------------------------------------------------------

  /** The loop appending one list per group; the first failure raises. */
  function ParseButtons(groups: seq<string>): (r: Option<seq<seq<int>>>)
    ensures r.Some? ==> |r.value| == |groups|
  {
    if groups == [] then Some([])
    else
      match (ParseButtons(groups[..|groups| - 1]), ParseInts(Split(groups[|groups| - 1], ",")))
      case (Some(bs), Some(b)) => Some(bs + [b])
      case _ => None
  }

  /** Every button is the parse of its group, split at the commas. */
  lemma {:induction false} ParseButtonsValue(groups: seq<string>, k: int)
    requires ParseButtons(groups).Some? && 0 <= k < |groups|
    ensures ParseInts(Split(groups[k], ",")) == Some(ParseButtons(groups).value[k])
  {
    var init := groups[..|groups| - 1];
    if k < |groups| - 1 {
      ParseButtonsValue(init, k);
      assert init[k] == groups[k];
    }
  }

  /** A parsed machine: the lights to reach and each button's indices. */
  datatype Machine = Machine(target: seq<bool>, buttons: seq<seq<int>>)

  /** `parse_machine`; `None` when no diagram is found (`group` on `None`
      raises) or when an index is not an integer. */
  function ParseMachine(line: string): Option<Machine>
  {
    match DiagramFrom(line, 0)
    case None => None
    case Some(diagram) =>
      match ParseButtons(ButtonGroups(line, 0))
      case None => None
      case Some(buttons) => Some(Machine(Target(diagram), buttons))
  }

  /** The diagram of a sample line, found at its start. */
  lemma DiagramExample()
    ensures DiagramFrom("[.##.] (3) (1,3) {3,5}", 0) == Some(".##.")
  {
    var line := "[.##.] (3) (1,3) {3,5}";
    assert CellRun(line, 5) == 0;
    assert CellRun(line, 1) == 4;
    assert DiagramAt(line, 0);
    assert line[1..5] == ".##.";
  }

  /** A button in parentheses is a match; the braces that follow are not. */
  lemma ButtonsExample()
    ensures ButtonGroups("(1,3) {3}", 0) == ["1,3"]
  {
    var line := "(1,3) {3}";
    ButtonGroupsNone(line, 5);
    assert ButtonRun(line, 4) == 0;
    assert ButtonRun(line, 1) == 3;
    assert ButtonAt(line, 0);
    assert line[1..4] == "1,3";
  }

  /** A stretch without '(' yields no match. */
  lemma {:induction false} ButtonGroupsSkip(line: string, p: nat, q: nat)
    requires p <= q <= |line| && forall k :: p <= k < q ==> line[k] != '('
    ensures ButtonGroups(line, p) == ButtonGroups(line, q)
    decreases q - p
  {
    if p < q {
      ButtonGroupsSkip(line, p + 1, q);
    }
  }

  lemma ButtonGroupsNone(line: string, p: nat)
    requires p <= |line| && forall k :: p <= k < |line| ==> line[k] != '('
    ensures ButtonGroups(line, p) == []
  {
    ButtonGroupsSkip(line, p, |line|);
  }
}
