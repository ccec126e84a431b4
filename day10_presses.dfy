/** Day 10, part 1: the fewest button presses that set the indicator lights
    to their diagram. Pressing a button toggles its lights, so pressing one
    twice undoes it: `min_presses` looks for the smallest set of distinct
    buttons whose toggles combine (exclusive or) into the target, trying the
    sets of size 1, 2, ... in the order `itertools.combinations` yields
    them. Lights are `bool`s here, where the source keeps 0 and 1. */
module ButtonPresses {
  import opened Common
  import opened MachineParsing

  // ---------------------------------------------------------------------------
  // Button vectors
  // ---------------------------------------------------------------------------

  /** Python's `vec[idx]` on a list of length `n`: a negative index counts
      from the end, anything else out of range raises `IndexError`. */
  function PyIndex(idx: int, n: nat): (k: Option<nat>)
    ensures k.Some? ==> k.value < n
  {
    if 0 <= idx < n then Some(idx)
    else if idx < 0 && n + idx >= 0 then Some(n + idx)
    else None
  }

  function Zeros(n: nat): (v: seq<bool>)
    ensures |v| == n && forall j :: 0 <= j < n ==> !v[j]
  {
    seq(n, j => false)
  }

  /** The vector after the first `t` indices of button `b` are set, or
      `None` once one has raised. */
  function VectorAfter(b: seq<int>, n: nat, t: nat): (r: Option<seq<bool>>)
    requires t <= |b|
    ensures r.Some? ==> |r.value| == n
  {
    if t == 0 then Some(Zeros(n))
    else
      match VectorAfter(b, n, t - 1)
      case None => None
      case Some(v) =>
        match PyIndex(b[t - 1], n)
        case None => None
        case Some(k) => Some(v[k := true])
  }

  /** Button `b` as a vector over `n` lights. */
  function Vector(b: seq<int>, n: nat): Option<seq<bool>>
  {
    VectorAfter(b, n, |b|)
  }

  /** The vector has a light on exactly where one of the button's indices
      points, however often an index is repeated. */
  lemma {:induction false} VectorBits(b: seq<int>, n: nat, t: nat, j: int)
    requires t <= |b| && VectorAfter(b, n, t).Some? && 0 <= j < n
    ensures VectorAfter(b, n, t).value[j] <==> exists s :: 0 <= s < t && PyIndex(b[s], n) == Some(j)
  {
    if t > 0 {
      VectorBits(b, n, t - 1, j);
      if PyIndex(b[t - 1], n) != Some(j) {
        assert forall s :: 0 <= s < t && PyIndex(b[s], n) == Some(j) ==> s < t - 1;
      }
    }
  }

  /** Building the vector fails exactly when some index is out of range. */
  lemma {:induction false} VectorFails(b: seq<int>, n: nat, t: nat)
    requires t <= |b|
    ensures VectorAfter(b, n, t).None? <==> exists s :: 0 <= s < t && PyIndex(b[s], n).None?
  {
    if t > 0 {
      VectorFails(b, n, t - 1);
    }
  }

  lemma {:induction false} VectorStops(b: seq<int>, n: nat, t: nat, u: nat)
    requires t <= u <= |b| && VectorAfter(b, n, t).None?
    ensures VectorAfter(b, n, u).None?
    decreases u - t
  {
    if t < u {
      VectorStops(b, n, t + 1, u);
    }
  }

  /** `vec = [0] * n; for idx in b: vec[idx] = 1`. */
  method BuildVector(b: seq<int>, n: nat) returns (vec: Option<seq<bool>>)
    ensures vec == Vector(b, n)
  {
    var v := new bool[n](j => false);
    assert v[..] == Zeros(n);
    for t := 0 to |b|
      invariant VectorAfter(b, n, t) == Some(v[..])
    {
      var k := PyIndex(b[t], n);
      if k.None? {
        VectorStops(b, n, t + 1, |b|);
        return None;
      }
      v[k.value] := true;
    }
    return Some(v[..]);
  }

  /** The vectors of the first `t` buttons, or `None` once one has raised. */
  function VectorsAfter(buttons: seq<seq<int>>, n: nat, t: nat): (r: Option<seq<seq<bool>>>)
    requires t <= |buttons|
    ensures r.Some? ==> |r.value| == t && forall i :: 0 <= i < t ==> |r.value[i]| == n
  {
    if t == 0 then Some([])
    else
      match VectorsAfter(buttons, n, t - 1)
      case None => None
      case Some(vs) =>
        match Vector(buttons[t - 1], n)
        case None => None
        case Some(v) => Some(vs + [v])
  }

  lemma {:induction false} VectorsStop(buttons: seq<seq<int>>, n: nat, t: nat, u: nat)
    requires t <= u <= |buttons| && VectorsAfter(buttons, n, t).None?
    ensures VectorsAfter(buttons, n, u).None?
    decreases u - t
  {
    if t < u {
      VectorsStop(buttons, n, t + 1, u);
    }
  }

  /** The loop building `btn_vecs`. */
  method BuildVectors(buttons: seq<seq<int>>, n: nat) returns (vecs: Option<seq<seq<bool>>>)
    ensures vecs == VectorsAfter(buttons, n, |buttons|)
  {
    var btnVecs: seq<seq<bool>> := [];
    for t := 0 to |buttons|
      invariant VectorsAfter(buttons, n, t) == Some(btnVecs)
    {
      var vec := BuildVector(buttons[t], n);
      if vec.None? {
        VectorsStop(buttons, n, t + 1, |buttons|);
        return None;
      }
      btnVecs := btnVecs + [vec.value];
    }
    return Some(btnVecs);
  }

  // ---------------------------------------------------------------------------
  // Combinations of buttons
  // ---------------------------------------------------------------------------

  /** All vectors have `n` lights. */
  predicate Fits(vecs: seq<seq<bool>>, n: nat)
  {
    forall i :: 0 <= i < |vecs| ==> |vecs[i]| == n
  }

  function Xor(a: seq<bool>, b: seq<bool>): (r: seq<bool>)
    requires |a| == |b|
    ensures |r| == |a| && forall j :: 0 <= j < |a| ==> r[j] == (a[j] != b[j])
  {
    seq(|a|, j requires 0 <= j < |a| => a[j] != b[j])
  }

  /** A combination: `k` distinct buttons, listed in increasing order as
      `combinations(range(m), k)` lists them. */
  ghost predicate IsCombo(combo: seq<nat>, m: nat)
  {
    (forall t :: 0 <= t < |combo| ==> combo[t] < m)
    && (forall s, t :: 0 <= s < t < |combo| ==> combo[s] < combo[t])
  }

  /** The lights after pressing the buttons of `combo`, starting dark. */
  function Lights(vecs: seq<seq<bool>>, combo: seq<nat>, n: nat): (state: seq<bool>)
    requires Fits(vecs, n) && forall t :: 0 <= t < |combo| ==> combo[t] < |vecs|
    ensures |state| == n
  {
    if combo == [] then Zeros(n)
    else Xor(Lights(vecs, combo[..|combo| - 1], n), vecs[combo[|combo| - 1]])
  }

  /** Pressing the buttons of `combo` yields the target. */
  ghost predicate Solves(vecs: seq<seq<bool>>, target: seq<bool>, combo: seq<nat>)
  {
    Fits(vecs, |target|) && IsCombo(combo, |vecs|) && Lights(vecs, combo, |target|) == target
  }

  /** Some `k` distinct buttons yield the target. */
  ghost predicate Solvable(vecs: seq<seq<bool>>, target: seq<bool>, k: nat)
  {
    exists combo :: |combo| == k && Solves(vecs, target, combo)
  }

  /** The fewest presses from `k` buttons up, or 0 when no size from `k` to
      the number of buttons works. */
  ghost function FewestFrom(vecs: seq<seq<bool>>, target: seq<bool>, k: nat): nat
    decreases |vecs| + 1 - k
  {
    if k > |vecs| then 0
    else if Solvable(vecs, target, k) then k
    else FewestFrom(vecs, target, k + 1)
  }

  /** What `min_presses` returns for these vectors. */
  ghost function Fewest(vecs: seq<seq<bool>>, target: seq<bool>): nat
  {
    FewestFrom(vecs, target, 1)
  }

  lemma {:induction false} FewestFromIsLeast(vecs: seq<seq<bool>>, target: seq<bool>, k: nat)
    requires k >= 1
    ensures FewestFrom(vecs, target, k) == 0 || k <= FewestFrom(vecs, target, k) <= |vecs|
    ensures FewestFrom(vecs, target, k) > 0 ==> Solvable(vecs, target, FewestFrom(vecs, target, k))
    ensures forall j :: k <= j <= |vecs| && (FewestFrom(vecs, target, k) == 0 || j < FewestFrom(vecs, target, k))
              ==> !Solvable(vecs, target, j)
    decreases |vecs| + 1 - k
  {
    if k <= |vecs| && !Solvable(vecs, target, k) {
      FewestFromIsLeast(vecs, target, k + 1);
    }
  }

  /** The result is a number of buttons, 0 or between 1 and their count;
      when positive, that many distinct buttons yield the target and no
      smaller non-empty set does; when 0, no non-empty set does. */
  lemma FewestIsLeast(vecs: seq<seq<bool>>, target: seq<bool>)
    ensures Fewest(vecs, target) <= |vecs|
    ensures Fewest(vecs, target) > 0 ==> Solvable(vecs, target, Fewest(vecs, target))
    ensures forall k :: 1 <= k <= |vecs| && (Fewest(vecs, target) == 0 || k < Fewest(vecs, target))
              ==> !Solvable(vecs, target, k)
  {
    FewestFromIsLeast(vecs, target, 1);
  }

  /** With no button at all nothing can be pressed, so the result is 0 even
      for an all-dark target. */
  lemma NoButtons(target: seq<bool>)
    ensures Fewest([], target) == 0
  {
  }

  /** Two lights, a button for each and one for both: one press of the
      third button does it. */
  lemma FewestExample()
    ensures Fewest([[true, false], [false, true], [true, true]], [true, true]) == 1
  {
    var vecs := [[true, false], [false, true], [true, true]];
    var combo: seq<nat> := [2];
    assert Lights(vecs, combo, 2) == Xor(Zeros(2), vecs[2]);
    assert Solves(vecs, [true, true], combo);
    assert Solvable(vecs, [true, true], 1);
  }

  // ---------------------------------------------------------------------------
  // The search of `min_presses`
  // ---------------------------------------------------------------------------

  /** `combo` has `k` buttons, starts with `prefix`, and every later button
      is at least `start`. */
  ghost predicate Extends(combo: seq<nat>, prefix: seq<nat>, start: nat, k: nat)
  {
    |combo| == k && |prefix| <= k && combo[..|prefix|] == prefix
    && forall t :: |prefix| <= t < k ==> combo[t] >= start
  }

  /** `for i in combo: for j in range(n): state[j] ^= btn_vecs[i][j]`. */
  method ComboState(vecs: seq<seq<bool>>, combo: seq<nat>, n: nat) returns (state: seq<bool>)
    requires Fits(vecs, n) && forall t :: 0 <= t < |combo| ==> combo[t] < |vecs|
    ensures state == Lights(vecs, combo, n)
  {
    var s := new bool[n](j => false);
    for t := 0 to |combo|
      invariant s[..] == Lights(vecs, combo[..t], n)
    {
      assert combo[..t + 1][..t] == combo[..t];
      var vec := vecs[combo[t]];
      ghost var before := s[..];
      for j := 0 to n
        invariant forall jj :: 0 <= jj < j ==> s[jj] == (before[jj] != vec[jj])
        invariant forall jj :: j <= jj < n ==> s[jj] == before[jj]
      {
        s[j] := s[j] != vec[j];
      }
      assert s[..] == Xor(before, vec);
    }
    assert combo[..|combo|] == combo;
    return s[..];
  }

  /** The combinations that start with `prefix` and continue with buttons
      from `start` on, in the order `combinations` yields them; `found`
      tells whether one of them yields the target. */
  method SearchCombos(vecs: seq<seq<bool>>, target: seq<bool>, k: nat, prefix: seq<nat>, start: nat)
    returns (found: bool)
    requires Fits(vecs, |target|) && IsCombo(prefix, |vecs|) && |prefix| <= k
    requires forall t :: 0 <= t < |prefix| ==> prefix[t] < start
    requires start <= |vecs|
    ensures found <==> exists combo :: Extends(combo, prefix, start, k) && Solves(vecs, target, combo)
    decreases k - |prefix|
  {
    if |prefix| == k {
      var state := ComboState(vecs, prefix, |target|);
      found := state == target;
      if found {
        assert Extends(prefix, prefix, start, k);
      } else {
        forall combo | Extends(combo, prefix, start, k)
          ensures combo == prefix
        {
          assert combo == combo[..|prefix|];
        }
      }
      return;
    }
    for i := start to |vecs|
      invariant forall j :: start <= j < i ==>
                  !exists combo :: Extends(combo, prefix + [j], j + 1, k) && Solves(vecs, target, combo)
    {
      found := SearchCombos(vecs, target, k, prefix + [i], i + 1);
      if found {
        ghost var combo :| Extends(combo, prefix + [i], i + 1, k) && Solves(vecs, target, combo);
        ExtendsWiden(combo, prefix, i, start, k);
        return true;
      }
    }
    forall combo | Extends(combo, prefix, start, k) && Solves(vecs, target, combo)
      ensures false
    {
      var j := combo[|prefix|];
      ExtendsNarrow(combo, prefix, start, k, |vecs|);
    }
    return false;
  }

  /** A combination extending `prefix + [i]` extends `prefix` too. */
  lemma ExtendsWiden(combo: seq<nat>, prefix: seq<nat>, i: nat, start: nat, k: nat)
    requires Extends(combo, prefix + [i], i + 1, k) && start <= i
    ensures Extends(combo, prefix, start, k)
  {
    assert combo[..|prefix|] == combo[..|prefix| + 1][..|prefix|];
  }

  /** A combination extending `prefix` extends `prefix` and its next
      button, after which every button is larger. */
  lemma ExtendsNarrow(combo: seq<nat>, prefix: seq<nat>, start: nat, k: nat, m: nat)
    requires Extends(combo, prefix, start, k) && |prefix| < k && IsCombo(combo, m)
    ensures combo[|prefix|] >= start
    ensures Extends(combo, prefix + [combo[|prefix|]], combo[|prefix|] + 1, k)
  {
    assert combo[..|prefix| + 1] == combo[..|prefix|] + [combo[|prefix|]];
  }

  /** `min_presses` once the vectors are built: sizes 1, 2, ... up to the
      number of buttons; the first size with a match is returned. */
  method FewestPresses(vecs: seq<seq<bool>>, target: seq<bool>) returns (presses: nat)
    requires Fits(vecs, |target|)
    ensures presses == Fewest(vecs, target)
  {
    var m := |vecs|;
    for k := 1 to m + 1
      invariant FewestFrom(vecs, target, k) == Fewest(vecs, target)
    {
      var found := SearchCombos(vecs, target, k, [], 0);
      if found {
        ghost var combo :| Extends(combo, [], 0, k) && Solves(vecs, target, combo);
        assert Solvable(vecs, target, k);
        return k;
      }
      assert !Solvable(vecs, target, k);
    }
    return 0;
  }

  /** What `min_presses(target, buttons)` returns, or `None` for the
      `IndexError` of an index out of range. */
  ghost function MinPresses(target: seq<bool>, buttons: seq<seq<int>>): Option<nat>
  {
    match VectorsAfter(buttons, |target|, |buttons|)
    case None => None
    case Some(vecs) => Some(Fewest(vecs, target))
  }

  /** `min_presses`. */
  method MinPressesOf(target: seq<bool>, buttons: seq<seq<int>>) returns (presses: Option<nat>)
    ensures presses == MinPresses(target, buttons)
  {
    var btnVecs := BuildVectors(buttons, |target|);
    if btnVecs.None? {
      return None;
    }
    var fewest := FewestPresses(btnVecs.value, target);
    return Some(fewest);
  }

  // ---------------------------------------------------------------------------
  // The total of `main`
  // ---------------------------------------------------------------------------

  /** What one line of the file does: a blank line is skipped, any other line
      adds its machine's fewest presses, or raises. */
  ghost function LineResult(line: string): Option<nat>
  {
    var t := Strip(line);
    if t == [] then Some(0)
    else
      match ParseMachine(t)
      case None => None
      case Some(machine) => MinPresses(machine.target, machine.buttons)
  }

  /** The total over the first `k` lines, or `None` once a line has raised. */
  ghost function Total(results: seq<Option<nat>>, k: nat): Option<nat>
    requires k <= |results|
  {
    if k == 0 then Some(0)
    else
      match Total(results, k - 1)
      case None => None
      case Some(t) =>
        match results[k - 1]
        case None => None
        case Some(p) => Some(t + p)
  }

  lemma {:induction false} TotalStops(results: seq<Option<nat>>, k: nat, u: nat)
    requires k <= u <= |results| && Total(results, k).None?
    ensures Total(results, u).None?
    decreases u - k
  {
    if k < u {
      TotalStops(results, k + 1, u);
    }
  }

  /** The total is the sum of what the lines add. */
  lemma {:induction false} TotalIsSum(results: seq<Option<nat>>, k: nat, presses: seq<int>)
    requires k <= |results| && |presses| == k
    requires forall i :: 0 <= i < k ==> results[i].Some? && results[i].value == presses[i]
    ensures Total(results, k) == Some(Sum(presses))
  {
    if k > 0 {
      TotalIsSum(results, k - 1, presses[..k - 1]);
    }
  }

  /** `results` holds each line's result. */
  ghost predicate Results(lines: seq<string>, results: seq<Option<nat>>)
  {
    |results| == |lines|
    && forall i {:trigger LineResult(lines[i])} :: 0 <= i < |lines| ==> results[i] == LineResult(lines[i])
  }

  /** `main`, over the lines of the file. */
  method TotalPresses(lines: seq<string>) returns (total: Option<nat>)
    ensures total == Total(seq(|lines|, i requires 0 <= i < |lines| => LineResult(lines[i])), |lines|)
  {
    ghost var results := seq(|lines|, i requires 0 <= i < |lines| => LineResult(lines[i]));
    total := SumLines(lines, results);
  }

  method SumLines(lines: seq<string>, ghost results: seq<Option<nat>>) returns (total: Option<nat>)
    requires Results(lines, results)
    ensures total == Total(results, |lines|)
  {
    var sum: nat := 0;
    for k := 0 to |lines|
      invariant Total(results, k) == Some(sum)
    {
      var presses := LinePresses(lines, k, results);
      if presses.None? {
        TotalStops(results, k + 1, |lines|);
        return None;
      }
      sum := sum + presses.value;
    }
    return Some(sum);
  }

  /** The body of the line loop for line `k`. */
  method LinePresses(lines: seq<string>, k: nat, ghost results: seq<Option<nat>>) returns (presses: Option<nat>)
    requires k < |lines| && Results(lines, results)
    ensures presses == results[k]
  {
    assert results[k] == LineResult(lines[k]);
    var line := Strip(lines[k]);
    if line == [] {
      return Some(0);
    }
    var machine := ParseMachine(line);
    if machine.None? {
      return None;
    }
    presses := MinPressesOf(machine.value.target, machine.value.buttons);
  }
}
