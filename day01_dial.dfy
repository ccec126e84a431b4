/** Day 1: a dial with positions 0 to 99 starts at 50 and is turned one click
    at a time by rotation instructions such as "R48" or "L5"; the password is
    the number of clicks that leave the dial at 0. */
module Dial {
  import opened Common

  const Start: int := 50
  const Positions: int := 100

  /** The dial's position and the number of clicks that have landed on 0. */
  datatype State = State(pos: int, zeros: nat)

  predicate OnDial(s: State)
  {
    0 <= s.pos < Positions
  }

  /** A well-formed instruction: its direction character and its value. An
      unknown direction is kept here and ignored when the rotation is made. */
  datatype Rotation = Rotation(direction: char, value: int)

  /** How one line is read: `None` for a blank line or a value that `int`
      rejects, both of which are skipped. */
  function ParseRotation(line: string): Option<Rotation>
  {
    var rotation := Strip(line);
    if rotation == [] then None
    else
      match ParseInt(rotation[1..])
      case None => None
      case Some(value) => Some(Rotation(rotation[0], value))
  }

  /** One click: `delta` is +1 for 'R' and -1 for 'L'; Python's `%` with a
      positive modulus agrees with Dafny's. */
  function Click(s: State, delta: int): (t: State)
  {
    var pos := (s.pos + delta) % Positions;
    State(pos, if pos == 0 then s.zeros + 1 else s.zeros)
  }

  /** `n` clicks in the same direction. */
  function Turn(s: State, delta: int, n: nat): (t: State)
  {
    if n == 0 then s else Click(Turn(s, delta, n - 1), delta)
  }

  /** What one parsed line does: `range(value)` is empty for a value of 0 or
      less, and a direction other than 'R' or 'L' changes nothing. */
  function Rotate(s: State, r: Option<Rotation>): State
  {
    match r
    case None => s
    case Some(Rotation(direction, value)) =>
      var n: nat := if value > 0 then value else 0;
      if direction == 'R' then Turn(s, 1, n)
      else if direction == 'L' then Turn(s, -1, n)
      else s
  }

  /** The state after the first `k` lines. */
  function Run(parsed: seq<Option<Rotation>>, k: nat): State
    requires k <= |parsed|
  {
    if k == 0 then State(Start, 0) else Rotate(Run(parsed, k - 1), parsed[k - 1])
  }

  function ParseAll(lines: seq<string>): (parsed: seq<Option<Rotation>>)
    ensures |parsed| == |lines|
  {
    seq(|lines|, i requires 0 <= i < |lines| => ParseRotation(lines[i]))
  }

  /** The password for the file given as its lines. */
  function Password(lines: seq<string>): nat
  {
    Run(ParseAll(lines), |lines|).zeros
  }

  // ---------------------------------------------------------------------------
  // Properties of the dial
  // ---------------------------------------------------------------------------

  /** Turning keeps the dial on its 100 positions and never lowers the count. */
  lemma {:induction false} TurnOnDial(s: State, delta: int, n: nat)
    requires OnDial(s)
    ensures OnDial(Turn(s, delta, n)) && Turn(s, delta, n).zeros >= s.zeros
  {
    if n > 0 {
      TurnOnDial(s, delta, n - 1);
    }
  }

  /** `n` clicks to the right from `pos` end at `(pos + n) % 100` and pass 0
      once for every hundred reached: `(pos + n) / 100` times. */
  lemma {:induction false} TurnRight(s: State, n: nat)
    requires OnDial(s)
    ensures Turn(s, 1, n) == State((s.pos + n) % Positions, s.zeros + (s.pos + n) / Positions)
  {
    if n > 0 {
      TurnRight(s, n - 1);
      var m := s.pos + n;
      assert ((m - 1) % Positions + 1) % Positions == m % Positions;
      if m % Positions == 0 {
        assert m / Positions == (m - 1) / Positions + 1;
      } else {
        assert m / Positions == (m - 1) / Positions;
      }
    }
  }

  /** `n` clicks to the left from `pos` end at `(pos - n) % 100`; they land
      on 0 as often as `n` clicks to the right from the mirrored position
      `(100 - pos) % 100` would. */
  lemma {:induction false} TurnLeft(s: State, n: nat)
    requires OnDial(s)
    ensures Turn(s, -1, n) == State((s.pos - n) % Positions, s.zeros + ((Positions - s.pos) % Positions + n) / Positions)
  {
    if n > 0 {
      TurnLeft(s, n - 1);
      var m := (Positions - s.pos) % Positions + n;
      LeftClick(s.pos - n);
      LeftZero(s.pos, n);
      if m % Positions == 0 {
        assert m / Positions == (m - 1) / Positions + 1;
      } else {
        assert m / Positions == (m - 1) / Positions;
      }
    }
  }

  /** One more click to the left from `(a + 1) % 100` lands on `a % 100`. */
  lemma LeftClick(a: int)
    ensures ((a + 1) % Positions - 1) % Positions == a % Positions
  {
    var q := (a + 1) / Positions;
    assert a + 1 == Positions * q + (a + 1) % Positions;
  }

  /** The left turn lands on 0 exactly when the mirrored right turn does. */
  lemma LeftZero(pos: int, n: nat)
    requires 0 <= pos < Positions
    ensures (pos - n) % Positions == 0 <==> ((Positions - pos) % Positions + n) % Positions == 0
  {
    if pos == 0 {
      assert (Positions - pos) % Positions == 0;
      ModNegate(n);
    } else {
      assert (Positions - pos) % Positions == Positions - pos;
      ModShift(n - pos);
      ModNegate(n - pos);
    }
  }

  lemma ModNegate(a: int)
    ensures a % Positions == 0 <==> (-a) % Positions == 0
  {
    NegatedMultiple(a);
    NegatedMultiple(-a);
  }

  lemma NegatedMultiple(a: int)
    ensures a % 100 == 0 ==> (-a) % 100 == 0
  {
    if a % 100 == 0 {
      var q, q', r := a / 100, (-a) / 100, (-a) % 100;
      assert a == 100 * q;
      assert -a == 100 * q' + r && 0 <= r < 100;
      assert r == 100 * (-q - q');
    }
  }

  lemma ModShift(a: int)
    ensures (Positions + a) % Positions == a % Positions
  {
  }

  /** A full turn of 100 clicks either way comes back to the same position
      and passes 0 exactly once. */
  lemma FullTurn(s: State, delta: int)
    requires OnDial(s) && (delta == 1 || delta == -1)
    ensures Turn(s, delta, 100) == State(s.pos, s.zeros + 1)
  {
    if delta == 1 {
      TurnRight(s, 100);
    } else {
      TurnLeft(s, 100);
    }
  }

  /** Blank lines, rejected values and unknown directions leave the dial and
      the count as they were. */
  lemma SkippedLines(s: State, line: string)
    requires Strip(line) == [] || ParseInt(Strip(line)[1..]).None?
             || (Strip(line)[0] != 'R' && Strip(line)[0] != 'L')
    ensures Rotate(s, ParseRotation(line)) == s
  {
  }

  /** The dial stays on its positions after any number of lines, and the
      count only grows. */
  lemma {:induction false} RunOnDial(parsed: seq<Option<Rotation>>, k: nat)
    requires k <= |parsed|
    ensures OnDial(Run(parsed, k))
    ensures k > 0 ==> Run(parsed, k).zeros >= Run(parsed, k - 1).zeros
  {
    if k > 0 {
      RunOnDial(parsed, k - 1);
      var s := Run(parsed, k - 1);
      match parsed[k - 1]
      case None =>
      case Some(Rotation(direction, value)) =>
        var n: nat := if value > 0 then value else 0;
        TurnOnDial(s, 1, n);
        TurnOnDial(s, -1, n);
    }
  }

  // ---------------------------------------------------------------------------
  // count_zeros_during_file
  // ---------------------------------------------------------------------------

  /** `parsed` holds the lines of the file, each one parsed. */
  ghost predicate Parses(lines: seq<string>, parsed: seq<Option<Rotation>>)
  {
    |parsed| == |lines|
    && forall i {:trigger ParseRotation(lines[i])} :: 0 <= i < |lines| ==> parsed[i] == ParseRotation(lines[i])
  }

  lemma ParseAllParses(lines: seq<string>)
    ensures Parses(lines, ParseAll(lines))
  {
  }

  /** `count_zeros_during_file`, over the lines of the file. */
  method CountZerosDuringFile(lines: seq<string>) returns (zeroCount: nat)
    ensures zeroCount == Password(lines)
  {
    ParseAllParses(lines);
    zeroCount := CountZeros(lines, ParseAll(lines));
  }

  /** The loop over the lines. */
  method CountZeros(lines: seq<string>, ghost parsed: seq<Option<Rotation>>) returns (zeroCount: nat)
    requires Parses(lines, parsed)
    ensures zeroCount == Run(parsed, |lines|).zeros
  {
    var pos := Start;
    zeroCount := 0;
    for k := 0 to |lines|
      invariant State(pos, zeroCount) == Run(parsed, k)
    {
      pos, zeroCount := RotateLine(pos, zeroCount, lines, k, parsed);
    }
  }

  /** The body of the loop for line `k`: read the line, then click the dial
      `value` times in its direction, counting the clicks that land on 0. */
  method RotateLine(pos: int, zeroCount: nat, lines: seq<string>, k: nat, ghost parsed: seq<Option<Rotation>>)
    returns (pos': int, zeroCount': nat)
    requires k < |lines| && Parses(lines, parsed)
    ensures State(pos', zeroCount') == Rotate(State(pos, zeroCount), parsed[k])
  {
    assert parsed[k] == ParseRotation(lines[k]);
    pos', zeroCount' := pos, zeroCount;
    var rotation := Strip(lines[k]);
    if rotation == [] {
      return;
    }
    var direction := rotation[0];
    var parsedValue := ParseInt(rotation[1..]);
    if parsedValue.None? {
      return;
    }
    var value := parsedValue.value;
    if direction == 'R' {
      pos', zeroCount' := Spin(pos, zeroCount, 1, value);
    } else if direction == 'L' {
      pos', zeroCount' := Spin(pos, zeroCount, -1, value);
    }
  }

  /** `for _ in range(value)`: one click per pass. */
  method Spin(pos: int, zeroCount: nat, delta: int, value: int) returns (pos': int, zeroCount': nat)
    ensures State(pos', zeroCount') == Turn(State(pos, zeroCount), delta, if value > 0 then value else 0)
  {
    pos', zeroCount' := pos, zeroCount;
    var i := 0;
    while i < value
      invariant 0 <= i <= (if value > 0 then value else 0)
      invariant State(pos', zeroCount') == Turn(State(pos, zeroCount), delta, i)
    {
      pos' := (pos' + delta) % Positions;
      if pos' == 0 {
        zeroCount' := zeroCount' + 1;
      }
      i := i + 1;
    }
  }
}
