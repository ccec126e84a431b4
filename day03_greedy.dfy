/** Day 3, part 2: from each line keep exactly `K` digits, in their order,
    so that the number they spell is as large as possible. A monotone stack
    does it: a new digit pops smaller digits off the top while enough of the
    line remains to refill the stack. The totals are added in unsigned 64-bit
    arithmetic. */
module GreedyDigits {
  import opened Common

  /** The number of digits kept per line. */
  const K: nat := 12

  /** `unsigned long long` arithmetic is modulo 2^64. */
  const Modulus: nat := 0x1_0000_0000_0000_0000

  // ---------------------------------------------------------------------------
  // C string helpers
  // ---------------------------------------------------------------------------

  /** `line[strcspn(line, "\r\n")] = 0`: the line up to its first CR or LF. */
  function CutLine(s: string): (r: string)
    ensures |r| <= |s| && r == s[..|r|]
    ensures forall k :: 0 <= k < |r| ==> r[k] != '\r' && r[k] != '\n'
    ensures |r| < |s| ==> s[|r|] == '\r' || s[|r|] == '\n'
  {
    if s == [] || s[0] == '\r' || s[0] == '\n' then []
    else [s[0]] + CutLine(s[1..])
  }

  /** The characters C's `isspace` accepts. */
  predicate IsCSpace(c: char)
  {
    c == ' ' || c == '\t' || c == '\n' || c == '\U{0B}' || c == '\U{0C}' || c == '\r'
  }

  function SkipSpace(s: string): (r: string)
    ensures |r| <= |s| && r == s[|s| - |r|..]
    ensures r != [] ==> !IsCSpace(r[0])
  {
    if s != [] && IsCSpace(s[0]) then SkipSpace(s[1..]) else s
  }

  /** The longest run of digits at the front of `s`. */
  function DigitPrefix(s: string): (r: string)
    ensures AllDigits(r) && |r| <= |s| && r == s[..|r|]
    ensures |r| < |s| ==> !IsDigit(s[|r|])
  {
    if s != [] && IsDigit(s[0]) then [s[0]] + DigitPrefix(s[1..]) else []
  }

  /** `strtoull(s, NULL, 10)`: leading white space, an optional sign and the
      digits that follow; a '-' negates modulo 2^64, an out-of-range value
      gives `ULLONG_MAX`, and no digits at all give 0. */
  function Strtoull(s: string): (v: nat)
    ensures v < Modulus
  {
    Convert(SkipSpace(s))
  }

  /** `strtoull` once the white space is skipped. */
  function Convert(t: string): (v: nat)
    ensures v < Modulus
  {
    var signed := t != [] && (t[0] == '-' || t[0] == '+');
    var m := DigitsValue(DigitPrefix(if signed then t[1..] else t));
    if m >= Modulus then Modulus - 1
    else if signed && t[0] == '-' then (Modulus - m) % Modulus
    else m
  }

  lemma {:induction false} DigitsValueBound(s: string)
    requires AllDigits(s)
    ensures DigitsValue(s) < Power10(|s|)
  {
    if s != [] {
      DigitsValueBound(s[..|s| - 1]);
    }
  }

  function Power10(n: nat): (p: nat)
    ensures p >= 1
  {
    if n == 0 then 1 else 10 * Power10(n - 1)
  }

  lemma {:induction false} DigitPrefixAll(s: string, rest: string)
    requires AllDigits(s) && (rest == [] || !IsDigit(rest[0]))
    ensures DigitPrefix(s + rest) == s
    decreases |s|
  {
    if s != [] {
      assert (s + rest)[1..] == s[1..] + rest;
      DigitPrefixAll(s[1..], rest);
    }
  }

  /** A string of at most `K` digits, followed by a terminator or nothing,
      reads back as its value. */
  lemma StrtoullDigits(s: string, rest: string)
    requires AllDigits(s) && 0 < |s| <= K && (rest == [] || !IsDigit(rest[0]))
    ensures Strtoull(s + rest) == DigitsValue(s)
  {
    assert (s + rest)[0] == s[0];
    NoSpaceToSkip(s + rest);
    ConvertDigits(s, rest);
  }

  lemma NoSpaceToSkip(t: string)
    requires t != [] && !IsCSpace(t[0])
    ensures SkipSpace(t) == t
  {
  }

  lemma ConvertDigits(s: string, rest: string)
    requires AllDigits(s) && 0 < |s| <= K && (rest == [] || !IsDigit(rest[0]))
    ensures Convert(s + rest) == DigitsValue(s)
  {
    var t := s + rest;
    assert t[0] == s[0];
    DigitPrefixAll(s, rest);
    ShortValue(s);
  }

  /** At most `K` digits spell a number below 10^12. */
  lemma ShortValue(s: string)
    requires AllDigits(s) && |s| <= K
    ensures DigitsValue(s) < 1_000_000_000_000
  {
    DigitsValueBound(s);
    PowerMonotone(|s|, K);
    PowerTwelve();
  }

  lemma PowerTwelve()
    ensures Power10(K) == 1_000_000_000_000
  {
    assert Power10(3) == 1000;
    assert Power10(6) == 1000 * Power10(3) by {
      assert Power10(6) == 10 * Power10(5) == 100 * Power10(4) == 1000 * Power10(3);
    }
    assert Power10(9) == 1000 * Power10(6) by {
      assert Power10(9) == 10 * Power10(8) == 100 * Power10(7) == 1000 * Power10(6);
    }
    assert Power10(12) == 1000 * Power10(9) by {
      assert Power10(12) == 10 * Power10(11) == 100 * Power10(10) == 1000 * Power10(9);
    }
  }

  lemma {:induction false} PowerMonotone(a: nat, b: nat)
    requires a <= b
    ensures Power10(a) <= Power10(b)
    decreases b
  {
    if a < b {
      PowerMonotone(a, b - 1);
    }
  }

  // ---------------------------------------------------------------------------
  // The stack, as a function of the prefix of the line read so far
  // ---------------------------------------------------------------------------

  /** The `while` loop: pop while the top is smaller than `c` and the
      `remaining` characters after `c` can still refill the stack to `K`. */
  function Pop(stack: string, c: char, remaining: int): string
    decreases |stack|
  {
    if |stack| > 0 && stack[|stack| - 1] < c && remaining + |stack| >= K
    then Pop(stack[..|stack| - 1], c, remaining)
    else stack
  }

  /** One digit: pop, then push it if there is room. */
  function Step(stack: string, c: char, remaining: int): string
  {
    var s := Pop(stack, c, remaining);
    if |s| < K then s + [c] else s
  }

  /** The stack after the first `i` characters of `line`; other characters
      than digits are skipped. */
  function Stack(line: string, i: nat): string
    requires i <= |line|
  {
    if i == 0 then []
    else
      var s := Stack(line, i - 1);
      if IsDigit(line[i - 1]) then Step(s, line[i - 1], |line| - i) else s
  }

  /** The value one line adds, or `None` when fewer than `K` digits were kept
      from a line longer than `K` (the rest of the buffer is then read
      without having been written). */
  function LineValue(raw: string): Option<nat>
  {
    var line := CutLine(raw);
    if |line| <= K then Some(Strtoull(line))
    else
      var s := Stack(line, |line|);
      if |s| == K then Some(Strtoull(s + ['\0'])) else None
  }

  // ---------------------------------------------------------------------------
  // Properties of the stack
  // ---------------------------------------------------------------------------

  /** Popping removes a top part of the stack, each removed digit is smaller
      than `c`, and it stops while the rest of the line can still refill the
      stack. */
  lemma {:induction false} PopRemovesSmaller(stack: string, c: char, remaining: int)
    ensures |Pop(stack, c, remaining)| <= |stack|
    ensures Pop(stack, c, remaining) == stack[..|Pop(stack, c, remaining)|]
    ensures forall k :: |Pop(stack, c, remaining)| <= k < |stack| ==> stack[k] < c
    ensures |Pop(stack, c, remaining)| < |stack| ==> remaining + |Pop(stack, c, remaining)| + 1 >= K
    decreases |stack|
  {
    if |stack| > 0 && stack[|stack| - 1] < c && remaining + |stack| >= K {
      var shorter := stack[..|stack| - 1];
      PopRemovesSmaller(shorter, c, remaining);
      var p := Pop(shorter, c, remaining);
      assert stack[..|p|] == shorter[..|p|];
      forall k | |p| <= k < |stack|
        ensures stack[k] < c
      {
        if k < |stack| - 1 {
          assert stack[k] == shorter[k];
        }
      }
    }
  }

  /** The stack holds at most `K` digits. */
  lemma {:induction false} StackShape(line: string, i: nat)
    requires i <= |line|
    ensures |Stack(line, i)| <= K && AllDigits(Stack(line, i))
  {
    if i > 0 {
      StackShape(line, i - 1);
      if IsDigit(line[i - 1]) {
        PopRemovesSmaller(Stack(line, i - 1), line[i - 1], |line| - i);
      }
    }
  }

  /** The stack is never short by more than the characters read so far that
      are not digits and the characters not read yet can make up. */
  lemma {:induction false} StackFills(line: string, i: nat)
    requires i <= |line|
    ensures |Stack(line, i)| + (|line| - i) + (i - |DigitsOf(line[..i])|) >= K || |line| < K
  {
    if i > 0 {
      StackFills(line, i - 1);
      assert line[..i][..i - 1] == line[..i - 1];
      if IsDigit(line[i - 1]) {
        PopRemovesSmaller(Stack(line, i - 1), line[i - 1], |line| - i);
      }
    }
  }

  /** A line of digits only, longer than `K`, always fills the stack: `K`
      digits are kept and the buffer is read only where written. */
  lemma DigitLineFills(line: string)
    requires AllDigits(line) && |line| > K
    ensures |Stack(line, |line|)| == K
  {
    StackShape(line, |line|);
    StackFills(line, |line|);
    assert line[..|line|] == line;
    DigitsOfAll(line);
  }

  lemma {:induction false} DigitsOfAll(s: string)
    requires AllDigits(s)
    ensures DigitsOf(s) == s
  {
    if s != [] {
      DigitsOfAll(s[..|s| - 1]);
    }
  }

  /** `idx` lists, in increasing order, positions below `i` of `line` that
      hold the characters of `s`. */
  ghost predicate Embeds(s: string, line: string, i: nat, idx: seq<nat>)
  {
    |idx| == |s|
    && (forall k :: 0 <= k < |idx| ==> idx[k] < i && idx[k] < |line| && line[idx[k]] == s[k])
    && (forall k, l :: 0 <= k < l < |idx| ==> idx[k] < idx[l])
  }

  /** The kept digits are a subsequence of the line, in the line's order. */
  lemma {:induction false} StackIsSubsequence(line: string, i: nat)
    requires i <= |line|
    ensures exists idx :: Embeds(Stack(line, i), line, i, idx)
  {
    if i == 0 {
      var none: seq<nat> := [];
      assert Embeds(Stack(line, 0), line, 0, none);
    } else {
      StackIsSubsequence(line, i - 1);
      var s := Stack(line, i - 1);
      var idx :| Embeds(s, line, i - 1, idx);
      if IsDigit(line[i - 1]) {
        var p := Pop(s, line[i - 1], |line| - i);
        var kept := EmbedsPop(s, line, i - 1, idx, line[i - 1], |line| - i);
        if |p| < K {
          EmbedsPush(p, line, i, kept);
          assert Embeds(Stack(line, i), line, i, kept + [i - 1]);
        } else {
          EmbedsLater(p, line, i - 1, kept);
          assert Embeds(Stack(line, i), line, i, kept);
        }
      } else {
        EmbedsLater(s, line, i - 1, idx);
        assert Embeds(Stack(line, i), line, i, idx);
      }
    }
  }

  lemma EmbedsLater(s: string, line: string, i: nat, idx: seq<nat>)
    requires Embeds(s, line, i, idx)
    ensures Embeds(s, line, i + 1, idx)
  {
  }

  /** Popping keeps the positions of the digits that stay. */
  lemma EmbedsPop(s: string, line: string, i: nat, idx: seq<nat>, c: char, remaining: int) returns (kept: seq<nat>)
    requires Embeds(s, line, i, idx)
    ensures Embeds(Pop(s, c, remaining), line, i, kept)
  {
    PopRemovesSmaller(s, c, remaining);
    kept := idx[..|Pop(s, c, remaining)|];
  }

  /** Pushing the digit at position `i - 1` puts its position last. */
  lemma EmbedsPush(p: string, line: string, i: nat, kept: seq<nat>)
    requires 0 < i <= |line| && Embeds(p, line, i - 1, kept)
    ensures Embeds(p + [line[i - 1]], line, i, kept + [i - 1])
  {
  }

  // ---------------------------------------------------------------------------
  // The kept digits spell the largest number
  // ---------------------------------------------------------------------------

  /** `a` comes no later than `b` in dictionary order: it is a prefix of `b`,
      or at the first position where they differ `a` holds the smaller
      character. */
  ghost predicate LexLe(a: string, b: string)
  {
    (|a| <= |b| && a == b[..|a|])
    || exists j :: 0 <= j < |a| && j < |b| && a[..j] == b[..j] && a[j] < b[j]
  }

  /** Of two digit strings of one length, the one with the smaller digit at
      their first difference has the smaller value. */
  lemma {:induction false} LexLessValue(a: string, b: string, j: nat)
    requires AllDigits(a) && AllDigits(b) && |a| == |b|
    requires j < |a| && a[..j] == b[..j] && a[j] < b[j]
    ensures DigitsValue(a) < DigitsValue(b)
    decreases |a|
  {
    var m := |a| - 1;
    if j < m {
      assert a[..m][..j] == a[..j] && b[..m][..j] == b[..j];
      LexLessValue(a[..m], b[..m], j);
    } else {
      assert a[..m] == a[..j] && b[..m] == b[..j];
    }
  }

  lemma LexLeTrans(a: string, b: string, c: string)
    requires LexLe(a, b) && LexLe(b, c)
    ensures LexLe(a, c)
  {
    if |a| <= |b| && a == b[..|a|] {
      LexLeTransPrefix(a, b, c);
    } else {
      var i :| 0 <= i < |a| && i < |b| && a[..i] == b[..i] && a[i] < b[i];
      LexLeTransDiffering(a, b, c, i);
    }
  }

  lemma LexLeTransPrefix(a: string, b: string, c: string)
    requires |a| <= |b| && a == b[..|a|] && LexLe(b, c)
    ensures LexLe(a, c)
  {
    if |b| <= |c| && b == c[..|b|] {
      assert a == c[..|a|];
    } else {
      var j :| 0 <= j < |b| && j < |c| && b[..j] == c[..j] && b[j] < c[j];
      if j < |a| {
        assert a[..j] == b[..j] && a[j] == b[j];
        assert 0 <= j < |a| && j < |c| && a[..j] == c[..j] && a[j] < c[j];
      } else {
        assert a == b[..j][..|a|] && c[..|a|] == c[..j][..|a|];
      }
    }
  }

  lemma LexLeTransDiffering(a: string, b: string, c: string, i: nat)
    requires i < |a| && i < |b| && a[..i] == b[..i] && a[i] < b[i] && LexLe(b, c)
    ensures LexLe(a, c)
  {
    if |b| <= |c| && b == c[..|b|] {
      assert b[..i] == c[..i] && b[i] == c[i];
      assert 0 <= i < |a| && i < |c| && a[..i] == c[..i] && a[i] < c[i];
    } else {
      var j :| 0 <= j < |b| && j < |c| && b[..j] == c[..j] && b[j] < c[j];
      var k := if i < j then i else j;
      assert a[..k] == a[..i][..k] && b[..k] == b[..i][..k];
      assert b[..k] == b[..j][..k] && c[..k] == c[..j][..k];
      assert 0 <= k < |a| && k < |c| && a[..k] == c[..k] && a[k] < c[k];
    }
  }

  /** Popping stops at an empty stack, at a top not smaller than `c`, or when
      the rest of the line could no longer refill the stack. */
  lemma {:induction false} PopStops(stack: string, c: char, remaining: int)
    ensures var p := Pop(stack, c, remaining);
      p == [] || p[|p| - 1] >= c || remaining + |p| < K
    decreases |stack|
  {
    if |stack| > 0 && stack[|stack| - 1] < c && remaining + |stack| >= K {
      PopStops(stack[..|stack| - 1], c, remaining);
    }
  }

  /** A step never moves the stack earlier in dictionary order. */
  lemma StepGrows(s: string, c: char, remaining: int)
    requires |s| <= K
    ensures LexLe(s, Step(s, c, remaining))
  {
    PopRemovesSmaller(s, c, remaining);
    var p := Pop(s, c, remaining);
    var n := Step(s, c, remaining);
    if |p| < |s| {
      assert n == p + [c];
      assert s[..|p|] == n[..|p|] && s[|p|] < n[|p|];
    } else {
      assert s == n[..|s|];
    }
  }

  /** Every digit of the stack that is smaller than a digit above it sits at
      a position `a` the stack could not have given up: `remaining` more
      characters would not refill `a + 1` places up to `K`. */
  ghost predicate Forced(s: string, remaining: int)
  {
    forall a, b :: 0 <= a < b < |s| && s[a] < s[b] ==> remaining + a + 1 < K
  }

  lemma ForcedStep(s: string, c: char, remaining: int)
    requires Forced(s, remaining + 1)
    ensures Forced(Step(s, c, remaining), remaining)
  {
    PopRemovesSmaller(s, c, remaining);
    PopStops(s, c, remaining);
    var p := Pop(s, c, remaining);
    var n := Step(s, c, remaining);
    forall a, b | 0 <= a < b < |n| && n[a] < n[b]
      ensures remaining + a + 1 < K
    {
      assert n[a] == p[a] == s[a];
      if b < |p| {
        assert n[b] == p[b] == s[b];
      } else if remaining + |p| >= K {
        assert n[b] == c <= p[|p| - 1] == s[|p| - 1];
      }
    }
  }

  /** Every ascent of the stack is forced. */
  lemma {:induction false} StackForced(line: string, i: nat)
    requires i <= |line|
    ensures Forced(Stack(line, i), |line| - i)
  {
    if i > 0 {
      StackForced(line, i - 1);
      if IsDigit(line[i - 1]) {
        ForcedStep(Stack(line, i - 1), line[i - 1], |line| - i);
      }
    }
  }

  /** If `u` comes no later than the stack, `u` followed by the next digit
      `c` comes no later than the stack after `c`, as long as `u + [c]` can
      still be completed to `K` digits. */
  lemma StepDominates(s: string, c: char, remaining: int, u: string)
    requires |s| <= K && Forced(s, remaining + 1) && LexLe(u, s)
    requires |u| < K && |u| + 1 + remaining >= K
    ensures LexLe(u + [c], Step(s, c, remaining))
  {
    PopRemovesSmaller(s, c, remaining);
    PopStops(s, c, remaining);
    var p := Pop(s, c, remaining);
    if |u| <= |s| && u == s[..|u|] {
      ExtendPrefix(s, p, c, remaining, u);
    } else {
      var j :| 0 <= j < |u| && j < |s| && u[..j] == s[..j] && u[j] < s[j];
      ExtendDiffering(s, p, c, u, j);
    }
  }

  /** `StepDominates` for a `u` that is a prefix of the stack `s`, where `p`
      is what popping left of `s`. */
  lemma ExtendPrefix(s: string, p: string, c: char, remaining: int, u: string)
    requires |s| <= K && Forced(s, remaining + 1) && |u| <= |s| && u == s[..|u|]
    requires |u| < K && |u| + 1 + remaining >= K
    requires |p| <= |s| && p == s[..|p|] && forall k :: |p| <= k < |s| ==> s[k] < c
    requires p == [] || p[|p| - 1] >= c || remaining + |p| < K
    ensures LexLe(u + [c], if |p| < K then p + [c] else p)
  {
    var n := if |p| < K then p + [c] else p;
    var v := u + [c];
    assert n[..|p|] == p;
    if |u| < |p| {
      assert u == p[..|u|];
      assert s[|u|] == p[|u|] && s[|p| - 1] == p[|p| - 1];
      assert c <= p[|u|];
      if c < p[|u|] {
        assert v[..|u|] == n[..|u|] && v[|u|] < n[|u|];
      } else {
        assert v == n[..|u| + 1];
      }
    } else if |u| == |p| {
      assert v == n;
    } else {
      assert v[..|p|] == n[..|p|] && v[|p|] < n[|p|];
    }
  }

  /** `StepDominates` for a `u` that first differs from the stack `s` at `j`
      with a smaller digit, where `p` is what popping left of `s`. */
  lemma ExtendDiffering(s: string, p: string, c: char, u: string, j: nat)
    requires |s| <= K && j < |u| && j < |s| && u[..j] == s[..j] && u[j] < s[j]
    requires |p| <= |s| && p == s[..|p|] && forall k :: |p| <= k < |s| ==> s[k] < c
    ensures LexLe(u + [c], if |p| < K then p + [c] else p)
  {
    var n := if |p| < K then p + [c] else p;
    var v := u + [c];
    if j < |p| {
      assert n[..|p|] == p;
      assert v[..j] == u[..j] && n[..j] == p[..j] == s[..j];
      assert v[j] == u[j] && n[j] == p[j] == s[j];
    } else {
      assert n == p + [c];
      assert u[..|p|] == u[..j][..|p|];
      assert v[..|p|] == n[..|p|] && v[|p|] < n[|p|];
    }
  }

  /** On a line of digits, every choice of digits in the line's order that
      can still be completed to `K` digits comes no later than the stack. */
  lemma {:induction false} StackDominates(line: string, i: nat, t: string, idx: seq<nat>)
    requires AllDigits(line) && i <= |line|
    requires Embeds(t, line, i, idx) && |t| <= K && |t| + (|line| - i) >= K
    ensures LexLe(t, Stack(line, i))
  {
    if i == 0 {
      EmbedsFirst(t, line, i, idx);
    } else if |t| == 0 || idx[|t| - 1] < i - 1 {
      EmbedsEarlier(t, line, i, idx);
      StackDominates(line, i - 1, t, idx);
      SkipDominates(line, i, t);
    } else {
      var m := |t| - 1;
      EmbedsLast(t, line, i, idx);
      StackDominates(line, i - 1, t[..m], idx[..m]);
      TakeDominates(line, i, t[..m]);
    }
  }

  /** A choice that comes no later than the stack before a digit still does
      after it. */
  lemma SkipDominates(line: string, i: nat, t: string)
    requires AllDigits(line) && 0 < i <= |line|
    requires LexLe(t, Stack(line, i - 1))
    ensures LexLe(t, Stack(line, i))
  {
    var s := Stack(line, i - 1);
    assert Stack(line, i) == Step(s, line[i - 1], |line| - i);
    StackShape(line, i - 1);
    StepGrows(s, line[i - 1], |line| - i);
    LexLeTrans(t, s, Stack(line, i));
  }

  /** A choice that comes no later than the stack before a digit, and can
      still take it, comes no later with that digit than the stack after it. */
  lemma TakeDominates(line: string, i: nat, u: string)
    requires AllDigits(line) && 0 < i <= |line|
    requires LexLe(u, Stack(line, i - 1)) && |u| < K && |u| + 1 + (|line| - i) >= K
    ensures LexLe(u + [line[i - 1]], Stack(line, i))
  {
    var s := Stack(line, i - 1);
    assert Stack(line, i) == Step(s, line[i - 1], |line| - i);
    StackShape(line, i - 1);
    StackForced(line, i - 1);
    StepDominates(s, line[i - 1], |line| - i, u);
  }

  /** The first position of a choice from the first `i` characters is below
      `i`; so nothing but the empty string embeds in none of them. */
  lemma EmbedsFirst(t: string, line: string, i: nat, idx: seq<nat>)
    requires Embeds(t, line, i, idx)
    ensures |t| == |idx| && (|t| > 0 ==> idx[0] < i)
  {
  }

  /** Positions all below `i - 1` embed in the first `i - 1` characters. */
  lemma EmbedsEarlier(t: string, line: string, i: nat, idx: seq<nat>)
    requires 0 < i && Embeds(t, line, i, idx) && (|t| == 0 || idx[|t| - 1] < i - 1)
    ensures Embeds(t, line, i - 1, idx)
  {
  }

  /** A choice whose last position is `i - 1` is a choice from the first
      `i - 1` characters followed by `line[i - 1]`. */
  lemma EmbedsLast(t: string, line: string, i: nat, idx: seq<nat>)
    requires 0 < i && Embeds(t, line, i, idx) && |t| > 0 && idx[|t| - 1] >= i - 1
    ensures Embeds(t[..|t| - 1], line, i - 1, idx[..|t| - 1])
    ensures t == t[..|t| - 1] + [line[i - 1]]
  {
  }

  /** `idx` picks `K` positions of `line`, in increasing order. */
  ghost predicate Selection(line: string, idx: seq<nat>)
  {
    |idx| == K
    && (forall k :: 0 <= k < K ==> idx[k] < |line|)
    && (forall k, l :: 0 <= k < l < K ==> idx[k] < idx[l])
  }

  /** The characters of `line` at the positions `idx`. */
  function Pick(line: string, idx: seq<nat>): (s: string)
    requires forall k :: 0 <= k < |idx| ==> idx[k] < |line|
    ensures |s| == |idx| && forall k :: 0 <= k < |idx| ==> s[k] == line[idx[k]]
  {
    seq(|idx|, k requires 0 <= k < |idx| => line[idx[k]])
  }

  /** A line of digits has no CR or LF to cut at. */
  lemma {:induction false} CutDigits(s: string)
    requires AllDigits(s)
    ensures CutLine(s) == s
  {
    if s != [] {
      CutDigits(s[1..]);
    }
  }

  /** On a line of digits longer than `K`, the line adds the value of the
      `K` digits the stack keeps. */
  lemma KeptValue(line: string)
    requires AllDigits(line) && |line| > K
    ensures |Stack(line, |line|)| == K && AllDigits(Stack(line, |line|))
    ensures LineValue(line) == Some(DigitsValue(Stack(line, |line|)))
  {
    var s := Stack(line, |line|);
    CutDigits(line);
    DigitLineFills(line);
    StackShape(line, |line|);
    StrtoullDigits(s, ['\0']);
  }

  /** No choice of `K` digits of the line, in order, spells more than the
      kept ones. */
  lemma SelectionAtMost(line: string, idx: seq<nat>)
    requires AllDigits(line) && |line| > K && Selection(line, idx)
    ensures AllDigits(Pick(line, idx)) && AllDigits(Stack(line, |line|))
    ensures DigitsValue(Pick(line, idx)) <= DigitsValue(Stack(line, |line|))
  {
    KeptValue(line);
    PickEmbeds(line, idx);
    StackDominates(line, |line|, Pick(line, idx), idx);
    LexLeValue(Pick(line, idx), Stack(line, |line|));
  }

  lemma PickEmbeds(line: string, idx: seq<nat>)
    requires Selection(line, idx)
    ensures Embeds(Pick(line, idx), line, |line|, idx)
  {
  }

  /** Of two digit strings of one length, the one no later in dictionary
      order has the value no larger. */
  lemma LexLeValue(a: string, b: string)
    requires AllDigits(a) && AllDigits(b) && |a| == |b| && LexLe(a, b)
    ensures DigitsValue(a) <= DigitsValue(b)
  {
    if a != b {
      var j :| 0 <= j < |a| && j < |b| && a[..j] == b[..j] && a[j] < b[j];
      LexLessValue(a, b, j);
    }
  }

  /** On a line of digits longer than `K`, the value the line adds is the
      largest number that `K` of its digits, kept in their order, can spell,
      and some such choice spells it. */
  lemma KeptIsLargest(line: string)
    requires AllDigits(line) && |line| > K
    ensures LineValue(line).Some?
    ensures exists idx :: Selection(line, idx) && LineValue(line).value == DigitsValue(Pick(line, idx))
    ensures forall idx :: Selection(line, idx) ==> DigitsValue(Pick(line, idx)) <= LineValue(line).value
  {
    var s := Stack(line, |line|);
    KeptValue(line);
    StackIsSubsequence(line, |line|);
    var kept :| Embeds(s, line, |line|, kept);
    assert Selection(line, kept) && Pick(line, kept) == s;
    forall idx | Selection(line, idx)
      ensures DigitsValue(Pick(line, idx)) <= DigitsValue(s)
    {
      SelectionAtMost(line, idx);
    }
  }

  // ---------------------------------------------------------------------------
  // The loops of `main`
  // ---------------------------------------------------------------------------

  /** The body of the line loop of `main`: cut the line, take it whole when
      it is short, otherwise run the stack over it and read the `K` kept
      digits back. */
  method LineJoltage(raw: string) returns (value: Option<nat>)
    ensures value == LineValue(raw)
  {
    var line := CutLine(raw);
    var len := |line|;
    if len <= K {
      return Some(Strtoull(line));
    }
    var result := new char[K + 1];
    var resIndex := 0;
    for i := 0 to len
      invariant 0 <= resIndex <= K
      invariant result[..resIndex] == Stack(line, i)
    {
      if !IsDigit(line[i]) {
        continue;
      }
      StackShape(line, i);
      resIndex := PushDigit(result, resIndex, line, i);
    }
    result[K] := '\0';
    if resIndex < K {
      return None;
    }
    assert result[..] == result[..K] + ['\0'];
    return Some(Strtoull(result[..]));
  }

  /** One pass of the `for` loop over a digit: the popping `while` loop, then
      the push. */
  method PushDigit(result: array<char>, resIndex: nat, line: string, i: nat) returns (newIndex: nat)
    requires result.Length == K + 1 && resIndex <= K && i < |line| && IsDigit(line[i])
    requires result[..resIndex] == Stack(line, i)
    modifies result
    ensures newIndex <= K
    ensures result[..newIndex] == Stack(line, i + 1)
  {
    var len := |line|;
    var c := line[i];
    newIndex := resIndex;
    while newIndex > 0 && result[newIndex - 1] < c && len - i - 1 + newIndex >= K
      invariant newIndex <= resIndex
      invariant Pop(result[..newIndex], c, len - i - 1) == Pop(Stack(line, i), c, len - i - 1)
      decreases newIndex
    {
      assert result[..newIndex][..newIndex - 1] == result[..newIndex - 1];
      newIndex := newIndex - 1;
    }
    if newIndex < K {
      result[newIndex] := c;
      newIndex := newIndex + 1;
    }
  }

  /** The values of the lines, each read on its own. */
  function LineValues(lines: seq<string>): (values: seq<Option<nat>>)
    ensures |values| == |lines|
  {
    seq(|lines|, i requires 0 <= i < |lines| => LineValue(lines[i]))
  }

  /** `values` holds the value of each line. */
  ghost predicate Valued(lines: seq<string>, values: seq<Option<nat>>)
  {
    |values| == |lines|
    && forall i {:trigger LineValue(lines[i])} :: 0 <= i < |lines| ==> values[i] == LineValue(lines[i])
  }

  lemma LineValuesValued(lines: seq<string>)
    ensures Valued(lines, LineValues(lines))
  {
  }

  /** The total of the first `k` values, modulo 2^64, or `None` once a
      line's value is undefined. */
  function Total(values: seq<Option<nat>>, k: nat): Option<nat>
    requires k <= |values|
  {
    if k == 0 then Some(0)
    else
      match Total(values, k - 1)
      case None => None
      case Some(t) =>
        match values[k - 1]
        case None => None
        case Some(v) => Some((t + v) % Modulus)
  }

  /** The result of `main` for the lines `fgets` yields. */
  function Answer(lines: seq<string>): Option<nat>
  {
    Total(LineValues(lines), |lines|)
  }

  lemma ModAdd(a: int, b: int)
    ensures (a % Modulus + b) % Modulus == (a + b) % Modulus
  {
    var q := a / Modulus;
    assert a == Modulus * q + a % Modulus;
    assert a + b == Modulus * q + (a % Modulus + b);
  }

  /** The 64-bit total is the exact sum of the line values, wrapped modulo
      2^64. */
  lemma {:induction false} TotalWraps(values: seq<Option<nat>>, k: nat, exact: seq<int>)
    requires k <= |values| && |exact| == k
    requires forall i :: 0 <= i < k ==> values[i].Some? && values[i].value == exact[i]
    ensures Total(values, k) == Some(Sum(exact) % Modulus)
  {
    if k > 0 {
      var rest := exact[..k - 1];
      TotalWraps(values, k - 1, rest);
      ModAdd(Sum(rest), exact[k - 1]);
    }
  }

  lemma {:induction false} TotalStops(values: seq<Option<nat>>, k: nat, m: nat)
    requires k <= m <= |values| && Total(values, k).None?
    ensures Total(values, m).None?
    decreases m - k
  {
    if k < m {
      TotalStops(values, k + 1, m);
    }
  }

  /** The line loop of `main`. */
  method TotalJoltage(lines: seq<string>) returns (total: Option<nat>)
    ensures total == Answer(lines)
  {
    LineValuesValued(lines);
    total := SumLines(lines, LineValues(lines));
  }

  method SumLines(lines: seq<string>, ghost values: seq<Option<nat>>) returns (total: Option<nat>)
    requires Valued(lines, values)
    ensures total == Total(values, |lines|)
  {
    var sum: nat := 0;
    for k := 0 to |lines|
      invariant Total(values, k) == Some(sum)
    {
      var value := ReadValue(lines, k, values);
      if value.None? {
        TotalStops(values, k + 1, |lines|);
        return None;
      }
      sum := (sum + value.value) % Modulus;
    }
    return Some(sum);
  }

  /** The value of line `k`. */
  method ReadValue(lines: seq<string>, k: nat, ghost values: seq<Option<nat>>) returns (value: Option<nat>)
    requires k < |lines| && Valued(lines, values)
    ensures value == values[k]
  {
    assert values[k] == LineValue(lines[k]);
    value := LineJoltage(lines[k]);
  }
}
