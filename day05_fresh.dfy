/** Day 5, part 1: the ingredient database lists inclusive id ranges, then a
    blank line, then the ids available; an id is fresh when some range holds it. */
module FreshIds {
  import opened Common

  /** An inclusive range of ids `(start, end)`. */
  type Range = (int, int)

  predicate Within(rg: Range, id: int)
  {
    rg.0 <= id <= rg.1
  }

  // ---------------------------------------------------------------------------
  // Parsing
  // ---------------------------------------------------------------------------

  /** `start, end = map(int, line.split("-"))`: exactly two pieces around '-',
      each read by `int`; `None` is the ValueError the unpacking or `int` raises. */
  function ParseRange(line: string): Option<Range>
  {
    var parts := Split(line, "-");
    if |parts| != 2 then None
    else
      match (ParseInt(parts[0]), ParseInt(parts[1]))
      case (Some(a), Some(b)) => Some((a, b))
      case _ => None
  }

  /** The text `str(a) + "-" + str(b)` that the database holds for a range. */
  function FormatRange(a: nat, b: nat): string
  {
    NatToString(a) + "-" + NatToString(b)
  }

  predicate NoDash(s: string)
  {
    forall k :: 0 <= k < |s| ==> s[k] != '-'
  }

  lemma {:induction false} SplitNoDash(s: string)
    requires NoDash(s)
    ensures Split(s, "-") == [s]
    decreases |s|
  {
    if |s| >= 1 {
      assert s[..1] != "-" by { assert s[..1][0] == s[0]; }
      SplitNoDash(s[1..]);
      assert [s[0]] + s[1..] == s;
    }
  }

  lemma {:induction false} SplitOneDash(x: string, y: string)
    requires NoDash(x) && NoDash(y)
    ensures Split(x + "-" + y, "-") == [x, y]
    decreases |x|
  {
    var s := x + "-" + y;
    if x == [] {
      assert s[..1] == "-" && s[1..] == y;
      SplitNoDash(y);
    } else {
      assert s[..1] != "-" by { assert s[..1][0] == x[0]; }
      assert s[1..] == x[1..] + "-" + y;
      SplitOneDash(x[1..], y);
      assert [s[0]] + x[1..] == x;
    }
  }

  lemma DigitsNoDash(s: string)
    requires AllDigits(s)
    ensures NoDash(s)
  {
    forall k | 0 <= k < |s|
      ensures s[k] != '-'
    {
      assert IsDigit(s[k]);
    }
  }

  /** Reading back the text of a range of non-negative ids gives the range. */
  lemma ParseRangeRoundTrip(a: nat, b: nat)
    ensures ParseRange(FormatRange(a, b)) == Some((a, b))
  {
    var x, y := NatToString(a), NatToString(b);
    DigitsNoDash(x);
    DigitsNoDash(y);
    SplitOneDash(x, y);
    ParseIntRoundTrip(a);
    ParseIntRoundTrip(b);
  }

  /** A line that starts with '-' (a negative start) is always rejected, since
      its first piece is empty. */
  lemma NegativeStartRejected(s: string)
    ensures ParseRange("-" + s) == None
  {
    var line := "-" + s;
    assert line[..1] == "-" && line[1..] == s;
    assert Split(line, "-")[0] == "";
    ParseIntBlank("");
  }

  /** The ranges read from stripped `lines`, every line a range, in order. */
  function RangesOf(lines: seq<string>): Option<seq<Range>>
  {
    if lines == [] then Some([])
    else Append(RangesOf(lines[..|lines| - 1]), ParseRange(lines[|lines| - 1]))
  }

  lemma RangesOfStep(lines: seq<string>, n: nat)
    requires n < |lines|
    ensures RangesOf(lines[..n + 1]) == Append(RangesOf(lines[..n]), ParseRange(lines[n]))
  {
    var next := lines[..n + 1];
    assert next[..n] == lines[..n] && next[n] == lines[n];
  }

  /** Once a line fails to parse, no longer list of lines parses. */
  lemma {:induction false} RangesOfFails(lines: seq<string>, n: nat)
    requires n <= |lines| && RangesOf(lines[..n]) == None
    ensures RangesOf(lines) == None
    decreases |lines| - n
  {
    if n < |lines| {
      RangesOfStep(lines, n);
      RangesOfFails(lines, n + 1);
    } else {
      assert lines[..n] == lines;
    }
  }

  /** The ids read from stripped `lines`, blank lines skipped. */
  function IdsOf(lines: seq<string>): Option<seq<int>>
  {
    if lines == [] then Some([])
    else if lines[|lines| - 1] == "" then IdsOf(lines[..|lines| - 1])
    else Append(IdsOf(lines[..|lines| - 1]), ParseInt(lines[|lines| - 1]))
  }

  lemma IdsOfStep(lines: seq<string>, n: nat)
    requires n < |lines|
    ensures IdsOf(lines[..n + 1]) ==
      if lines[n] == "" then IdsOf(lines[..n]) else Append(IdsOf(lines[..n]), ParseInt(lines[n]))
  {
    var next := lines[..n + 1];
    assert next[..n] == lines[..n] && next[n] == lines[n];
  }

  lemma {:induction false} IdsOfFails(lines: seq<string>, n: nat)
    requires n <= |lines| && IdsOf(lines[..n]) == None
    ensures IdsOf(lines) == None
    decreases |lines| - n
  {
    if n < |lines| {
      IdsOfStep(lines, n);
      IdsOfFails(lines, n + 1);
    } else {
      assert lines[..n] == lines;
    }
  }

  /** Index of the first blank line, or the number of lines. */
  function FirstBlank(lines: seq<string>): (b: nat)
    ensures b <= |lines|
  {
    if lines == [] then 0
    else if lines[0] == "" then 0
    else 1 + FirstBlank(lines[1..])
  }

  lemma {:induction false} FirstBlankFacts(lines: seq<string>)
    ensures forall k :: 0 <= k < FirstBlank(lines) ==> lines[k] != ""
    ensures FirstBlank(lines) < |lines| ==> lines[FirstBlank(lines)] == ""
  {
    if lines != [] && lines[0] != "" {
      FirstBlankFacts(lines[1..]);
    }
  }

  lemma {:induction false} FirstBlankAt(lines: seq<string>, b: nat)
    requires b < |lines| && lines[b] == ""
    requires forall k :: 0 <= k < b ==> lines[k] != ""
    ensures FirstBlank(lines) == b
  {
    if b > 0 {
      FirstBlankAt(lines[1..], b - 1);
    }
  }

  /** The two sections of stripped lines: the ranges on the lines before the
      first blank line and the ids on the non-blank lines after it. */
  function Sections(lines: seq<string>): Option<(seq<Range>, seq<int>)>
  {
    var b := FirstBlank(lines);
    var after := if b < |lines| then lines[b + 1..] else [];
    match (RangesOf(lines[..b]), IdsOf(after))
    case (Some(rs), Some(ids)) => Some((rs, ids))
    case _ => None
  }

  /** What `parse_input` returns for the lines of the file. */
  function Database(lines: seq<string>): Option<(seq<Range>, seq<int>)>
  {
    Sections(StripLines(lines))
  }

  /** `parse_input`: the first loop reads ranges up to the first blank line, the
      second reads the ids on the remaining non-blank lines. */
  method ParseInput(lines: seq<string>) returns (r: Option<(seq<Range>, seq<int>)>)
    ensures r == Database(lines)
  {
    var stripped := StripLines(lines);
    r := ReadSections(stripped);
  }

  method ReadSections(lines: seq<string>) returns (r: Option<(seq<Range>, seq<int>)>)
    ensures r == Sections(lines)
  {
    var ranges, i := ReadRanges(lines);
    if ranges.None? {
      return None;
    }
    i := i + 1;
    var ids := ReadIds(lines, i);
    if ids.None? {
      return None;
    }
    r := Some((ranges.value, ids.value));
  }

  /** The first loop of `parse_input`: ranges up to the first blank line, and
      the index where it stopped. */
  method ReadRanges(lines: seq<string>) returns (ranges: Option<seq<Range>>, i: nat)
    ensures ranges == RangesOf(lines[..FirstBlank(lines)])
    ensures ranges.Some? ==> i == FirstBlank(lines)
  {
    ghost var b := FirstBlank(lines);
    var read: seq<Range> := [];
    i := 0;
    while i < |lines| && lines[i] != ""
      invariant i <= b
      invariant RangesOf(lines[..i]) == Some(read)
    {
      BeforeBlank(lines, i);
      RangesOfStep(lines, i);
      var rg := ParseRange(lines[i]);
      if rg.None? {
        RangesStop(lines, b, i);
        return None, i;
      }
      assert RangesOf(lines[..i + 1]) == Some(read + [rg.value]);
      read := read + [rg.value];
      i := i + 1;
    }
    AtBlank(lines, i);
    ranges := Some(read);
  }

  lemma BeforeBlank(lines: seq<string>, i: nat)
    requires i <= FirstBlank(lines) && i < |lines| && lines[i] != ""
    ensures i < FirstBlank(lines)
  {
    FirstBlankFacts(lines);
  }

  lemma AtBlank(lines: seq<string>, i: nat)
    requires i <= FirstBlank(lines) && (i == |lines| || (i < |lines| && lines[i] == ""))
    ensures i == FirstBlank(lines)
  {
    FirstBlankFacts(lines);
  }

  /** A range line that does not parse makes the whole section fail. */
  lemma RangesStop(lines: seq<string>, b: nat, i: nat)
    requires i < b <= |lines| && ParseRange(lines[i]) == None
    ensures RangesOf(lines[..b]) == None
  {
    var top := lines[..b];
    RangesOfStep(top, i);
    assert top[..i + 1] == lines[..i + 1] && top[..i] == lines[..i] && top[i] == lines[i];
    RangesOfFails(top, i + 1);
  }

  lemma IdsNext(lines: seq<string>, n: nat, read: seq<int>)
    requires n < |lines| && IdsOf(lines[..n]) == Some(read)
    requires lines[n] != "" ==> ParseInt(lines[n]).Some?
    ensures IdsOf(lines[..n + 1]) == if lines[n] == "" then Some(read) else Some(read + [ParseInt(lines[n]).value])
  {
    IdsOfStep(lines, n);
  }

  /** An id line that does not parse makes the whole section fail. */
  lemma IdsStop(lines: seq<string>, i: nat)
    requires i < |lines| && lines[i] != "" && ParseInt(lines[i]) == None
    ensures IdsOf(lines) == None
  {
    IdsOfStep(lines, i);
    IdsOfFails(lines, i + 1);
  }

  /** The second loop of `parse_input`: the ids on the non-blank lines from
      index `start` on. */
  method ReadIds(lines: seq<string>, start: nat) returns (ids: Option<seq<int>>)
    ensures ids == IdsOf(if start < |lines| then lines[start..] else [])
  {
    ghost var after := if start < |lines| then lines[start..] else [];
    var read: seq<int> := [];
    var i := start;
    ghost var n := 0;
    while i < |lines|
      invariant start <= i && n == i - start <= |after|
      invariant IdsOf(after[..n]) == Some(read)
    {
      assert after[n] == lines[i];
      var line := lines[i];
      if line != "" {
        var id := ParseInt(line);
        if id.None? {
          IdsStop(after, n);
          return None;
        }
        IdsNext(after, n, read);
        read := read + [id.value];
      } else {
        IdsNext(after, n, read);
      }
      i, n := i + 1, n + 1;
    }
    assert n == |after|;
    assert after[..n] == after;
    ids := Some(read);
  }

  // ---------------------------------------------------------------------------
  // Printing a database and reading it back
  // ---------------------------------------------------------------------------

  function FormatRanges(rs: seq<(nat, nat)>): (lines: seq<string>)
    ensures |lines| == |rs|
  {
    if rs == [] then [] else FormatRanges(rs[..|rs| - 1]) + [FormatRange(rs[|rs| - 1].0, rs[|rs| - 1].1)]
  }

  function FormatIds(ids: seq<nat>): (lines: seq<string>)
    ensures |lines| == |ids|
  {
    if ids == [] then [] else FormatIds(ids[..|ids| - 1]) + [IdText(ids[|ids| - 1])]
  }

  /** The text `str(n)` that the database holds for an id. */
  function IdText(n: nat): string
  {
    NatToString(n)
  }

  function AsRanges(rs: seq<(nat, nat)>): (r: seq<Range>)
    ensures |r| == |rs|
  {
    if rs == [] then [] else AsRanges(rs[..|rs| - 1]) + [(rs[|rs| - 1].0, rs[|rs| - 1].1)]
  }

  function AsInts(ids: seq<nat>): (r: seq<int>)
    ensures |r| == |ids|
  {
    if ids == [] then [] else AsInts(ids[..|ids| - 1]) + [ids[|ids| - 1]]
  }

  /** Text made of digits and '-' is left as it is by `strip`. */
  lemma DashedDigitsText(s: string)
    requires forall k :: 0 <= k < |s| ==> IsDigit(s[k]) || s[k] == '-'
    ensures Strip(s) == s
  {
    assert NoSpace(s) by {
      forall k | 0 <= k < |s|
        ensures !IsSpace(s[k])
      {
      }
    }
    StripNoSpace(s);
  }

  lemma DigitsText(s: string)
    requires Canonical(s)
    ensures Strip(s) == s
  {
    DashedDigitsText(s);
  }

  lemma RangeText(x: string, y: string)
    requires Canonical(x) && Canonical(y)
    ensures Strip(x + "-" + y) == x + "-" + y != ""
  {
    var s := x + "-" + y;
    forall k | 0 <= k < |s|
      ensures IsDigit(s[k]) || s[k] == '-'
    {
      if k < |x| {
        assert s[k] == x[k];
      } else if k > |x| {
        assert s[k] == y[k - |x| - 1];
      }
    }
    DashedDigitsText(s);
  }

  lemma {:induction false} RangesRoundTrip(rs: seq<(nat, nat)>)
    ensures RangesOf(FormatRanges(rs)) == Some(AsRanges(rs))
  {
    if rs != [] {
      var init := rs[..|rs| - 1];
      var (a, b) := rs[|rs| - 1];
      var lines := FormatRanges(rs);
      RangesRoundTrip(init);
      assert lines[..|lines| - 1] == FormatRanges(init);
      ParseRangeRoundTrip(a, b);
    }
  }

  lemma {:induction false} IdsRoundTrip(ids: seq<nat>)
    ensures IdsOf(FormatIds(ids)) == Some(AsInts(ids))
  {
    if ids != [] {
      var init := ids[..|ids| - 1];
      var lines := FormatIds(ids);
      IdsRoundTrip(init);
      assert lines[..|lines| - 1] == FormatIds(init);
      ParseIntRoundTrip(ids[|ids| - 1]);
    }
  }

  /** Printed range lines are unpadded and never blank. */
  lemma {:induction false} RangeLines(rs: seq<(nat, nat)>)
    ensures Unpadded(FormatRanges(rs)) && "" !in FormatRanges(rs)
  {
    if rs != [] {
      var init := rs[..|rs| - 1];
      var (a, b) := rs[|rs| - 1];
      RangeLines(init);
      RangeText(NatToString(a), NatToString(b));
      assert FormatRanges(rs) == FormatRanges(init) + [FormatRange(a, b)];
    }
  }

  /** Printed id lines are unpadded. */
  lemma {:induction false} IdLines(ids: seq<nat>)
    ensures Unpadded(FormatIds(ids))
  {
    if ids != [] {
      var init := ids[..|ids| - 1];
      var n := ids[|ids| - 1];
      IdLines(init);
      IdTextUnpadded(n);
      assert FormatIds(ids) == FormatIds(init) + [IdText(n)];
    }
  }

  lemma IdTextUnpadded(n: nat)
    ensures Strip(IdText(n)) == IdText(n)
  {
    DigitsText(NatToString(n));
  }

  /** Printing a database of non-negative ranges and ids and reading it back
      gives the same ranges and ids. */
  lemma DatabaseRoundTrip(rs: seq<(nat, nat)>, ids: seq<nat>)
    ensures Database(FormatRanges(rs) + [""] + FormatIds(ids)) == Some((AsRanges(rs), AsInts(ids)))
  {
    var lines := FormatRanges(rs) + [""] + FormatIds(ids);
    RangeLines(rs);
    IdLines(ids);
    assert Strip("") == "";
    StripUnpadded(lines);
    SectionsRoundTrip(rs, ids);
  }

  lemma SectionsRoundTrip(rs: seq<(nat, nat)>, ids: seq<nat>)
    requires "" !in FormatRanges(rs)
    ensures Sections(FormatRanges(rs) + [""] + FormatIds(ids)) == Some((AsRanges(rs), AsInts(ids)))
  {
    var top := FormatRanges(rs);
    var lines := top + [""] + FormatIds(ids);
    forall k | 0 <= k < |top|
      ensures lines[k] != ""
    {
      assert lines[k] == top[k] && top[k] in top;
    }
    FirstBlankAt(lines, |top|);
    assert lines[..|top|] == top;
    assert lines[|top| + 1..] == FormatIds(ids);
    RangesRoundTrip(rs);
    IdsRoundTrip(ids);
  }

  // ---------------------------------------------------------------------------
  // Freshness
  // ---------------------------------------------------------------------------

  /** `is_fresh`: the ranges are tried in order and the first that holds the id
      answers True. */
  function IsFresh(id: int, ranges: seq<Range>): (found: bool)
    ensures found <==> exists k :: 0 <= k < |ranges| && Within(ranges[k], id)
  {
    if ranges == [] then false
    else if Within(ranges[0], id) then true
    else
      var found := IsFresh(id, ranges[1..]);
      assert found ==> exists k :: 0 <= k < |ranges| && Within(ranges[k], id) by {
        if found {
          var k :| 0 <= k < |ranges[1..]| && Within(ranges[1..][k], id);
          assert Within(ranges[k + 1], id);
        }
      }
      found
  }

  /** Freshness does not depend on the order of the ranges. */
  lemma IsFreshPermutation(id: int, a: seq<Range>, b: seq<Range>)
    requires multiset(a) == multiset(b)
    ensures IsFresh(id, a) == IsFresh(id, b)
  {
    if IsFresh(id, a) {
      var k :| 0 <= k < |a| && Within(a[k], id);
      assert a[k] in multiset(b);
      var k' :| 0 <= k' < |b| && b[k'] == a[k];
    }
    if IsFresh(id, b) {
      var k :| 0 <= k < |b| && Within(b[k], id);
      assert b[k] in multiset(a);
      var k' :| 0 <= k' < |a| && a[k'] == b[k];
    }
  }

  /** `count_fresh_ids`: the available ids that are fresh, with multiplicity. */
  function CountFresh(ranges: seq<Range>, ids: seq<int>): (n: nat)
    ensures n <= |ids|
  {
    if ids == [] then 0
    else CountFresh(ranges, ids[..|ids| - 1]) + (if IsFresh(ids[|ids| - 1], ranges) then 1 else 0)
  }

  /** The ids counted are exactly the fresh ones: every id fresh gives all of
      them, and no range at all gives none. */
  lemma {:induction false} CountFreshExtremes(ranges: seq<Range>, ids: seq<int>)
    ensures CountFresh(ranges, ids) == |ids| <==> forall k :: 0 <= k < |ids| ==> IsFresh(ids[k], ranges)
    ensures CountFresh(ranges, ids) == 0 <==> forall k :: 0 <= k < |ids| ==> !IsFresh(ids[k], ranges)
  {
    if ids != [] {
      var init := ids[..|ids| - 1];
      CountFreshExtremes(ranges, init);
      assert forall k :: 0 <= k < |init| ==> init[k] == ids[k];
    }
  }

  /** The count does not depend on the order of the ranges. */
  lemma {:induction false} CountFreshPermutation(a: seq<Range>, b: seq<Range>, ids: seq<int>)
    requires multiset(a) == multiset(b)
    ensures CountFresh(a, ids) == CountFresh(b, ids)
  {
    if ids != [] {
      CountFreshPermutation(a, b, ids[..|ids| - 1]);
      IsFreshPermutation(ids[|ids| - 1], a, b);
    }
  }
}
