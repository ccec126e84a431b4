/** Day 2: an id is invalid when its decimal digits are one chunk repeated at
    least twice ("1212", "777", "123123123"); the answer is the sum of the
    invalid ids over a comma-separated list of inclusive ranges "low-high". */
module RepeatedIds {
  import opened Common

  /** Python's `str(n)` for any integer. */
  function IntToString(n: int): (s: string)
  {
    if n < 0 then "-" + NatToString(-n) else NatToString(n)
  }

  /** `chunk * m`: `m` copies of `chunk`, one after the other. */
  function Repeat(chunk: string, m: nat): (r: string)
    ensures |r| == |chunk| * m
  {
    if m == 0 then [] else Repeat(chunk, m - 1) + chunk
  }

  /** `s` is its first `k` characters repeated: the test inside the loop of
      `is_repeated_pattern` for one chunk size. */
  predicate RepeatsChunk(s: string, k: int)
  {
    1 <= k <= |s| / 2 && |s| % k == 0 && s == Repeat(s[..k], |s| / k)
  }

  /** What `is_repeated_pattern` decides about the digits `s`. */
  ghost predicate Repeated(s: string)
  {
    exists k :: RepeatsChunk(s, k)
  }

  /** Every character of `s` equals the one `k` places before it. */
  ghost predicate Periodic(s: string, k: nat)
    requires k > 0
  {
    forall i :: 0 <= i < |s| ==> s[i] == s[i % k]
  }

  /** Character `i` of `m` copies of `chunk` is character `i % |chunk|` of
      the chunk. */
  lemma {:induction false} RepeatIndex(chunk: string, m: nat, i: int)
    requires |chunk| > 0 && 0 <= i < |chunk| * m
    ensures Repeat(chunk, m)[i] == chunk[i % |chunk|]
  {
    var c := |chunk|;
    assert c * m == c * (m - 1) + c;
    if i < c * (m - 1) {
      RepeatIndex(chunk, m - 1, i);
    } else {
      ModUnique(i, c, m - 1, i - c * (m - 1));
    }
  }

  /** Repeating the first `k` characters rebuilds `s` exactly when `s` has
      period `k`. */
  lemma RepeatsIffPeriodic(s: string, k: nat)
    requires 0 < k <= |s| && |s| % k == 0
    ensures s == Repeat(s[..k], |s| / k) <==> Periodic(s, k)
  {
    var m := |s| / k;
    ModUnique(|s|, k, m, 0);
    var r := Repeat(s[..k], m);
    assert |r| == |s|;
    forall i | 0 <= i < |s|
      ensures r[i] == s[i % k]
    {
      RepeatIndex(s[..k], m, i);
    }
    if Periodic(s, k) {
      assert forall i :: 0 <= i < |s| ==> r[i] == s[i];
    }
  }

  /** A chunk size that works leaves at least two copies of the chunk, so
      a single character is never repeated. */
  lemma ChunkTwice(s: string, k: int)
    requires RepeatsChunk(s, k)
    ensures |s| / k >= 2 && |s| >= 2 * k
  {
    ModUnique(|s|, k, |s| / k, 0);
  }

  /** A one-digit id is never invalid. */
  lemma SingleDigitValid(n: int)
    requires 0 <= n < 10
    ensures !Repeated(IntToString(n))
  {
  }

  /** `is_repeated_pattern`: try every chunk size from 1 to half the length;
      the first one whose repetition rebuilds `str(n)` settles it. */
  method IsRepeatedPattern(n: int) returns (repeated: bool)
    ensures repeated <==> Repeated(IntToString(n))
  {
    var s := IntToString(n);
    var length := |s|;
    for k := 1 to length / 2 + 1
      invariant forall j :: 1 <= j < k ==> !RepeatsChunk(s, j)
    {
      if length % k == 0 {
        var chunk := s[..k];
        if s == Repeat(chunk, length / k) {
          assert RepeatsChunk(s, k);
          return true;
        }
      }
    }
    return false;
  }

  /** The digits of 1212 are "12" twice. */
  lemma RepeatedExample()
    ensures Repeated(IntToString(1212))
  {
    assert NatToString(12) == "12";
    assert NatToString(121) == NatToString(12) + "1" == "121";
    assert IntToString(1212) == NatToString(121) + "2" == "1212";
    assert Repeat("12", 2) == "12" + "12";
    assert RepeatsChunk("1212", 2);
  }

  /** No chunk size works for 1234. */
  lemma UnrepeatedExample()
    ensures !Repeated(IntToString(1234))
  {
    DigitsOf1234();
    NoChunkOf1234();
  }

  lemma DigitsOf1234()
    ensures IntToString(1234) == "1234"
  {
    assert NatToString(12) == "12";
    assert NatToString(123) == NatToString(12) + "3" == "123";
  }

  lemma NoChunkOf1234()
    ensures !RepeatsChunk("1234", 1) && !RepeatsChunk("1234", 2)
  {
    assert !RepeatsChunk("1234", 1) by {
      assert "1234"[..1] == "1";
      RepeatIndex("1", 4, 1);
    }
    assert Repeat("12", 2) == "12" + "12";
  }

  // ---------------------------------------------------------------------------
  // The ranges of the input line
  // ---------------------------------------------------------------------------

  /** The ids of `low..hi` (inclusive) that are invalid, added up; the range
      is empty when `hi < low`. */
  ghost function RangeSum(low: int, hi: int): int
    decreases hi - low
  {
    if hi < low then 0
    else RangeSum(low, hi - 1) + (if Repeated(IntToString(hi)) then hi else 0)
  }

  /** A range with `low > high` contributes nothing. */
  lemma EmptyRange(low: int, high: int)
    requires low > high
    ensures RangeSum(low, high) == 0
  {
  }

  /** Cutting a range in two splits its sum. */
  lemma {:induction false} RangeSumSplit(low: int, mid: int, hi: int)
    requires low - 1 <= mid <= hi
    ensures RangeSum(low, hi) == RangeSum(low, mid) + RangeSum(mid + 1, hi)
    decreases hi - mid
  {
    if mid < hi {
      RangeSumSplit(low, mid, hi - 1);
    }
  }

  /** Invalid ids are never negative, so neither is the sum of a range of
      non-negative ids. */
  lemma {:induction false} RangeSumNonNegative(low: int, hi: int)
    requires 0 <= low
    ensures 0 <= RangeSum(low, hi)
    decreases hi - low
  {
    if hi >= low {
      RangeSumNonNegative(low, hi - 1);
    }
  }

  /** The loop `for n in range(low, high + 1)` of one range. */
  method SumRange(low: int, high: int) returns (rangeSum: int)
    ensures rangeSum == RangeSum(low, high)
  {
    rangeSum := 0;
    var n := low;
    while n < high + 1
      invariant low <= n <= (if low <= high + 1 then high + 1 else low)
      invariant rangeSum == RangeSum(low, n - 1)
      decreases high + 1 - n
    {
      var invalid := IsRepeatedPattern(n);
      if invalid {
        rangeSum := rangeSum + n;
      }
      n := n + 1;
    }
  }

  /** One comma-separated entry: blank and skipped, a range, or the
      `ValueError` raised by the unpacking or by `int`. */
  datatype Entry = Blank | Range(low: int, high: int) | Malformed

  function ParseEntry(r: string): Entry
  {
    if Strip(r) == [] then Blank
    else
      var parts := Split(r, "-");
      if |parts| != 2 then Malformed
      else
        match (ParseInt(parts[0]), ParseInt(parts[1]))
        case (Some(low), Some(high)) => Range(low, high)
        case _ => Malformed
  }

  /** The entries of the input, after the whole text is stripped. */
  function Entries(text: string): seq<string>
  {
    Split(Strip(text), ",")
  }

  function ParseAll(entries: seq<string>): (parsed: seq<Entry>)
    ensures |parsed| == |entries|
  {
    seq(|entries|, i requires 0 <= i < |entries| => ParseEntry(entries[i]))
  }

  /** The total over the first `k` entries, or `None` once one has raised. */
  ghost function Total(parsed: seq<Entry>, k: nat): Option<int>
    requires k <= |parsed|
  {
    if k == 0 then Some(0)
    else
      match Total(parsed, k - 1)
      case None => None
      case Some(t) =>
        match parsed[k - 1]
        case Blank => Some(t)
        case Malformed => None
        case Range(low, high) => Some(t + RangeSum(low, high))
  }

  /** The result of `sum_invalid_ids_from_file` for the file's text. */
  ghost function Answer(text: string): Option<int>
  {
    Total(ParseAll(Entries(text)), |Entries(text)|)
  }

  /** The run fails exactly when some entry is malformed. */
  lemma {:induction false} TotalFails(parsed: seq<Entry>, k: nat)
    requires k <= |parsed|
    ensures Total(parsed, k).None? <==> exists i :: 0 <= i < k && parsed[i].Malformed?
  {
    if k > 0 {
      TotalFails(parsed, k - 1);
    }
  }

  /** The total adds up the sums of the ranges, each range on its own, so an
      id in two overlapping ranges is counted twice. */
  lemma TotalTwice(low: int, high: int)
    ensures Total([Range(low, high), Range(low, high)], 2) == Some(2 * RangeSum(low, high))
  {
    var parsed := [Range(low, high), Range(low, high)];
    assert Total(parsed, 1) == Some(RangeSum(low, high));
  }

  lemma {:induction false} TotalStops(parsed: seq<Entry>, k: nat, m: nat)
    requires k <= m <= |parsed| && Total(parsed, k).None?
    ensures Total(parsed, m).None?
    decreases m - k
  {
    if k < m {
      TotalStops(parsed, k + 1, m);
    }
  }

  /** `parsed` holds the entries, each one parsed. */
  ghost predicate Parses(entries: seq<string>, parsed: seq<Entry>)
  {
    |parsed| == |entries|
    && forall i {:trigger ParseEntry(entries[i])} :: 0 <= i < |entries| ==> parsed[i] == ParseEntry(entries[i])
  }

  lemma ParseAllParses(entries: seq<string>)
    ensures Parses(entries, ParseAll(entries))
  {
  }

  /** `sum_invalid_ids_from_file`, on the text of the file. */
  method SumInvalidIds(text: string) returns (total: Option<int>)
    ensures total == Answer(text)
  {
    var inputLine := Strip(text);
    var ranges := Split(inputLine, ",");
    ParseAllParses(ranges);
    total := SumEntries(ranges, ParseAll(ranges));
  }

  /** The loop over the entries. */
  method SumEntries(ranges: seq<string>, ghost parsed: seq<Entry>) returns (total: Option<int>)
    requires Parses(ranges, parsed)
    ensures total == Total(parsed, |ranges|)
  {
    var sum := 0;
    for k := 0 to |ranges|
      invariant Total(parsed, k) == Some(sum)
    {
      var next := AddEntry(ranges, k, parsed, sum);
      if next.None? {
        TotalStops(parsed, k + 1, |ranges|);
        return None;
      }
      sum := next.value;
    }
    return Some(sum);
  }

  /** The body of the loop for entry `k`: the running sum after it, or
      `None` for the error it raises. */
  method AddEntry(ranges: seq<string>, k: nat, ghost parsed: seq<Entry>, sum: int) returns (next: Option<int>)
    requires k < |ranges| && Parses(ranges, parsed) && Total(parsed, k) == Some(sum)
    ensures next == Total(parsed, k + 1)
  {
    var entry := ReadEntry(ranges, k, parsed);
    match entry
    case Blank =>
      next := Some(sum);
    case Malformed =>
      next := None;
    case Range(low, high) =>
      var rangeSum := SumRange(low, high);
      next := Some(sum + rangeSum);
  }

  /** The reading part of the loop body for entry `k`: skip it when blank,
      split it at '-', convert both bounds. */
  method ReadEntry(ranges: seq<string>, k: nat, ghost parsed: seq<Entry>) returns (entry: Entry)
    requires k < |ranges| && Parses(ranges, parsed)
    ensures entry == parsed[k]
  {
    assert parsed[k] == ParseEntry(ranges[k]);
    var r := ranges[k];
    if Strip(r) == [] {
      return Blank;
    }
    var parts := Split(r, "-");
    if |parts| != 2 {
      return Malformed;
    }
    var low := ParseInt(parts[0]);
    var high := ParseInt(parts[1]);
    if low.None? || high.None? {
      return Malformed;
    }
    return Range(low.value, high.value);
  }
}
