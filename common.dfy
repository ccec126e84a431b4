/** Helpers shared by the puzzle solvers: optional values, sums and products of
    integer sequences, decimal digits, and the pieces of Python's string handling
    the solvers lean on (`str.strip`, `str.split`, `int(...)`). */
module Common {

  datatype Option<T> = None | Some(value: T)

  // ---------------------------------------------------------------------------
  // Sums and products, accumulated from the left as the source's loops do
  // ---------------------------------------------------------------------------

  function Sum(s: seq<int>): int
  {
    if s == [] then 0 else Sum(s[..|s| - 1]) + s[|s| - 1]
  }

  function Product(s: seq<int>): int
  {
    if s == [] then 1 else Product(s[..|s| - 1]) * s[|s| - 1]
  }

  /** Summing a concatenation is summing its parts. */
  lemma {:induction false} SumConcat(a: seq<int>, b: seq<int>)
    ensures Sum(a + b) == Sum(a) + Sum(b)
    decreases |b|
  {
    if b == [] {
      assert a + b == a;
    } else {
      assert (a + b)[..|a + b| - 1] == a + b[..|b| - 1];
      SumConcat(a, b[..|b| - 1]);
    }
  }

  /** A sum of non-negative terms is not negative. */
  lemma {:induction false} SumNonNegative(s: seq<int>)
    requires forall k :: 0 <= k < |s| ==> s[k] >= 0
    ensures Sum(s) >= 0
    decreases |s|
  {
    if s != [] {
      SumNonNegative(s[..|s| - 1]);
    }
  }

  /** A sum of non-negative terms is bounded by the count times the largest term. */
  lemma {:induction false} SumBounds(s: seq<int>, hi: int)
    requires forall k :: 0 <= k < |s| ==> 0 <= s[k] <= hi
    ensures 0 <= Sum(s) <= |s| * hi
    decreases |s|
  {
    if s != [] {
      SumBounds(s[..|s| - 1], hi);
    }
  }

  /** Quotient and remainder are unique: `i == q * c + r` with `0 <= r < c`
      pins down `i / c` and `i % c`. */
  lemma ModUnique(i: int, c: int, q: int, r: int)
    requires c > 0 && 0 <= r < c && i == q * c + r
    ensures i % c == r && i / c == q
  {
    var d := i / c - q;
    assert d * c == r - i % c;
    if d >= 1 {
      MulAtLeast(d, c);
    } else if d <= -1 {
      MulAtLeast(-d, c);
    }
  }

  lemma MulAtLeast(x: int, c: int)
    requires x >= 1 && c > 0
    ensures x * c >= c
  {
  }

  // ---------------------------------------------------------------------------
  // Decimal digits
  // ---------------------------------------------------------------------------

  predicate IsDigit(c: char)
  {
    '0' <= c <= '9'
  }

  function DigitValue(c: char): (d: nat)
    requires IsDigit(c)
    ensures d < 10
  {
    (c as int) - ('0' as int)
  }

  function DigitChar(d: nat): (c: char)
    requires d < 10
    ensures IsDigit(c) && DigitValue(c) == d
  {
    (('0' as int) + d) as char
  }

  predicate AllDigits(s: string)
  {
    forall k :: 0 <= k < |s| ==> IsDigit(s[k])
  }

  /** The value of a string of decimal digits, most significant first. */
  function DigitsValue(s: string): nat
    requires AllDigits(s)
  {
    if s == [] then 0 else 10 * DigitsValue(s[..|s| - 1]) + DigitValue(s[|s| - 1])
  }

  /** The digits of `s`, in order, with every other character dropped. */
  function DigitsOf(s: string): (r: string)
    ensures AllDigits(r) && |r| <= |s|
  {
    if s == [] then []
    else if IsDigit(s[|s| - 1]) then DigitsOf(s[..|s| - 1]) + [s[|s| - 1]]
    else DigitsOf(s[..|s| - 1])
  }

  /** No leading zero, except for "0" itself: the shape `str(n)` produces. */
  predicate Canonical(s: string)
  {
    |s| >= 1 && AllDigits(s) && (|s| > 1 ==> s[0] != '0')
  }

  /** Python's `str(n)` for a non-negative integer. */
  function NatToString(n: nat): (s: string)
    ensures Canonical(s)
  {
    if n < 10 then [DigitChar(n)] else NatToString(n / 10) + [DigitChar(n % 10)]
  }

  lemma {:induction false} NatToStringRoundTrip(n: nat)
    ensures DigitsValue(NatToString(n)) == n
  {
    if n >= 10 {
      var s := NatToString(n);
      assert s[..|s| - 1] == NatToString(n / 10);
      NatToStringRoundTrip(n / 10);
    }
  }

  lemma {:induction false} LeadingDigitPositive(s: string)
    requires AllDigits(s) && |s| >= 1 && s[0] != '0'
    ensures DigitsValue(s) > 0
    decreases |s|
  {
    if |s| > 1 {
      LeadingDigitPositive(s[..|s| - 1]);
    }
  }

  /** Reading a canonical digit string and printing it back gives the same string. */
  lemma {:induction false} StringToNatRoundTrip(s: string)
    requires Canonical(s)
    ensures NatToString(DigitsValue(s)) == s
    decreases |s|
  {
    if |s| > 1 {
      var t := s[..|s| - 1];
      LeadingDigitPositive(t);
      StringToNatRoundTrip(t);
      assert s == t + [s[|s| - 1]];
    }
  }

  // ---------------------------------------------------------------------------
  // Python whitespace, str.strip(), str.split(sep), str.split()
  // ---------------------------------------------------------------------------

  /** The characters for which Python's `str.isspace()` holds. */
  predicate IsSpace(c: char)
  {
    var k := c as int;
    k == 32 || 9 <= k <= 13 || 28 <= k <= 31 || k == 0x85 || k == 0xA0 || k == 0x1680
    || 0x2000 <= k <= 0x200A || k == 0x2028 || k == 0x2029 || k == 0x202F || k == 0x205F
    || k == 0x3000
  }

  function TrimStart(s: string): (r: string)
    ensures |r| <= |s| && r == s[|s| - |r|..]
    ensures r != [] ==> !IsSpace(r[0])
  {
    if s != [] && IsSpace(s[0]) then TrimStart(s[1..]) else s
  }

  function TrimEnd(s: string): (r: string)
    ensures |r| <= |s| && r == s[..|r|]
    ensures r != [] ==> !IsSpace(r[|r| - 1])
  {
    if s != [] && IsSpace(s[|s| - 1]) then TrimEnd(s[..|s| - 1]) else s
  }

  /** Python's `s.strip()`. */
  function Strip(s: string): (r: string)
    ensures r != [] ==> !IsSpace(r[0]) && !IsSpace(r[|r| - 1])
    ensures |r| <= |s|
  {
    TrimEnd(TrimStart(s))
  }

  predicate NoSpace(s: string)
  {
    forall k :: 0 <= k < |s| ==> !IsSpace(s[k])
  }

  /** Stripping a string without whitespace leaves it as it is. */
  lemma StripNoSpace(s: string)
    requires NoSpace(s)
    ensures Strip(s) == s
  {
  }

  /** Python's `s.split(sep)` for a non-empty separator: cut at every occurrence,
      scanning left to right and never overlapping two occurrences. */
  function Split(s: string, sep: string): (parts: seq<string>)
    requires |sep| > 0
    ensures |parts| >= 1
    decreases |s|
  {
    if |s| < |sep| then [s]
    else if s[..|sep|] == sep then [""] + Split(s[|sep|..], sep)
    else
      var rest := Split(s[1..], sep);
      [[s[0]] + rest[0]] + rest[1..]
  }

  /** Python's `sep.join(parts)`. */
  function Join(parts: seq<string>, sep: string): string
  {
    if parts == [] then ""
    else if |parts| == 1 then parts[0]
    else parts[0] + sep + Join(parts[1..], sep)
  }

  /** Splitting and joining back on the same separator gives the original string. */
  lemma {:induction false} SplitJoin(s: string, sep: string)
    requires |sep| > 0
    ensures Join(Split(s, sep), sep) == s
    decreases |s|
  {
    if |s| < |sep| {
    } else if s[..|sep|] == sep {
      SplitJoin(s[|sep|..], sep);
      var rest := Split(s[|sep|..], sep);
      assert Split(s, sep) == [""] + rest;
      assert s == "" + sep + s[|sep|..];
    } else {
      SplitJoin(s[1..], sep);
      var rest := Split(s[1..], sep);
      var parts := [[s[0]] + rest[0]] + rest[1..];
      assert parts[1..] == rest[1..];
      if |rest| == 1 {
        assert Join(parts, sep) == [s[0]] + rest[0];
      } else {
        assert Join(rest, sep) == rest[0] + sep + Join(rest[1..], sep);
      }
      assert s == [s[0]] + s[1..];
    }
  }

  /** `sep` begins at position `k` of `s`. */
  predicate OccursAt(s: string, sep: string, k: int)
  {
    0 <= k && k + |sep| <= |s| && s[k..k + |sep|] == sep
  }

  /** A string in which `sep` never occurs is not cut. */
  lemma {:induction false} SplitWhole(s: string, sep: string)
    requires |sep| > 0 && forall k :: !OccursAt(s, sep, k)
    ensures Split(s, sep) == [s]
    decreases |s|
  {
    if |s| >= |sep| {
      assert !OccursAt(s, sep, 0);
      forall k ensures !OccursAt(s[1..], sep, k) {
        if 0 <= k && k + |sep| <= |s| - 1 {
          assert s[1..][k..k + |sep|] == s[k + 1..k + 1 + |sep|];
          assert !OccursAt(s, sep, k + 1);
        }
      }
      SplitWhole(s[1..], sep);
      assert [s[0]] + s[1..] == s;
    }
  }

  /** A string without the separator's first character is cut nowhere. */
  lemma SplitNoChar(s: string, sep: string)
    requires |sep| > 0 && forall k :: 0 <= k < |s| ==> s[k] != sep[0]
    ensures Split(s, sep) == [s]
  {
    forall k ensures !OccursAt(s, sep, k) {
      if 0 <= k && k + |sep| <= |s| {
        assert s[k..k + |sep|][0] == s[k];
      }
    }
    SplitWhole(s, sep);
  }

  /** A leading piece without the separator's first character is the first
      part, and the rest is split on its own. */
  lemma {:induction false} SplitPrefix(a: string, sep: string, b: string)
    requires |sep| > 0 && forall k :: 0 <= k < |a| ==> a[k] != sep[0]
    ensures Split(a + sep + b, sep) == [a] + Split(b, sep)
    decreases |a|
  {
    var s := a + sep + b;
    if a == [] {
      assert s == sep + b;
      assert s[..|sep|] == sep && s[|sep|..] == b;
    } else {
      assert s[..|sep|][0] == a[0];
      assert s[1..] == a[1..] + sep + b;
      SplitPrefix(a[1..], sep, b);
      assert [a[0]] + a[1..] == a;
    }
  }

  /** Joining pieces free of the separator's first character and splitting
      them again gives the pieces back. */
  lemma {:induction false} JoinSplit(parts: seq<string>, sep: string)
    requires |sep| > 0 && |parts| > 0
    requires forall i, k :: 0 <= i < |parts| && 0 <= k < |parts[i]| ==> parts[i][k] != sep[0]
    ensures Split(Join(parts, sep), sep) == parts
    decreases |parts|
  {
    if |parts| == 1 {
      SplitNoChar(parts[0], sep);
    } else {
      JoinSplit(parts[1..], sep);
      SplitPrefix(parts[0], sep, Join(parts[1..], sep));
      assert parts == [parts[0]] + parts[1..];
    }
  }

  /** Length of the leading run of non-whitespace characters. */
  function WordLength(s: string): (n: nat)
    ensures n <= |s| && NoSpace(s[..n])
    ensures n < |s| ==> IsSpace(s[n])
  {
    if s == [] || IsSpace(s[0]) then 0
    else
      var n := 1 + WordLength(s[1..]);
      assert s[..n] == [s[0]] + s[1..][..n - 1];
      n
  }

  /** Python's `s.split()`: the maximal runs of non-whitespace characters. */
  function Words(s: string): seq<string>
    decreases |s|
  {
    var t := TrimStart(s);
    if t == [] then []
    else
      var n := WordLength(t);
      [t[..n]] + Words(t[n..])
  }

  /** Every word is non-empty and free of whitespace. */
  lemma {:induction false} WordsFacts(s: string)
    ensures forall k :: 0 <= k < |Words(s)| ==> |Words(s)[k]| > 0 && NoSpace(Words(s)[k])
    decreases |s|
  {
    var t := TrimStart(s);
    if t != [] {
      var n := WordLength(t);
      WordsFacts(t[n..]);
    }
  }

  // ---------------------------------------------------------------------------
  // Python's int(...) on a string
  // ---------------------------------------------------------------------------

  /** Python's `int(s)` for base 10: surrounding whitespace, an optional sign and
      at least one decimal digit; `None` stands for the ValueError it raises. */
  function ParseInt(s: string): (r: Option<int>)
    ensures r.Some? ==> Strip(s) != []
  {
    var t := Strip(s);
    if |t| > 1 && (t[0] == '+' || t[0] == '-') && AllDigits(t[1..]) then
      var magnitude: int := DigitsValue(t[1..]);
      var v: int := if t[0] == '-' then -magnitude else magnitude;
      Some(v)
    else if |t| > 0 && AllDigits(t) then Some(DigitsValue(t))
    else None
  }

  /** `int(str(n)) == n`. */
  lemma ParseIntRoundTrip(n: nat)
    ensures ParseInt(NatToString(n)) == Some(n)
  {
    var s := NatToString(n);
    assert NoSpace(s) by {
      forall k | 0 <= k < |s| ensures !IsSpace(s[k]) {
        assert IsDigit(s[k]);
      }
    }
    StripNoSpace(s);
    assert !(s[0] == '+' || s[0] == '-') by { assert IsDigit(s[0]); }
    NatToStringRoundTrip(n);
  }

  /** `int` never succeeds on a string that is empty after stripping. */
  lemma ParseIntBlank(s: string)
    requires Strip(s) == []
    ensures ParseInt(s) == None
  {
  }

  /** `[int(x) for x in pieces]`, or `None` for the `ValueError` the first
      piece that is not an integer raises (an empty piece, as in "1,,2" split
      at the commas, is one). */
  function ParseInts(pieces: seq<string>): (r: Option<seq<int>>)
    ensures r.Some? ==> |r.value| == |pieces|
  {
    AllSome(Readings(pieces))
  }

  /** `int` applied to every piece. */
  function Readings(pieces: seq<string>): (os: seq<Option<int>>)
    ensures |os| == |pieces|
  {
    seq(|pieces|, i requires 0 <= i < |pieces| => ParseInt(pieces[i]))
  }

  /** The values of a list of readings, or `None` once one of them failed. */
  function AllSome(os: seq<Option<int>>): (r: Option<seq<int>>)
    ensures r.Some? ==> |r.value| == |os|
  {
    if os == [] then Some([])
    else
      match (AllSome(os[..|os| - 1]), os[|os| - 1])
      case (Some(xs), Some(x)) => Some(xs + [x])
      case _ => None
  }

  lemma {:induction false} AllSomeValue(os: seq<Option<int>>, k: int)
    requires AllSome(os).Some? && 0 <= k < |os|
    ensures os[k] == Some(AllSome(os).value[k])
  {
    var init := os[..|os| - 1];
    if k < |os| - 1 {
      AllSomeValue(init, k);
      assert init[k] == os[k];
    }
  }

  lemma {:induction false} AllSomeAll(os: seq<Option<int>>, values: seq<int>)
    requires |os| == |values| && forall i :: 0 <= i < |os| ==> os[i] == Some(values[i])
    ensures AllSome(os) == Some(values)
  {
    if os != [] {
      var m := |os| - 1;
      AllSomeAll(os[..m], values[..m]);
      assert values[..m] + [values[m]] == values;
    }
  }

  lemma {:induction false} AllSomeFails(os: seq<Option<int>>, k: int)
    requires 0 <= k < |os| && os[k].None?
    ensures AllSome(os).None?
  {
    var init := os[..|os| - 1];
    if k < |os| - 1 {
      assert init[k] == os[k];
      AllSomeFails(init, k);
    }
  }

  /** Every number is the `int` of its piece. */
  lemma ParseIntsValue(pieces: seq<string>, k: int)
    requires ParseInts(pieces).Some? && 0 <= k < |pieces|
    ensures ParseInt(pieces[k]) == Some(ParseInts(pieces).value[k])
  {
    AllSomeValue(Readings(pieces), k);
  }

  /** Pieces that are each the `int` of a number give those numbers. */
  lemma ParseIntsAll(pieces: seq<string>, values: seq<int>)
    requires |pieces| == |values|
    requires forall i :: 0 <= i < |pieces| ==> ParseInt(pieces[i]) == Some(values[i])
    ensures ParseInts(pieces) == Some(values)
  {
    AllSomeAll(Readings(pieces), values);
  }

  /** A piece that is not an integer makes the whole list fail. */
  lemma ParseIntsFails(pieces: seq<string>, k: int)
    requires 0 <= k < |pieces| && ParseInt(pieces[k]).None?
    ensures ParseInts(pieces).None?
  {
    AllSomeFails(Readings(pieces), k);
  }

  /** `[line.strip() for line in f]`: every line stripped. */
  function StripLines(lines: seq<string>): (stripped: seq<string>)
    ensures |stripped| == |lines|
  {
    seq(|lines|, k requires 0 <= k < |lines| => Strip(lines[k]))
  }

  /** A list read so far, extended by one more item; a failure anywhere fails. */
  function Append<T>(items: Option<seq<T>>, item: Option<T>): Option<seq<T>>
  {
    match (items, item)
    case (Some(xs), Some(x)) => Some(xs + [x])
    case _ => None
  }

  /** Every line is its own stripped form. */
  predicate Unpadded(lines: seq<string>)
  {
    forall line | line in lines :: Strip(line) == line
  }

  lemma StripUnpadded(lines: seq<string>)
    requires Unpadded(lines)
    ensures StripLines(lines) == lines
  {
    forall k | 0 <= k < |lines|
      ensures StripLines(lines)[k] == lines[k]
    {
      assert lines[k] in lines;
    }
  }

  /** The decimal texts of some naturals. */
  function Numerals(ns: seq<nat>): (texts: seq<string>)
    ensures |texts| == |ns|
  {
    seq(|ns|, i requires 0 <= i < |ns| => NatToString(ns[i]))
  }

  /** Digit strings joined on a one-character separator hold only digits and
      that separator. */
  lemma {:induction false} JoinDigits(parts: seq<string>, sep: char)
    requires forall i :: 0 <= i < |parts| ==> AllDigits(parts[i])
    ensures forall k :: 0 <= k < |Join(parts, [sep])| ==>
              IsDigit(Join(parts, [sep])[k]) || Join(parts, [sep])[k] == sep
    decreases |parts|
  {
    if |parts| > 1 {
      JoinDigits(parts[1..], sep);
      assert Join(parts, [sep]) == parts[0] + [sep] + Join(parts[1..], [sep]);
    }
  }

  /** Naturals written with a non-digit separator between them, cut at that
      separator and read by `int`, come back; at least one is needed, since
      the empty text is one empty piece that `int` refuses. */
  lemma NumeralsRoundTrip(ns: seq<nat>, sep: char)
    requires |ns| > 0 && !IsDigit(sep)
    ensures ParseInts(Split(Join(Numerals(ns), [sep]), [sep])) == Some(ns)
  {
    var texts := Numerals(ns);
    forall i, k | 0 <= i < |texts| && 0 <= k < |texts[i]| ensures texts[i][k] != sep {
      assert IsDigit(texts[i][k]);
    }
    JoinSplit(texts, [sep]);
    forall i | 0 <= i < |texts| ensures ParseInt(texts[i]) == Some(ns[i]) {
      ParseIntRoundTrip(ns[i]);
    }
    ParseIntsAll(texts, ns);
  }

  // ---------------------------------------------------------------------------
  // Python dicts: key-value pairs in insertion order
  // ---------------------------------------------------------------------------

  function Keys<K, V>(d: seq<(K, V)>): set<K>
  {
    if d == [] then {} else {d[0].0} + Keys(d[1..])
  }

  /** Python's `d.get(k)`: the value stored under `k`, if any. */
  function Get<K(==), V>(d: seq<(K, V)>, k: K): (r: Option<V>)
    ensures r.Some? <==> k in Keys(d)
  {
    if d == [] then None else if d[0].0 == k then Some(d[0].1) else Get(d[1..], k)
  }

  /** Python's `d.get(k, default)`. */
  function GetOr<K(==), V>(d: seq<(K, V)>, k: K, default: V): V
  {
    match Get(d, k)
    case Some(v) => v
    case None => default
  }

  /** Python's `d[k] = v`: the value is replaced where `k` already sits, otherwise
      the pair goes at the end of the insertion order. */
  function Put<K(==), V>(d: seq<(K, V)>, k: K, v: V): seq<(K, V)>
  {
    if d == [] then [(k, v)]
    else if d[0].0 == k then [(k, v)] + d[1..]
    else [d[0]] + Put(d[1..], k, v)
  }

  /** After `d[k] = v`, `k` holds `v`, every other key holds what it held, the
      keys are the old ones plus `k`, and the insertion order is kept: an existing
      key stays where it was, a new one goes last. */
  lemma PutFacts<K(!new), V>(d: seq<(K, V)>, k: K, v: V)
    ensures Keys(Put(d, k, v)) == Keys(d) + {k}
    ensures Get(Put(d, k, v), k) == Some(v)
    ensures forall k' :: k' != k ==> Get(Put(d, k, v), k') == Get(d, k')
    ensures k in Keys(d) ==> |Put(d, k, v)| == |d| && forall t :: 0 <= t < |d| ==> Put(d, k, v)[t].0 == d[t].0
    ensures k !in Keys(d) ==> Put(d, k, v) == d + [(k, v)]
  {
    PutKeys(d, k, v);
    PutGet(d, k, v);
  }

  lemma {:induction false} PutKeys<K(!new), V>(d: seq<(K, V)>, k: K, v: V)
    ensures Keys(Put(d, k, v)) == Keys(d) + {k}
    ensures k in Keys(d) ==> |Put(d, k, v)| == |d| && forall t :: 0 <= t < |d| ==> Put(d, k, v)[t].0 == d[t].0
    ensures k !in Keys(d) ==> Put(d, k, v) == d + [(k, v)]
  {
    if d != [] && d[0].0 != k {
      PutKeys(d[1..], k, v);
      assert d == [d[0]] + d[1..];
    }
  }

  lemma {:induction false} PutGet<K(!new), V>(d: seq<(K, V)>, k: K, v: V)
    ensures Get(Put(d, k, v), k) == Some(v)
    ensures forall k' :: k' != k ==> Get(Put(d, k, v), k') == Get(d, k')
  {
    if d != [] && d[0].0 != k {
      PutGet(d[1..], k, v);
    }
  }


  lemma GetOrPut<K(!new), V>(d: seq<(K, V)>, k: K, v: V, k': K, default: V)
    ensures GetOr(Put(d, k, v), k', default) == if k' == k then v else GetOr(d, k', default)
  {
    PutFacts(d, k, v);
  }

  /** Every key occurs once. */
  ghost predicate DistinctKeys<K, V>(d: seq<(K, V)>)
  {
    forall a, b :: 0 <= a < b < |d| ==> d[a].0 != d[b].0
  }

  lemma {:induction false} PutDistinct<K(!new), V>(d: seq<(K, V)>, k: K, v: V)
    requires DistinctKeys(d)
    ensures DistinctKeys(Put(d, k, v))
  {
    var r := Put(d, k, v);
    PutFacts(d, k, v);
    if k !in Keys(d) {
      forall t | 0 <= t < |d|
        ensures d[t].0 != k
      {
        KeysContain(d, t);
      }
    }
  }

  lemma {:induction false} KeysContain<K, V>(d: seq<(K, V)>, t: int)
    requires 0 <= t < |d|
    ensures d[t].0 in Keys(d)
  {
    if t > 0 {
      KeysContain(d[1..], t - 1);
    }
  }

  /** Python's `d.values()`, in insertion order. */
  function Values<K, V>(d: seq<(K, V)>): seq<V>
  {
    if d == [] then [] else [d[0].1] + Values(d[1..])
  }

  /** The values are the second components of the pairs, position by position. */
  lemma {:induction false} ValuesFacts<K, V>(d: seq<(K, V)>)
    ensures |Values(d)| == |d| && forall t :: 0 <= t < |d| ==> Values(d)[t] == d[t].1
  {
    if d != [] {
      ValuesFacts(d[1..]);
    }
  }

  lemma SumCons(x: int, s: seq<int>)
    ensures Sum([x] + s) == x + Sum(s)
  {
    SumConcat([x], s);
    assert [x][..0] == [];
  }

  /** Storing `v` under `k` changes the total of the values by `v` minus what
      `k` held before. */
  lemma {:induction false} PutSum<K(!new)>(d: seq<(K, int)>, k: K, v: int)
    ensures Sum(Values(Put(d, k, v))) == Sum(Values(d)) + v - GetOr(d, k, 0)
  {
    if d == [] {
      assert Values([(k, v)]) == [v];
      assert Sum([v]) == Sum([]) + v;
    } else if d[0].0 == k {
      assert Values([(k, v)] + d[1..]) == [v] + Values(d[1..]);
      SumCons(v, Values(d[1..]));
      SumCons(d[0].1, Values(d[1..]));
    } else {
      PutSum(d[1..], k, v);
      assert Values([d[0]] + Put(d[1..], k, v)) == [d[0].1] + Values(Put(d[1..], k, v));
      SumCons(d[0].1, Values(Put(d[1..], k, v)));
      SumCons(d[0].1, Values(d[1..]));
    }
  }

  /** Counting one more occurrence of `k` adds one to the total. */
  lemma PutIncrementSum<K(!new)>(d: seq<(K, int)>, k: K)
    ensures Sum(Values(Put(d, k, GetOr(d, k, 0) + 1))) == Sum(Values(d)) + 1
  {
    PutSum(d, k, GetOr(d, k, 0) + 1);
  }
}
