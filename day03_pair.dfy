/** Day 3, part 1: in each line of a battery bank, the largest two-digit
    number `10 * a + b` made of a digit `a` followed (not necessarily
    immediately) by a digit `b`; other characters are ignored. The total adds
    up the best number of each line that has one. */
module BestPair {
  import opened Common

  function Max(a: int, b: int): int
  {
    if a < b then b else a
  }

  /** Positions `i < j` both hold digits. */
  predicate IsPair(line: string, i: int, j: int)
  {
    0 <= i < j < |line| && IsDigit(line[i]) && IsDigit(line[j])
  }

  function PairValue(line: string, i: int, j: int): int
    requires IsPair(line, i, j)
  {
    10 * DigitValue(line[i]) + DigitValue(line[j])
  }

  /** The best pair whose first digit is at `i` and whose second is before
      `j`, or -1 when there is none. */
  function RowBest(line: string, i: int, j: int): int
    requires 0 <= i < |line| && IsDigit(line[i]) && i < j <= |line|
    decreases j
  {
    if j == i + 1 then -1
    else Max(RowBest(line, i, j - 1), if IsDigit(line[j - 1]) then PairValue(line, i, j - 1) else -1)
  }

  /** The best pair whose first digit is before `i`, or -1. */
  function BestBefore(line: string, i: int): int
    requires 0 <= i <= |line|
  {
    if i == 0 then -1
    else Max(BestBefore(line, i - 1), if IsDigit(line[i - 1]) then RowBest(line, i - 1, |line|) else -1)
  }

  /** The value `main` finds for one line: -1 when it holds fewer than two
      digits. */
  function Joltage(line: string): int
  {
    BestBefore(line, |line|)
  }

  // ---------------------------------------------------------------------------
  // Joltage is the largest pair
  // ---------------------------------------------------------------------------

  lemma {:induction false} RowBestAbove(line: string, i: int, j: int, q: int)
    requires 0 <= i < |line| && IsDigit(line[i]) && i < j <= |line|
    requires IsPair(line, i, q) && q < j
    ensures PairValue(line, i, q) <= RowBest(line, i, j)
    decreases j
  {
    if q < j - 1 {
      RowBestAbove(line, i, j - 1, q);
    }
  }

  lemma {:induction false} BestBeforeAbove(line: string, i: int, p: int, q: int)
    requires 0 <= i <= |line| && IsPair(line, p, q) && p < i
    ensures PairValue(line, p, q) <= BestBefore(line, i)
  {
    if p < i - 1 {
      BestBeforeAbove(line, i - 1, p, q);
    } else {
      RowBestAbove(line, p, |line|, q);
    }
  }

  lemma {:induction false} RowBestFound(line: string, i: int, j: int)
    requires 0 <= i < |line| && IsDigit(line[i]) && i < j <= |line|
    ensures -1 <= RowBest(line, i, j) <= 99
    ensures RowBest(line, i, j) >= 0 ==>
              exists q :: i < q < j && IsPair(line, i, q) && PairValue(line, i, q) == RowBest(line, i, j)
    decreases j
  {
    if j > i + 1 {
      RowBestFound(line, i, j - 1);
    }
  }

  lemma {:induction false} BestBeforeFound(line: string, i: int)
    requires 0 <= i <= |line|
    ensures -1 <= BestBefore(line, i) <= 99
    ensures BestBefore(line, i) >= 0 ==>
              exists p, q :: p < i && IsPair(line, p, q) && PairValue(line, p, q) == BestBefore(line, i)
  {
    if i > 0 {
      BestBeforeFound(line, i - 1);
      if IsDigit(line[i - 1]) {
        RowBestFound(line, i - 1, |line|);
      }
    }
  }

  /** The value of a line is the largest `10 * a + b` over its digit pairs,
      it lies in 0..99 when the line has a pair, and it is -1 exactly when the
      line has fewer than two digits. */
  lemma JoltageIsLargestPair(line: string)
    ensures forall i, j :: IsPair(line, i, j) ==> PairValue(line, i, j) <= Joltage(line)
    ensures Joltage(line) >= 0 ==> exists i, j :: IsPair(line, i, j) && PairValue(line, i, j) == Joltage(line)
    ensures -1 <= Joltage(line) <= 99
    ensures Joltage(line) == -1 <==> forall i, j :: !IsPair(line, i, j)
  {
    forall i, j | IsPair(line, i, j)
      ensures PairValue(line, i, j) <= Joltage(line)
    {
      BestBeforeAbove(line, |line|, i, j);
    }
    BestBeforeFound(line, |line|);
  }

  // ---------------------------------------------------------------------------
  // The loops of `main`
  // ---------------------------------------------------------------------------

  /** The nested loops over one line. */
  method MaxJoltage(line: string) returns (maxJoltage: int)
    ensures maxJoltage == Joltage(line)
  {
    maxJoltage := -1;
    var len := |line|;
    for i := 0 to len
      invariant maxJoltage == BestBefore(line, i)
    {
      if !IsDigit(line[i]) {
        continue;
      }
      var a := DigitValue(line[i]);
      for j := i + 1 to len
        invariant maxJoltage == Max(BestBefore(line, i), RowBest(line, i, j))
      {
        if !IsDigit(line[j]) {
          continue;
        }
        var b := DigitValue(line[j]);
        var val := a * 10 + b;
        if val > maxJoltage {
          maxJoltage := val;
        }
      }
    }
  }

  /** What a line adds to the total: its value, or nothing when it has no
      pair. */
  function Contribution(line: string): int
  {
    if Joltage(line) >= 0 then Joltage(line) else 0
  }

  /** The total over the first `k` lines. */
  function Total(lines: seq<string>, k: nat): int
    requires k <= |lines|
  {
    if k == 0 then 0 else Total(lines, k - 1) + Contribution(lines[k - 1])
  }

  /** Each line adds between 0 and 99, so the total is at most 99 per line. */
  lemma {:induction false} TotalBounds(lines: seq<string>, k: nat)
    requires k <= |lines|
    ensures 0 <= Total(lines, k) <= 99 * k
  {
    if k > 0 {
      TotalBounds(lines, k - 1);
      JoltageIsLargestPair(lines[k - 1]);
    }
  }

  /** The line loop of `main`, over the lines `fgets` yields. */
  method TotalJoltage(lines: seq<string>) returns (total: int)
    ensures total == Total(lines, |lines|)
  {
    total := 0;
    for k := 0 to |lines|
      invariant total == Total(lines, k)
    {
      var maxJoltage := MaxJoltage(lines[k]);
      if maxJoltage >= 0 {
        total := total + maxJoltage;
      }
    }
  }
}
