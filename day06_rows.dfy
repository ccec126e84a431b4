/** Day 6, part 1: each row of a block above the operator row holds one
    number, read left to right; the block's answer is their sum for '+' and
    their product otherwise. */
module RowProblems {
  import opened Common
  import opened ColumnBlocks

  /** `"".join(row[c] for c in cols)`: the row's characters inside the block. */
  function Segment(row: string, cols: seq<int>): string
    requires Fits(row, cols)
  {
    seq(|cols|, i requires 0 <= i < |cols| => row[cols[i]])
  }

  /** The digits of the row inside the block, in order. */
  function RowDigits(row: string, cols: seq<int>): (digits: string)
    requires Fits(row, cols)
    ensures AllDigits(digits)
  {
    DigitsOf(Segment(row, cols))
  }

  /** What a row adds to the list: the value of its digits, or nothing when it
      has none. */
  function Entry(row: string, cols: seq<int>): seq<nat>
    requires Fits(row, cols)
  {
    var digits := RowDigits(row, cols);
    if digits == [] then [] else [DigitsValue(digits)]
  }

  /** The numbers of the first `n` rows, top to bottom. */
  function RowNumbers(grid: seq<string>, cols: seq<int>, n: nat): seq<nat>
    requires n <= |grid| && FitsAll(grid, cols)
  {
    if n == 0 then [] else RowNumbers(grid, cols, n - 1) + Entry(grid[n - 1], cols)
  }

  /** At most one number per row. */
  lemma {:induction false} RowNumbersCount(grid: seq<string>, cols: seq<int>, n: nat)
    requires n <= |grid| && FitsAll(grid, cols)
    ensures |RowNumbers(grid, cols, n)| <= n
  {
    if n > 0 {
      RowNumbersCount(grid, cols, n - 1);
    }
  }

  /** When every row has a digit in the block, number `r` is row `r`'s. */
  lemma {:induction false} RowNumbersDense(grid: seq<string>, cols: seq<int>, n: nat)
    requires n <= |grid| && FitsAll(grid, cols)
    requires forall r :: 0 <= r < n ==> RowDigits(grid[r], cols) != []
    ensures |RowNumbers(grid, cols, n)| == n
    ensures forall r :: 0 <= r < n ==> RowNumbers(grid, cols, n)[r] == DigitsValue(RowDigits(grid[r], cols))
  {
    if n > 0 {
      RowNumbersDense(grid, cols, n - 1);
      var prev := RowNumbers(grid, cols, n - 1);
      var all := RowNumbers(grid, cols, n);
      assert all == prev + Entry(grid[n - 1], cols);
      forall r | 0 <= r < n
        ensures all[r] == DigitsValue(RowDigits(grid[r], cols))
      {
        if r < n - 1 {
          assert all[r] == prev[r];
        }
      }
    }
  }

  /** A row holding `str(v)` between spaces, or other non-digits, gives `v`. */
  lemma RowReadBack(row: string, cols: seq<int>, pre: string, v: nat, post: string)
    requires Fits(row, cols)
    requires Segment(row, cols) == pre + NatToString(v) + post
    requires forall i :: 0 <= i < |pre| ==> !IsDigit(pre[i])
    requires forall i :: 0 <= i < |post| ==> !IsDigit(post[i])
    ensures Entry(row, cols) == [v]
  {
    ReadBack(Segment(row, cols), pre, v, post);
  }

  /** `extract_problem`: one number per row above the last, then the operator. */
  method ExtractProblem(grid: seq<string>, cols: seq<int>) returns (numbers: seq<nat>, op: Option<char>)
    requires |grid| > 0 && FitsAll(grid, cols)
    ensures numbers == RowNumbers(grid, cols, |grid| - 1)
    ensures op == Operator(grid[|grid| - 1], cols)
  {
    var height := |grid|;
    numbers := [];
    for r := 0 to height - 1
      invariant numbers == RowNumbers(grid, cols, r)
    {
      var digits := RowDigits(grid[r], cols);
      if digits != [] {
        numbers := numbers + [DigitsValue(digits)];
      }
    }
    op := FindOperator(grid[height - 1], cols);
  }

  /** The answer of one block: a sum for '+', a product for anything else,
      a missing operator included. */
  function Solve(numbers: seq<nat>, op: Option<char>): int
  {
    if op == Some('+') then Sum(numbers) else Product(numbers)
  }

  lemma {:induction false} ProductNonNegative(numbers: seq<nat>)
    ensures Product(numbers) >= 0
  {
    if numbers != [] {
      ProductNonNegative(numbers[..|numbers| - 1]);
    }
  }

  /** No block's answer is negative; an empty list gives 0 for '+' and 1
      otherwise, and a single number is its own answer. */
  lemma SolveFacts(numbers: seq<nat>, op: Option<char>)
    ensures Solve(numbers, op) >= 0
    ensures numbers == [] ==> Solve(numbers, op) == if op == Some('+') then 0 else 1
    ensures |numbers| == 1 ==> Solve(numbers, op) == numbers[0]
  {
    SumNonNegative(numbers);
    ProductNonNegative(numbers);
  }

  /** `solve_problem`: `sum` for '+', the product loop otherwise. */
  method SolveProblem(numbers: seq<nat>, op: Option<char>) returns (result: int)
    ensures result == Solve(numbers, op)
  {
    if op == Some('+') {
      return Sum(numbers);
    }
    var prod := 1;
    for i := 0 to |numbers|
      invariant prod == Product(numbers[..i])
    {
      assert numbers[..i + 1][..i] == numbers[..i];
      prod := prod * numbers[i];
    }
    assert numbers[..|numbers|] == numbers;
    return prod;
  }

  /** The answer of the block made of columns `cols`. */
  function BlockAnswer(grid: seq<string>, cols: seq<int>): int
    requires |grid| > 0 && FitsAll(grid, cols)
  {
    Solve(RowNumbers(grid, cols, |grid| - 1), Operator(grid[|grid| - 1], cols))
  }

  /** The answers of the first `k` blocks, added up. */
  function Total(grid: seq<string>, blocks: seq<seq<int>>, k: nat): int
    requires |grid| > 0 && k <= |blocks|
    requires forall j :: 0 <= j < |blocks| ==> FitsAll(grid, blocks[j])
  {
    if k == 0 then 0 else Total(grid, blocks, k - 1) + BlockAnswer(grid, blocks[k - 1])
  }

  lemma {:induction false} TotalNonNegative(grid: seq<string>, blocks: seq<seq<int>>, k: nat)
    requires |grid| > 0 && k <= |blocks|
    requires forall j :: 0 <= j < |blocks| ==> FitsAll(grid, blocks[j])
    ensures Total(grid, blocks, k) >= 0
  {
    if k > 0 {
      TotalNonNegative(grid, blocks, k - 1);
      BlockAnswerNonNegative(grid, blocks[k - 1]);
    }
  }

  lemma BlockAnswerNonNegative(grid: seq<string>, cols: seq<int>)
    requires |grid| > 0 && FitsAll(grid, cols)
    ensures BlockAnswer(grid, cols) >= 0
  {
    var numbers := RowNumbers(grid, cols, |grid| - 1);
    SumNonNegative(numbers);
    ProductNonNegative(numbers);
  }

  /** The grand total of a worksheet given as its lines; `None` for an empty
      file, where `max` over no lines raises. */
  function Answer(lines: seq<string>): Option<int>
  {
    if |lines| == 0 then None
    else
      var grid := Pad(lines);
      PadCovers(lines);
      BlocksFit(grid, |grid[0]|);
      var blocks := Blocks(grid, |grid[0]|);
      Some(Total(grid, blocks, |blocks|))
  }

  /** The computation of `main`: pad the lines, split, solve every block, add. */
  method GrandTotal(lines: seq<string>) returns (total: Option<int>)
    ensures total == Answer(lines)
    ensures total.None? <==> |lines| == 0
    ensures total.Some? ==> total.value >= 0
  {
    if |lines| == 0 {
      return None;
    }
    var grid := Pad(lines);
    PadCovers(lines);
    var blocks := SplitIntoBlocks(grid);
    BlocksFit(grid, |grid[0]|);
    var sum := SolveAll(grid, blocks);
    TotalNonNegative(grid, blocks, |blocks|);
    total := Some(sum);
  }

  /** The loop of `main` over the blocks. */
  method SolveAll(grid: seq<string>, blocks: seq<seq<int>>) returns (total: int)
    requires |grid| > 0
    requires forall j :: 0 <= j < |blocks| ==> FitsAll(grid, blocks[j])
    ensures total == Total(grid, blocks, |blocks|)
  {
    total := 0;
    for k := 0 to |blocks|
      invariant total == Total(grid, blocks, k)
    {
      var numbers, op := ExtractProblem(grid, blocks[k]);
      var answer := SolveProblem(numbers, op);
      total := total + answer;
    }
  }
}
