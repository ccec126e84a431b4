/** Day 6, part 2: each column of a block holds one number, its digits read
    top to bottom over the rows above the operator row; the columns are taken
    right to left, and an operator other than '+' or '*' is an error. */
module ColumnProblems {
  import opened Common
  import opened ColumnBlocks
  import RowProblems

  /** The characters of column `cols[i]` in the first `n` rows, top to bottom. */
  function ColumnText(grid: seq<string>, cols: seq<int>, i: nat, n: nat): string
    requires n <= |grid| && i < |cols| && FitsAll(grid, cols)
  {
    ColumnFits(grid, cols, i, n);
    seq(n, r requires 0 <= r < n && 0 <= cols[i] < |grid[r]| => grid[r][cols[i]])
  }

  lemma ColumnFits(grid: seq<string>, cols: seq<int>, i: nat, n: nat)
    requires n <= |grid| && i < |cols| && FitsAll(grid, cols)
    ensures n > 0 ==> 0 <= cols[i]
    ensures forall r :: 0 <= r < n ==> cols[i] < |grid[r]|
  {
    forall r | 0 <= r < n
      ensures 0 <= cols[i] < |grid[r]|
    {
      assert Fits(grid[r], cols);
    }
    if n > 0 {
      assert Fits(grid[0], cols);
    }
  }

  /** The digits of column `cols[i]` in the first `n` rows, top to bottom. */
  function ColumnDigits(grid: seq<string>, cols: seq<int>, i: nat, n: nat): (digits: string)
    requires n <= |grid| && i < |cols| && FitsAll(grid, cols)
    ensures AllDigits(digits)
  {
    DigitsOf(ColumnText(grid, cols, i, n))
  }

  /** The numbers of the `k` rightmost columns of the block, right to left. */
  function ColumnNumbers(grid: seq<string>, cols: seq<int>, n: nat, k: nat): seq<nat>
    requires n <= |grid| && k <= |cols| && FitsAll(grid, cols)
  {
    if k == 0 then []
    else
      var digits := ColumnDigits(grid, cols, |cols| - k, n);
      ColumnNumbers(grid, cols, n, k - 1) + (if digits == [] then [] else [DigitsValue(digits)])
  }

  /** At most one number per column of the block. */
  lemma {:induction false} ColumnNumbersCount(grid: seq<string>, cols: seq<int>, n: nat, k: nat)
    requires n <= |grid| && k <= |cols| && FitsAll(grid, cols)
    ensures |ColumnNumbers(grid, cols, n, k)| <= k
  {
    if k > 0 {
      ColumnNumbersCount(grid, cols, n, k - 1);
    }
  }

  /** When every column has a digit, number `i` is read from the `i`-th column
      counted from the right. */
  lemma {:induction false} ColumnNumbersDense(grid: seq<string>, cols: seq<int>, n: nat, k: nat)
    requires n <= |grid| && k <= |cols| && FitsAll(grid, cols)
    requires forall i :: 0 <= i < |cols| ==> ColumnDigits(grid, cols, i, n) != []
    ensures |ColumnNumbers(grid, cols, n, k)| == k
    ensures forall i :: 0 <= i < k ==>
              ColumnNumbers(grid, cols, n, k)[i] == DigitsValue(ColumnDigits(grid, cols, |cols| - 1 - i, n))
  {
    if k > 0 {
      ColumnNumbersDense(grid, cols, n, k - 1);
      var prev := ColumnNumbers(grid, cols, n, k - 1);
      var all := ColumnNumbers(grid, cols, n, k);
      assert all == prev + [DigitsValue(ColumnDigits(grid, cols, |cols| - k, n))];
      forall i | 0 <= i < k
        ensures all[i] == DigitsValue(ColumnDigits(grid, cols, |cols| - 1 - i, n))
      {
        if i < k - 1 {
          assert all[i] == prev[i];
        }
      }
    }
  }

  /** A column holding `str(v)` top to bottom, between non-digits, gives `v`. */
  lemma ColumnReadBack(grid: seq<string>, cols: seq<int>, i: nat, n: nat, pre: string, v: nat, post: string)
    requires n <= |grid| && i < |cols| && FitsAll(grid, cols)
    requires ColumnText(grid, cols, i, n) == pre + NatToString(v) + post
    requires forall j :: 0 <= j < |pre| ==> !IsDigit(pre[j])
    requires forall j :: 0 <= j < |post| ==> !IsDigit(post[j])
    ensures ColumnDigits(grid, cols, i, n) != [] && DigitsValue(ColumnDigits(grid, cols, i, n)) == v
  {
    ReadBack(ColumnText(grid, cols, i, n), pre, v, post);
  }

  /** `extract_problem` of part 2: one number per column, right to left, then
      the operator. */
  method ExtractProblem(grid: seq<string>, cols: seq<int>) returns (numbers: seq<nat>, op: Option<char>)
    requires |grid| > 0 && FitsAll(grid, cols)
    ensures numbers == ColumnNumbers(grid, cols, |grid| - 1, |cols|)
    ensures op == Operator(grid[|grid| - 1], cols)
  {
    var height := |grid|;
    numbers := [];
    for i := 0 to |cols|
      invariant numbers == ColumnNumbers(grid, cols, height - 1, i)
    {
      var digits := ColumnDigits(grid, cols, |cols| - 1 - i, height - 1);
      if digits != [] {
        numbers := numbers + [DigitsValue(digits)];
      }
    }
    op := FindOperator(grid[height - 1], cols);
  }

  /** The answer of one block, or `None` where `solve_problem` raises
      `ValueError` for an unknown operator. */
  function Solve(numbers: seq<nat>, op: Option<char>): Option<int>
  {
    if op == Some('+') then Some(Sum(numbers))
    else if op == Some('*') then Some(Product(numbers))
    else None
  }

  /** Part 2's `solve_problem` fails exactly on a block without '+' or '*', and
      otherwise agrees with part 1's. */
  lemma SolveStrict(numbers: seq<nat>, op: Option<char>)
    ensures Solve(numbers, op).None? <==> op.None? || !IsOperator(op.value)
    ensures Solve(numbers, op).Some? ==> Solve(numbers, op).value == RowProblems.Solve(numbers, op)
  {
  }

  /** `solve_problem` of part 2: `sum` for '+', the product loop for '*'. */
  method SolveProblem(numbers: seq<nat>, op: Option<char>) returns (result: Option<int>)
    ensures result == Solve(numbers, op)
  {
    if op == Some('+') {
      return Some(Sum(numbers));
    } else if op == Some('*') {
      var prod := 1;
      for i := 0 to |numbers|
        invariant prod == Product(numbers[..i])
      {
        assert numbers[..i + 1][..i] == numbers[..i];
        prod := prod * numbers[i];
      }
      assert numbers[..|numbers|] == numbers;
      return Some(prod);
    } else {
      return None;
    }
  }

  /** The answer of the block made of columns `cols`. */
  function BlockAnswer(grid: seq<string>, cols: seq<int>): Option<int>
    requires |grid| > 0 && FitsAll(grid, cols)
  {
    Solve(ColumnNumbers(grid, cols, |grid| - 1, |cols|), Operator(grid[|grid| - 1], cols))
  }

  /** A block fails exactly when its last row has neither '+' nor '*' in any
      of its columns. */
  lemma BlockFails(grid: seq<string>, cols: seq<int>)
    requires |grid| > 0 && FitsAll(grid, cols) && Fits(grid[|grid| - 1], cols)
    ensures BlockAnswer(grid, cols).None? <==> forall i :: 0 <= i < |cols| ==> !IsOperator(grid[|grid| - 1][cols[i]])
  {
    OperatorFirst(grid[|grid| - 1], cols);
  }

  /** The answers of the blocks added up in order, or `None` from the first
      one that fails on. */
  function Accumulate(answers: seq<Option<int>>): Option<int>
  {
    if answers == [] then Some(0)
    else
      match Accumulate(answers[..|answers| - 1])
      case None => None
      case Some(t) =>
        match answers[|answers| - 1]
        case None => None
        case Some(v) => Some(t + v)
  }

  /** The run fails exactly when some block fails. */
  lemma {:induction false} AccumulateFails(answers: seq<Option<int>>)
    ensures Accumulate(answers).None? <==> exists j :: 0 <= j < |answers| && answers[j].None?
  {
    if answers != [] {
      var prefix := answers[..|answers| - 1];
      AccumulateFails(prefix);
      if exists j :: 0 <= j < |prefix| && prefix[j].None? {
        var j :| 0 <= j < |prefix| && prefix[j].None?;
        assert answers[j] == prefix[j];
      }
      if exists j :: 0 <= j < |answers| && answers[j].None? {
        var j :| 0 <= j < |answers| && answers[j].None?;
        if j < |prefix| {
          assert prefix[j] == answers[j];
        }
      }
    }
  }

  /** The answers of the blocks, in order. */
  function Answers(grid: seq<string>, blocks: seq<seq<int>>): (answers: seq<Option<int>>)
    requires |grid| > 0
    requires forall j :: 0 <= j < |blocks| ==> FitsAll(grid, blocks[j])
    ensures |answers| == |blocks|
  {
    seq(|blocks|, j requires 0 <= j < |blocks| => BlockAnswer(grid, blocks[j]))
  }

  /** The grand total of part 2 for a worksheet given as its lines: `None` for
      an empty file, where `max` over no lines raises, and when a block has no
      '+' or '*' in its last row. */
  function Answer(lines: seq<string>): Option<int>
  {
    if |lines| == 0 then None
    else
      var grid := Pad(lines);
      PadCovers(lines);
      BlocksFit(grid, |grid[0]|);
      Accumulate(Answers(grid, Blocks(grid, |grid[0]|)))
  }

  /** The computation of `main` in part 2. */
  method GrandTotal(lines: seq<string>) returns (total: Option<int>)
    ensures total == Answer(lines)
    ensures |lines| == 0 ==> total.None?
  {
    if |lines| == 0 {
      return None;
    }
    var grid := Pad(lines);
    PadCovers(lines);
    var blocks := SplitIntoBlocks(grid);
    BlocksFit(grid, |grid[0]|);
    total := SolveAll(grid, blocks);
  }

  /** The loop of `main` over the blocks; the first error ends it. */
  method SolveAll(grid: seq<string>, blocks: seq<seq<int>>) returns (total: Option<int>)
    requires |grid| > 0
    requires forall j :: 0 <= j < |blocks| ==> FitsAll(grid, blocks[j])
    ensures total == Accumulate(Answers(grid, blocks))
  {
    ghost var answers := Answers(grid, blocks);
    var sum := 0;
    for k := 0 to |blocks|
      invariant Accumulate(answers[..k]) == Some(sum)
    {
      var answer := SolveBlock(grid, blocks[k]);
      assert answer == answers[k];
      if answer.None? {
        AccumulateStops(answers, k);
        return None;
      }
      AccumulateStep(answers, k, sum);
      sum := sum + answer.value;
    }
    assert answers[..|blocks|] == answers;
    return Some(sum);
  }

  /** One more answer adds to the running total. */
  lemma AccumulateStep(answers: seq<Option<int>>, k: nat, sum: int)
    requires k < |answers| && Accumulate(answers[..k]) == Some(sum) && answers[k].Some?
    ensures Accumulate(answers[..k + 1]) == Some(sum + answers[k].value)
  {
    assert answers[..k + 1][..k] == answers[..k];
  }

  /** A failing answer fails the whole run. */
  lemma AccumulateStops(answers: seq<Option<int>>, k: nat)
    requires k < |answers| && answers[k].None?
    ensures Accumulate(answers).None?
  {
    AccumulateFails(answers);
  }

  /** One pass of the loop of `main`: extract the block's problem and solve it. */
  method SolveBlock(grid: seq<string>, cols: seq<int>) returns (answer: Option<int>)
    requires |grid| > 0 && FitsAll(grid, cols)
    ensures answer == BlockAnswer(grid, cols)
  {
    var numbers, op := ExtractProblem(grid, cols);
    answer := SolveProblem(numbers, op);
  }
}
