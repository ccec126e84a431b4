/** Day 6, both parts: the worksheet is a grid of characters padded to one
    width; problems are the runs of columns between all-blank columns, and each
    problem's operator sits in the last row. */
module ColumnBlocks {
  import opened Common

  // ---------------------------------------------------------------- padding

  /** `str.ljust(w)`: `s`, followed by spaces up to width `w`. */
  function Ljust(s: string, w: nat): (t: string)
    ensures |t| == if |s| >= w then |s| else w
    ensures t[..|s|] == s
    ensures forall i :: |s| <= i < |t| ==> t[i] == ' '
  {
    if |s| >= w then s else s + seq(w - |s|, _ => ' ')
  }

  /** `max(len(line) for line in lines)`, which needs at least one line. */
  function MaxLen(lines: seq<string>): (m: nat)
    requires |lines| > 0
    ensures forall line | line in lines :: |line| <= m
    ensures exists k :: 0 <= k < |lines| && |lines[k]| == m
  {
    if |lines| == 1 then |lines[0]|
    else
      var m := MaxLen(lines[..|lines| - 1]);
      assert forall line | line in lines :: line in lines[..|lines| - 1] || line == lines[|lines| - 1];
      if |lines[|lines| - 1]| > m then |lines[|lines| - 1]| else m
  }

  /** The padding step of `load_grid`: every line widened with spaces to the
      longest one, so every row has the same length and keeps its text. */
  function Pad(lines: seq<string>): (grid: seq<string>)
    requires |lines| > 0
    ensures |grid| == |lines|
    ensures forall r :: 0 <= r < |grid| ==> |grid[r]| == MaxLen(lines)
    ensures forall r :: 0 <= r < |grid| ==> |lines[r]| <= |grid[r]| && grid[r][..|lines[r]|] == lines[r]
    ensures forall r, i :: 0 <= r < |grid| && |lines[r]| <= i < |grid[r]| ==> grid[r][i] == ' '
  {
    var width := MaxLen(lines);
    var grid := seq(|lines|, r requires 0 <= r < |lines| => Ljust(lines[r], width));
    assert forall r :: 0 <= r < |lines| ==> lines[r] in lines;
    grid
  }

  // ------------------------------------------------------------ the blocks

  /** Every row has at least `width` cells. */
  predicate Covers(grid: seq<string>, width: nat)
  {
    forall row | row in grid :: width <= |row|
  }

  lemma PadCovers(lines: seq<string>)
    requires |lines| > 0
    ensures Covers(Pad(lines), |Pad(lines)[0]|)
  {
  }

  /** Column `c` is a space in every row. */
  predicate Blank(grid: seq<string>, width: nat, c: int)
    requires Covers(grid, width) && 0 <= c < width
  {
    forall r :: 0 <= r < |grid| ==> grid[r][c] == ' '
  }

  function Last(s: seq<int>): int
    requires |s| > 0
  {
    s[|s| - 1]
  }

  /** A non-empty run of consecutive column numbers. */
  predicate Run(s: seq<int>)
  {
    |s| > 0 && forall i :: 0 <= i < |s| ==> s[i] == s[0] + i
  }

  lemma RunMembers(s: seq<int>, c: int)
    requires Run(s)
    ensures c in s <==> s[0] <= c <= Last(s)
  {
    if s[0] <= c <= Last(s) {
      assert s[c - s[0]] == c;
    }
  }

  /** The state of the loop of `split_into_blocks`: the finished blocks and the
      run being collected. */
  datatype Scan = Scan(blocks: seq<seq<int>>, current: seq<int>)

  /** `flush`: a non-empty current run becomes a block. */
  function Flush(s: Scan): seq<seq<int>>
  {
    if s.current != [] then s.blocks + [s.current] else s.blocks
  }

  /** The loop state after the first `c` columns. */
  function ScanTo(grid: seq<string>, width: nat, c: nat): Scan
    requires Covers(grid, width) && c <= width
  {
    if c == 0 then Scan([], [])
    else
      var s := ScanTo(grid, width, c - 1);
      if Blank(grid, width, c - 1) then Scan(Flush(s), []) else Scan(s.blocks, s.current + [c - 1])
  }

  /** What `split_into_blocks` returns. */
  function Blocks(grid: seq<string>, width: nat): seq<seq<int>>
    requires Covers(grid, width)
  {
    Flush(ScanTo(grid, width, width))
  }

  /** A block as `split_into_blocks` returns it: a run of columns inside the
      grid, bordered on each side by a blank column or the edge. */
  predicate IsBlock(grid: seq<string>, width: nat, b: seq<int>)
    requires Covers(grid, width)
  {
    && Run(b) && 0 <= b[0] && Last(b) < width
    && (b[0] == 0 || Blank(grid, width, b[0] - 1))
    && (Last(b) == width - 1 || Blank(grid, width, Last(b) + 1))
  }

  /** A finished block, closed by the blank column after it, before column `c`. */
  predicate Closed(grid: seq<string>, width: nat, b: seq<int>, c: nat)
    requires Covers(grid, width) && c <= width
  {
    && Run(b) && 0 <= b[0] && Last(b) + 1 < c
    && (b[0] == 0 || Blank(grid, width, b[0] - 1))
    && Blank(grid, width, Last(b) + 1)
  }

  /** The run being collected ends at the last column seen; an empty one means
      that column was blank. */
  predicate Open(grid: seq<string>, width: nat, cur: seq<int>, c: nat)
    requires Covers(grid, width) && c <= width
  {
    if cur == [] then c == 0 || Blank(grid, width, c - 1)
    else Run(cur) && 0 <= cur[0] && Last(cur) == c - 1 && (cur[0] == 0 || Blank(grid, width, cur[0] - 1))
  }

  /** Blocks come left to right, at least one column apart. */
  predicate Apart(b: seq<seq<int>>)
  {
    forall k, l :: 0 <= k < l < |b| ==> |b[k]| > 0 && |b[l]| > 0 && Last(b[k]) + 1 < b[l][0]
  }

  /** The run being collected lies past every finished block, a column apart. */
  predicate Ahead(b: seq<seq<int>>, cur: seq<int>)
  {
    cur != [] ==> forall k :: 0 <= k < |b| ==> |b[k]| > 0 && Last(b[k]) + 1 < cur[0]
  }

  /** Column `col` lies in one of the blocks. */
  predicate InSome(b: seq<seq<int>>, col: int)
  {
    exists k :: 0 <= k < |b| && col in b[k]
  }

  /** Of the first `c` columns, the non-blank ones are those collected. */
  predicate Covered(grid: seq<string>, width: nat, b: seq<seq<int>>, cur: seq<int>, c: nat)
    requires Covers(grid, width) && c <= width
  {
    forall col :: 0 <= col < c ==> (!Blank(grid, width, col) <==> InSome(b, col) || col in cur)
  }

  /** The facts the loop of `split_into_blocks` keeps after `c` columns. */
  predicate ScanOk(grid: seq<string>, width: nat, c: nat, s: Scan)
    requires Covers(grid, width) && c <= width
  {
    && (forall k :: 0 <= k < |s.blocks| ==> Closed(grid, width, s.blocks[k], c))
    && Open(grid, width, s.current, c)
    && Apart(s.blocks)
    && Ahead(s.blocks, s.current)
    && Covered(grid, width, s.blocks, s.current, c)
  }

  lemma InSomeAppend(b: seq<seq<int>>, x: seq<int>, col: int)
    ensures InSome(b + [x], col) <==> InSome(b, col) || col in x
  {
    if InSome(b, col) {
      var k :| 0 <= k < |b| && col in b[k];
      assert (b + [x])[k] == b[k];
    }
    if col in x {
      assert (b + [x])[|b|] == x;
    }
  }

  /** A column past every block is in none of them. */
  lemma PastAll(b: seq<seq<int>>, col: int)
    requires forall k :: 0 <= k < |b| ==> Run(b[k]) && Last(b[k]) < col
    ensures !InSome(b, col)
  {
    forall k | 0 <= k < |b|
      ensures col !in b[k]
    {
      RunMembers(b[k], col);
    }
  }

  /** A blank column, the `c`-th, closes the run being collected. */
  lemma BlankStep(grid: seq<string>, width: nat, c: nat, s: Scan)
    requires Covers(grid, width) && 0 < c <= width && Blank(grid, width, c - 1)
    requires ScanOk(grid, width, c - 1, s)
    ensures ScanOk(grid, width, c, Scan(Flush(s), []))
  {
    var b, cur := s.blocks, s.current;
    var b' := Flush(s);
    forall k | 0 <= k < |b'|
      ensures Closed(grid, width, b'[k], c)
    {
      if k < |b| {
        assert b'[k] == b[k] && Closed(grid, width, b[k], c - 1);
      } else {
        assert b'[k] == cur;
      }
    }
    forall col | 0 <= col < c
      ensures !Blank(grid, width, col) <==> InSome(b', col)
    {
      if cur != [] {
        InSomeAppend(b, cur, col);
      }
      if col == c - 1 {
        PastAll(b', col);
      }
    }
  }

  /** A non-blank column, the `c`-th, joins the run being collected. */
  lemma CellStep(grid: seq<string>, width: nat, c: nat, s: Scan)
    requires Covers(grid, width) && 0 < c <= width && !Blank(grid, width, c - 1)
    requires ScanOk(grid, width, c - 1, s)
    ensures ScanOk(grid, width, c, Scan(s.blocks, s.current + [c - 1]))
  {
    var b, cur := s.blocks, s.current;
    forall k | 0 <= k < |b|
      ensures Closed(grid, width, b[k], c)
    {
      assert Closed(grid, width, b[k], c - 1);
    }
    assert (cur + [c - 1])[0] == if cur == [] then c - 1 else cur[0];
    forall col | 0 <= col < c
      ensures !Blank(grid, width, col) <==> InSome(b, col) || col in cur + [c - 1]
    {
    }
  }

  lemma {:induction false} ScanInvariant(grid: seq<string>, width: nat, c: nat)
    requires Covers(grid, width) && c <= width
    ensures ScanOk(grid, width, c, ScanTo(grid, width, c))
  {
    if c > 0 {
      ScanInvariant(grid, width, c - 1);
      var s := ScanTo(grid, width, c - 1);
      if Blank(grid, width, c - 1) {
        BlankStep(grid, width, c, s);
      } else {
        CellStep(grid, width, c, s);
      }
    }
  }

  /** `split_into_blocks` returns the maximal runs of non-blank columns, left
      to right: each block is a run bordered by blank columns or the edges,
      blocks are at least one column apart, and a column is in a block exactly
      when it is not blank. */
  lemma BlocksShape(grid: seq<string>, width: nat)
    requires Covers(grid, width)
    ensures forall k :: 0 <= k < |Blocks(grid, width)| ==> IsBlock(grid, width, Blocks(grid, width)[k])
    ensures Apart(Blocks(grid, width))
    ensures forall col :: 0 <= col < width ==> (!Blank(grid, width, col) <==> InSome(Blocks(grid, width), col))
  {
    ScanInvariant(grid, width, width);
    var s := ScanTo(grid, width, width);
    var b := Blocks(grid, width);
    forall k | 0 <= k < |b|
      ensures IsBlock(grid, width, b[k])
    {
      if k < |s.blocks| {
        assert b[k] == s.blocks[k] && Closed(grid, width, s.blocks[k], width);
      } else {
        assert b[k] == s.current;
      }
    }
    forall col | 0 <= col < width
      ensures !Blank(grid, width, col) <==> InSome(b, col)
    {
      if s.current != [] {
        InSomeAppend(s.blocks, s.current, col);
      }
    }
  }

  /** No column is in two blocks. */
  lemma BlocksDisjoint(grid: seq<string>, width: nat, k: int, l: int, col: int)
    requires Covers(grid, width)
    requires 0 <= k < |Blocks(grid, width)| && 0 <= l < |Blocks(grid, width)|
    requires col in Blocks(grid, width)[k] && col in Blocks(grid, width)[l]
    ensures k == l
  {
    var b := Blocks(grid, width);
    BlocksShape(grid, width);
    assert IsBlock(grid, width, b[k]) && IsBlock(grid, width, b[l]);
    RunMembers(b[k], col);
    RunMembers(b[l], col);
  }

  /** Every column of `cols` is a cell of `row`. */
  predicate Fits(row: string, cols: seq<int>)
  {
    forall i :: 0 <= i < |cols| ==> 0 <= cols[i] < |row|
  }

  /** Every column of `cols` is a cell of every row. */
  predicate FitsAll(grid: seq<string>, cols: seq<int>)
  {
    forall r :: 0 <= r < |grid| ==> Fits(grid[r], cols)
  }

  /** The blocks of a grid can be read in every row. */
  lemma BlocksFit(grid: seq<string>, width: nat)
    requires Covers(grid, width)
    ensures forall k :: 0 <= k < |Blocks(grid, width)| ==> FitsAll(grid, Blocks(grid, width)[k])
  {
    BlocksShape(grid, width);
    var b := Blocks(grid, width);
    forall k, r, i | 0 <= k < |b| && 0 <= r < |grid| && 0 <= i < |b[k]|
      ensures 0 <= b[k][i] < |grid[r]|
    {
      assert IsBlock(grid, width, b[k]);
      assert grid[r] in grid;
    }
  }

  /** `split_into_blocks`: the width is the first row's length. */
  method SplitIntoBlocks(grid: seq<string>) returns (blocks: seq<seq<int>>)
    requires |grid| > 0 && Covers(grid, |grid[0]|)
    ensures blocks == Blocks(grid, |grid[0]|)
  {
    var height, width := |grid|, |grid[0]|;
    blocks := [];
    var current := [];
    for c := 0 to width
      invariant Scan(blocks, current) == ScanTo(grid, width, c)
    {
      if forall r :: 0 <= r < height ==> grid[r][c] == ' ' {
        if current != [] {
          blocks := blocks + [current];
        }
        current := [];
      } else {
        current := current + [c];
      }
    }
    if current != [] {
      blocks := blocks + [current];
    }
  }

  // ------------------------------------------------------------ the operator

  predicate IsOperator(ch: char)
  {
    ch == '+' || ch == '*'
  }

  /** The first '+' or '*' of `row` in the block's columns, if any. */
  function Operator(row: string, cols: seq<int>): Option<char>
    requires forall i :: 0 <= i < |cols| ==> 0 <= cols[i] < |row|
  {
    if cols == [] then None
    else if IsOperator(row[cols[0]]) then Some(row[cols[0]])
    else Operator(row, cols[1..])
  }

  /** The operator is the one in the leftmost column that holds one, and there
      is none exactly when no column of the block holds one. */
  lemma {:induction false} OperatorFirst(row: string, cols: seq<int>)
    requires forall i :: 0 <= i < |cols| ==> 0 <= cols[i] < |row|
    ensures Operator(row, cols).None? <==> forall i :: 0 <= i < |cols| ==> !IsOperator(row[cols[i]])
    ensures Operator(row, cols).Some? ==>
              exists i :: 0 <= i < |cols| && row[cols[i]] == Operator(row, cols).value && IsOperator(row[cols[i]]) &&
                forall j :: 0 <= j < i ==> !IsOperator(row[cols[j]])
  {
    if cols != [] && !IsOperator(row[cols[0]]) {
      OperatorFirst(row, cols[1..]);
      assert forall i :: 1 <= i < |cols| ==> cols[i] == cols[1..][i - 1];
      if Operator(row, cols).Some? {
        var i :| 0 <= i < |cols[1..]| && row[cols[1..][i]] == Operator(row, cols).value && IsOperator(row[cols[1..][i]]) &&
                 forall j :: 0 <= j < i ==> !IsOperator(row[cols[1..][j]]);
        assert forall j :: 0 < j <= i ==> cols[j] == cols[1..][j - 1];
        assert row[cols[i + 1]] == Operator(row, cols).value;
      }
    }
  }

  /** The operator loop of `extract_problem`: stop at the first '+' or '*'. */
  method FindOperator(row: string, cols: seq<int>) returns (op: Option<char>)
    requires forall i :: 0 <= i < |cols| ==> 0 <= cols[i] < |row|
    ensures op == Operator(row, cols)
  {
    op := None;
    var i := 0;
    while i < |cols|
      invariant 0 <= i <= |cols|
      invariant Operator(row, cols) == Operator(row, cols[i..])
    {
      assert cols[i..][1..] == cols[i + 1..];
      if row[cols[i]] == '+' || row[cols[i]] == '*' {
        op := Some(row[cols[i]]);
        return;
      }
      i := i + 1;
    }
  }

  // ------------------------------------------------------------ the digits

  lemma {:induction false} DigitsOfConcat(a: string, b: string)
    ensures DigitsOf(a + b) == DigitsOf(a) + DigitsOf(b)
    decreases |b|
  {
    if b == [] {
      assert a + b == a;
    } else {
      assert (a + b)[..|a + b| - 1] == a + b[..|b| - 1];
      DigitsOfConcat(a, b[..|b| - 1]);
    }
  }

  lemma {:induction false} DigitsOfDigits(s: string)
    requires AllDigits(s)
    ensures DigitsOf(s) == s
  {
    if s != [] {
      DigitsOfDigits(s[..|s| - 1]);
    }
  }

  lemma {:induction false} DigitsOfNone(s: string)
    requires forall i :: 0 <= i < |s| ==> !IsDigit(s[i])
    ensures DigitsOf(s) == []
  {
    if s != [] {
      DigitsOfNone(s[..|s| - 1]);
    }
  }

  /** A number written as `str(v)` among characters that are not digits is
      read back as `v`. */
  lemma ReadBack(text: string, pre: string, v: nat, post: string)
    requires text == pre + NatToString(v) + post
    requires forall i :: 0 <= i < |pre| ==> !IsDigit(pre[i])
    requires forall i :: 0 <= i < |post| ==> !IsDigit(post[i])
    ensures DigitsOf(text) == NatToString(v)
    ensures DigitsValue(DigitsOf(text)) == v
  {
    DigitsOfConcat(pre + NatToString(v), post);
    DigitsOfConcat(pre, NatToString(v));
    DigitsOfNone(pre);
    DigitsOfNone(post);
    DigitsOfDigits(NatToString(v));
    NatToStringRoundTrip(v);
  }
}
