/** Day 4, part 2: accessible rolls are taken away in rounds, all at once per
    round, until no roll is accessible; the answer is how many were taken. */
module RollRemoval {
  import opened PaperRolls

  // ------------------------------------------------------------ the rounds

  /** The grid as `simulate_removal` copies it: the first `cols` cells of each row. */
  function Trim(grid: seq<seq<char>>, cols: nat): (g: seq<seq<char>>)
    requires Wide(grid, cols)
  {
    seq(|grid|, r requires 0 <= r < |grid| => grid[r][..cols])
  }

  /** The grid after one round: every accessible roll becomes '.'. */
  function Step(g: seq<seq<char>>, cols: nat): (h: seq<seq<char>>)
    requires Wide(g, cols)
    ensures |h| == |g| && Wide(h, cols)
  {
    var h := seq(|g|, r requires 0 <= r < |g| =>
               seq(|g[r]|, c requires 0 <= c < |g[r]| => if Accessible(g, cols, r, c) then '.' else g[r][c]));
    assert forall r :: 0 <= r < |h| ==> |h[r]| == |g[r]| && g[r] in g;
    h
  }

  /** How many rolls the rounds take away from `g`, until none is accessible. */
  function Removed(g: seq<seq<char>>, cols: nat): nat
    requires Wide(g, cols)
    decreases RollCount(g, cols, |g|)
  {
    var n := AccessibleCount(g, cols, |g|);
    if n == 0 then 0
    else
      StepCounts(g, cols, |g|);
      n + Removed(Step(g, cols), cols)
  }

  /** The grid once no roll is accessible any more. */
  function Final(g: seq<seq<char>>, cols: nat): (h: seq<seq<char>>)
    requires Wide(g, cols)
    ensures |h| == |g| && Wide(h, cols)
    decreases RollCount(g, cols, |g|)
  {
    if AccessibleCount(g, cols, |g|) == 0 then g
    else
      StepCounts(g, cols, |g|);
      Final(Step(g, cols), cols)
  }

  /** After a round, a cell holds a roll exactly when it held one that was not accessible. */
  lemma StepCell(g: seq<seq<char>>, cols: nat, r: int, c: int)
    requires Wide(g, cols)
    ensures IsRoll(Step(g, cols), cols, r, c) <==> IsRoll(g, cols, r, c) && !Accessible(g, cols, r, c)
  {
    if 0 <= r < |g| && 0 <= c < cols {
      assert g[r] in g;
    }
  }

  lemma {:induction false} StepRow(g: seq<seq<char>>, cols: nat, r: int, k: nat)
    requires Wide(g, cols)
    ensures RowRolls(Step(g, cols), cols, r, k) + RowAccessible(g, cols, r, k) == RowRolls(g, cols, r, k)
  {
    if k > 0 {
      StepRow(g, cols, r, k - 1);
      StepCell(g, cols, r, k - 1);
    }
  }

  /** A round takes away exactly the accessible rolls: the roll count drops by
      the number `count_accessible_rolls` reports. */
  lemma {:induction false} StepCounts(g: seq<seq<char>>, cols: nat, n: nat)
    requires Wide(g, cols)
    ensures RollCount(Step(g, cols), cols, n) + AccessibleCount(g, cols, n) == RollCount(g, cols, n)
  {
    if n > 0 {
      StepCounts(g, cols, n - 1);
      StepRow(g, cols, n - 1, cols);
    }
  }

  /** Every roll taken away was a roll: the total is the drop in the roll count. */
  lemma {:induction false} RemovedAccounts(g: seq<seq<char>>, cols: nat)
    requires Wide(g, cols)
    ensures Removed(g, cols) + RollCount(Final(g, cols), cols, |g|) == RollCount(g, cols, |g|)
    decreases RollCount(g, cols, |g|)
  {
    if AccessibleCount(g, cols, |g|) != 0 {
      StepCounts(g, cols, |g|);
      RemovedAccounts(Step(g, cols), cols);
    }
  }

  /** The first round takes exactly the rolls part 1 counts, and the rounds stop
      at once when there are none. */
  lemma FirstRound(g: seq<seq<char>>, cols: nat)
    requires Wide(g, cols)
    ensures AccessibleCount(g, cols, |g|) <= Removed(g, cols)
    ensures Removed(g, cols) == 0 <==> AccessibleCount(g, cols, |g|) == 0
  {
  }

  /** No row of the grid has an accessible roll among its first `k` cells. */
  lemma {:induction false} NoneInRow(g: seq<seq<char>>, cols: nat, r: int, k: nat)
    requires Wide(g, cols)
    ensures RowAccessible(g, cols, r, k) == 0 <==> forall c :: 0 <= c < k ==> !Accessible(g, cols, r, c)
  {
    if k > 0 {
      NoneInRow(g, cols, r, k - 1);
    }
  }

  lemma {:induction false} NoneAccessible(g: seq<seq<char>>, cols: nat, n: nat)
    requires Wide(g, cols)
    ensures AccessibleCount(g, cols, n) == 0 <==>
              forall r, c :: 0 <= r < n && 0 <= c < cols ==> !Accessible(g, cols, r, c)
  {
    if n > 0 {
      NoneAccessible(g, cols, n - 1);
      NoneInRow(g, cols, n - 1, cols);
    }
  }

  /** When the rounds stop, no roll of the grid is accessible. */
  lemma {:induction false} FinalSettled(g: seq<seq<char>>, cols: nat)
    requires Wide(g, cols)
    ensures forall r, c :: 0 <= r < |g| && 0 <= c < cols ==> !Accessible(Final(g, cols), cols, r, c)
    decreases RollCount(g, cols, |g|)
  {
    if AccessibleCount(g, cols, |g|) == 0 {
      NoneAccessible(g, cols, |g|);
    } else {
      StepCounts(g, cols, |g|);
      FinalSettled(Step(g, cols), cols);
    }
  }

  /** The rounds only ever turn a roll into '.': every other cell keeps its value. */
  lemma {:induction false} FinalOnlyRemoves(g: seq<seq<char>>, cols: nat)
    requires Wide(g, cols)
    ensures forall r :: 0 <= r < |g| ==> |Final(g, cols)[r]| == |g[r]|
    ensures forall r, c :: 0 <= r < |g| && 0 <= c < |g[r]| && Final(g, cols)[r][c] != g[r][c] ==>
              g[r][c] == '@' && Final(g, cols)[r][c] == '.'
    decreases RollCount(g, cols, |g|)
  {
    if AccessibleCount(g, cols, |g|) != 0 {
      StepCounts(g, cols, |g|);
      FinalOnlyRemoves(Step(g, cols), cols);
    }
  }

  // --------------------------------------------------- the list to remove

  /** The accessible cells among the first `k` of row `r`, left to right. */
  function RowRemovable(g: seq<seq<char>>, cols: nat, r: nat, k: nat): seq<(int, int)>
    requires Wide(g, cols)
  {
    if k == 0 then []
    else RowRemovable(g, cols, r, k - 1) + (if Accessible(g, cols, r, k - 1) then [(r, k - 1)] else [])
  }

  /** `to_remove`: the accessible cells of the first `n` rows, in row-major order. */
  function RemovableList(g: seq<seq<char>>, cols: nat, n: nat): seq<(int, int)>
    requires Wide(g, cols)
  {
    if n == 0 then [] else RemovableList(g, cols, n - 1) + RowRemovable(g, cols, n - 1, cols)
  }

  lemma {:induction false} RowRemovableFacts(g: seq<seq<char>>, cols: nat, r: nat, k: nat)
    requires Wide(g, cols)
    ensures |RowRemovable(g, cols, r, k)| == RowAccessible(g, cols, r, k)
  {
    if k > 0 {
      RowRemovableFacts(g, cols, r, k - 1);
    }
  }

  lemma {:induction false} RowRemovableMembers(g: seq<seq<char>>, cols: nat, r: nat, k: nat)
    requires Wide(g, cols)
    ensures forall p :: p in RowRemovable(g, cols, r, k) <==> p.0 == r && 0 <= p.1 < k && Accessible(g, cols, r, p.1)
  {
    if k > 0 {
      RowRemovableMembers(g, cols, r, k - 1);
    }
  }

  /** `to_remove` lists exactly the accessible rolls, and its length is part 1's count. */
  lemma {:induction false} RemovableFacts(g: seq<seq<char>>, cols: nat, n: nat)
    requires Wide(g, cols)
    ensures |RemovableList(g, cols, n)| == AccessibleCount(g, cols, n)
    ensures forall p :: p in RemovableList(g, cols, n) <==>
              0 <= p.0 < n && 0 <= p.1 < cols && Accessible(g, cols, p.0, p.1)
  {
    if n > 0 {
      RemovableFacts(g, cols, n - 1);
      RowRemovableFacts(g, cols, n - 1, cols);
      RowRemovableMembers(g, cols, n - 1, cols);
    }
  }

  // ------------------------------------------------------------ the method

  /** The cells of the mutable grid, as rows. */
  ghost function Snapshot(a: array2<char>): (g: seq<seq<char>>)
    reads a
    ensures |g| == a.Length0 && Wide(g, a.Length1)
  {
    var g := seq(a.Length0, r requires 0 <= r < a.Length0 reads a =>
               seq(a.Length1, c requires 0 <= c < a.Length1 reads a => a[r, c]));
    assert forall r :: 0 <= r < |g| ==> |g[r]| == a.Length1;
    g
  }

  /** Two grids of the same shape that agree cell by cell are the same grid. */
  lemma SameGrid(g: seq<seq<char>>, h: seq<seq<char>>)
    requires |g| == |h|
    requires forall r :: 0 <= r < |g| ==> |g[r]| == |h[r]|
    requires forall r, c :: 0 <= r < |g| && 0 <= c < |g[r]| ==> g[r][c] == h[r][c]
    ensures g == h
  {
    forall r | 0 <= r < |g|
      ensures g[r] == h[r]
    {
    }
  }

  /** `count_neighbors` of part 2, on the grid being changed. */
  method CountNeighborsIn(a: array2<char>, r: int, c: int) returns (count: nat)
    ensures count == Neighbours(Snapshot(a), a.Length1, r, c)
  {
    ghost var g := Snapshot(a);
    count := 0;
    for k := 0 to |Directions|
      invariant count == NeighbourCount(g, a.Length1, r, c, k)
    {
      var d := Directions[k];
      var nr, nc := r + d.0, c + d.1;
      if 0 <= nr < a.Length0 && 0 <= nc < a.Length1 && a[nr, nc] == '@' {
        count := count + 1;
      }
    }
  }

  /** The scan of one round: every accessible roll, row by row. */
  method FindRemovable(a: array2<char>) returns (toRemove: seq<(int, int)>)
    ensures toRemove == RemovableList(Snapshot(a), a.Length1, a.Length0)
  {
    ghost var g := Snapshot(a);
    var rows, cols := a.Length0, a.Length1;
    toRemove := [];
    for r := 0 to rows
      invariant toRemove == RemovableList(g, cols, r)
    {
      var inRow := ScanRow(a, r);
      toRemove := toRemove + inRow;
    }
  }

  /** The inner loop of the scan: the accessible rolls of row `r`. */
  method ScanRow(a: array2<char>, r: nat) returns (inRow: seq<(int, int)>)
    requires r < a.Length0
    ensures inRow == RowRemovable(Snapshot(a), a.Length1, r, a.Length1)
  {
    ghost var g := Snapshot(a);
    inRow := [];
    for c := 0 to a.Length1
      invariant inRow == RowRemovable(g, a.Length1, r, c)
    {
      var n := CountNeighborsIn(a, r, c);
      if a[r, c] == '@' && n < 4 {
        inRow := inRow + [(r, c)];
      }
    }
  }

  /** Every listed cell becomes '.'. */
  method ApplyRemoval(a: array2<char>, toRemove: seq<(int, int)>)
    requires forall p | p in toRemove :: 0 <= p.0 < a.Length0 && 0 <= p.1 < a.Length1
    modifies a
    ensures forall r, c :: 0 <= r < a.Length0 && 0 <= c < a.Length1 ==>
              a[r, c] == if (r, c) in toRemove then '.' else old(a[r, c])
  {
    for i := 0 to |toRemove|
      invariant forall r, c :: 0 <= r < a.Length0 && 0 <= c < a.Length1 ==>
                  a[r, c] == if (r, c) in toRemove[..i] then '.' else old(a[r, c])
    {
      assert toRemove[..i + 1] == toRemove[..i] + [toRemove[i]];
      var (r, c) := toRemove[i];
      a[r, c] := '.';
    }
    assert toRemove[..|toRemove|] == toRemove;
  }

  /** One round on the grid: find the accessible rolls and take them all away. */
  method Round(a: array2<char>) returns (removed: nat)
    modifies a
    ensures removed == AccessibleCount(old(Snapshot(a)), a.Length1, a.Length0)
    ensures Snapshot(a) == if removed == 0 then old(Snapshot(a)) else Step(old(Snapshot(a)), a.Length1)
  {
    ghost var g := Snapshot(a);
    var toRemove := FindRemovable(a);
    RemovableFacts(g, a.Length1, a.Length0);
    removed := |toRemove|;
    if removed > 0 {
      ApplyRemoval(a, toRemove);
      SameGrid(Snapshot(a), Step(g, a.Length1));
    }
  }

  /** `simulate_removal`: rounds until one finds nothing to take; the total
      taken is the rolls the rounds remove. The grid needs a first row, and no
      row shorter than it. */
  method SimulateRemoval(grid: seq<seq<char>>) returns (total: nat)
    requires |grid| > 0 && Wide(grid, |grid[0]|)
    ensures total == Removed(Trim(grid, |grid[0]|), |grid[0]|)
  {
    var rows, cols := |grid|, |grid[0]|;
    var a := new char[rows, cols]((r, c) requires 0 <= r < rows && 0 <= c < cols => grid[r][c]);
    SameGrid(Snapshot(a), Trim(grid, cols));
    total := 0;
    while true
      invariant total + Removed(Snapshot(a), cols) == Removed(Trim(grid, cols), cols)
      decreases RollCount(Snapshot(a), cols, rows)
    {
      ghost var g := Snapshot(a);
      var removed := Round(a);
      if removed == 0 {
        break;
      }
      StepCounts(g, cols, rows);
      total := total + removed;
    }
  }
}
