/** Day 4, part 1: paper rolls ('@') on a grid, and the rolls a forklift can
    reach because fewer than four of their eight neighbours are rolls. The grid
    is a list of text rows; its width is the length of the first row. */
module PaperRolls {

  /** The eight neighbour offsets, in the order `count_neighbors` visits them. */
  const Directions: seq<(int, int)> := [(-1, -1), (-1, 0), (-1, 1), (0, -1), (0, 1), (1, -1), (1, 0), (1, 1)]

  /** Every row is at least `cols` long, so the first `cols` cells of each can be read. */
  predicate Wide(g: seq<seq<char>>, cols: nat)
  {
    forall row | row in g :: cols <= |row|
  }

  /** Cell (r, c) is inside the grid and holds a roll. */
  predicate IsRoll(g: seq<seq<char>>, cols: nat, r: int, c: int)
    requires Wide(g, cols)
  {
    0 <= r < |g| && 0 <= c < cols && g[r][c] == '@'
  }

  /** 1 when the neighbour of (r, c) at offset `i` is a roll. */
  function Hit(g: seq<seq<char>>, cols: nat, r: int, c: int, i: nat): nat
    requires Wide(g, cols) && i < |Directions|
  {
    var d := Directions[i];
    if IsRoll(g, cols, r + d.0, c + d.1) then 1 else 0
  }

  /** The number of rolls among the first `k` neighbour offsets of (r, c). */
  function NeighbourCount(g: seq<seq<char>>, cols: nat, r: int, c: int, k: nat): nat
    requires Wide(g, cols) && k <= |Directions|
  {
    if k == 0 then 0 else NeighbourCount(g, cols, r, c, k - 1) + Hit(g, cols, r, c, k - 1)
  }

  function Neighbours(g: seq<seq<char>>, cols: nat, r: int, c: int): nat
    requires Wide(g, cols)
  {
    NeighbourCount(g, cols, r, c, |Directions|)
  }

  lemma NeighboursUnfold(g: seq<seq<char>>, cols: nat, r: int, c: int)
    requires Wide(g, cols)
    ensures Neighbours(g, cols, r, c) ==
              Hit(g, cols, r, c, 0) + Hit(g, cols, r, c, 1) + Hit(g, cols, r, c, 2) + Hit(g, cols, r, c, 3) +
              Hit(g, cols, r, c, 4) + Hit(g, cols, r, c, 5) + Hit(g, cols, r, c, 6) + Hit(g, cols, r, c, 7)
  {
    assert NeighbourCount(g, cols, r, c, 1) == Hit(g, cols, r, c, 0);
    assert NeighbourCount(g, cols, r, c, 2) == NeighbourCount(g, cols, r, c, 1) + Hit(g, cols, r, c, 1);
    assert NeighbourCount(g, cols, r, c, 3) == NeighbourCount(g, cols, r, c, 2) + Hit(g, cols, r, c, 2);
    assert NeighbourCount(g, cols, r, c, 4) == NeighbourCount(g, cols, r, c, 3) + Hit(g, cols, r, c, 3);
    assert NeighbourCount(g, cols, r, c, 5) == NeighbourCount(g, cols, r, c, 4) + Hit(g, cols, r, c, 4);
    assert NeighbourCount(g, cols, r, c, 6) == NeighbourCount(g, cols, r, c, 5) + Hit(g, cols, r, c, 5);
    assert NeighbourCount(g, cols, r, c, 7) == NeighbourCount(g, cols, r, c, 6) + Hit(g, cols, r, c, 6);
  }

  // -------------------------------------------- the neighbourhood as a set

  /** The rolls in the 3 by 3 box around (r, c), the centre excluded. */
  function BoxRolls(g: seq<seq<char>>, cols: nat, r: int, c: int): set<(int, int)>
    requires Wide(g, cols)
  {
    set nr, nc | r - 1 <= nr <= r + 1 && c - 1 <= nc <= c + 1 && (nr, nc) != (r, c) && IsRoll(g, cols, nr, nc) :: (nr, nc)
  }

  /** The rolls reached through the first `k` offsets. */
  function OffsetRolls(g: seq<seq<char>>, cols: nat, r: int, c: int, k: nat): set<(int, int)>
    requires Wide(g, cols) && k <= |Directions|
  {
    if k == 0 then {}
    else
      var d := Directions[k - 1];
      OffsetRolls(g, cols, r, c, k - 1) +
        (if IsRoll(g, cols, r + d.0, c + d.1) then {(r + d.0, c + d.1)} else {})
  }

  /** The position of an offset in `Directions`. */
  function Code(d: (int, int)): int
  {
    var box := 3 * (d.0 + 1) + (d.1 + 1);
    if box > 4 then box - 1 else box
  }

  lemma DirectionCodes(i: nat)
    requires i < |Directions|
    ensures Code(Directions[i]) == i
    ensures -1 <= Directions[i].0 <= 1 && -1 <= Directions[i].1 <= 1 && Directions[i] != (0, 0)
  {
    if i == 0 {} else if i == 1 {} else if i == 2 {} else if i == 3 {}
    else if i == 4 {} else if i == 5 {} else if i == 6 {} else {}
  }

  /** Every offset of the box but the centre is in `Directions`, at its code. */
  lemma BoxCodes(d: (int, int))
    requires -1 <= d.0 <= 1 && -1 <= d.1 <= 1 && d != (0, 0)
    ensures 0 <= Code(d) < |Directions| && Directions[Code(d)] == d
  {
  }

  /** Whatever the first `k` offsets reach is a roll of the box, at an offset
      whose code is below `k`. */
  lemma {:induction false} OffsetRollsFrom(g: seq<seq<char>>, cols: nat, r: int, c: int, k: nat, p: (int, int))
    requires Wide(g, cols) && k <= |Directions|
    ensures p in OffsetRolls(g, cols, r, c, k) ==> InBox(g, cols, r, c, p) && Code((p.0 - r, p.1 - c)) < k
  {
    if k > 0 {
      OffsetRollsFrom(g, cols, r, c, k - 1, p);
      DirectionCodes(k - 1);
      var d := Directions[k - 1];
      if p == (r + d.0, c + d.1) {
        assert (p.0 - r, p.1 - c) == d;
      }
    }
  }

  /** `p` is a roll in the box around (r, c), not the centre. */
  predicate InBox(g: seq<seq<char>>, cols: nat, r: int, c: int, p: (int, int))
    requires Wide(g, cols)
  {
    r - 1 <= p.0 <= r + 1 && c - 1 <= p.1 <= c + 1 && p != (r, c) && IsRoll(g, cols, p.0, p.1)
  }

  lemma {:induction false} OffsetRollsHas(g: seq<seq<char>>, cols: nat, r: int, c: int, k: nat, i: nat)
    requires Wide(g, cols) && i < k <= |Directions|
    requires IsRoll(g, cols, r + Directions[i].0, c + Directions[i].1)
    ensures (r + Directions[i].0, c + Directions[i].1) in OffsetRolls(g, cols, r, c, k)
  {
    if i < k - 1 {
      OffsetRollsHas(g, cols, r, c, k - 1, i);
    }
  }

  lemma {:induction false} OffsetRollsCount(g: seq<seq<char>>, cols: nat, r: int, c: int, k: nat)
    requires Wide(g, cols) && k <= |Directions|
    ensures |OffsetRolls(g, cols, r, c, k)| == NeighbourCount(g, cols, r, c, k)
  {
    if k > 0 {
      var j := k - 1;
      OffsetRollsCount(g, cols, r, c, j);
      OffsetRollsStep(g, cols, r, c, j);
    }
  }

  lemma OffsetRollsStep(g: seq<seq<char>>, cols: nat, r: int, c: int, k: nat)
    requires Wide(g, cols) && k < |Directions|
    ensures |OffsetRolls(g, cols, r, c, k + 1)| == |OffsetRolls(g, cols, r, c, k)| + Hit(g, cols, r, c, k)
    ensures NeighbourCount(g, cols, r, c, k + 1) == NeighbourCount(g, cols, r, c, k) + Hit(g, cols, r, c, k)
  {
    var prev := OffsetRolls(g, cols, r, c, k);
    var p := (r + Directions[k].0, c + Directions[k].1);
    NotYetReached(g, cols, r, c, k);
    assert p !in prev;
  }

  /** The cell at offset `k` is not among those reached through earlier offsets. */
  lemma NotYetReached(g: seq<seq<char>>, cols: nat, r: int, c: int, k: nat)
    requires Wide(g, cols) && k < |Directions|
    ensures (r + Directions[k].0, c + Directions[k].1) !in OffsetRolls(g, cols, r, c, k)
  {
    DirectionCodes(k);
    var d := Directions[k];
    var p := (r + d.0, c + d.1);
    OffsetRollsFrom(g, cols, r, c, k, p);
    assert (p.0 - r, p.1 - c) == d;
  }

  /** `count_neighbors` counts exactly the rolls of the surrounding box: the
      eight offsets are the eight cells around the centre, each once. */
  lemma NeighboursAreBox(g: seq<seq<char>>, cols: nat, r: int, c: int)
    requires Wide(g, cols)
    ensures Neighbours(g, cols, r, c) == |BoxRolls(g, cols, r, c)|
  {
    OffsetRollsCount(g, cols, r, c, |Directions|);
    OffsetsAreBox(g, cols, r, c);
  }

  lemma OffsetsAreBox(g: seq<seq<char>>, cols: nat, r: int, c: int)
    requires Wide(g, cols)
    ensures OffsetRolls(g, cols, r, c, |Directions|) == BoxRolls(g, cols, r, c)
  {
    forall p | p in OffsetRolls(g, cols, r, c, |Directions|)
      ensures p in BoxRolls(g, cols, r, c)
    {
      OffsetInBox(g, cols, r, c, p);
    }
    forall p | p in BoxRolls(g, cols, r, c)
      ensures p in OffsetRolls(g, cols, r, c, |Directions|)
    {
      BoxInOffsets(g, cols, r, c, p);
    }
  }

  lemma OffsetInBox(g: seq<seq<char>>, cols: nat, r: int, c: int, p: (int, int))
    requires Wide(g, cols) && p in OffsetRolls(g, cols, r, c, |Directions|)
    ensures p in BoxRolls(g, cols, r, c)
  {
    OffsetRollsFrom(g, cols, r, c, |Directions|, p);
    assert InBox(g, cols, r, c, p);
    assert p == (p.0, p.1);
  }

  lemma BoxInOffsets(g: seq<seq<char>>, cols: nat, r: int, c: int, p: (int, int))
    requires Wide(g, cols) && p in BoxRolls(g, cols, r, c)
    ensures p in OffsetRolls(g, cols, r, c, |Directions|)
  {
    var d := (p.0 - r, p.1 - c);
    BoxCodes(d);
    assert p == (r + Directions[Code(d)].0, c + Directions[Code(d)].1);
    OffsetRollsHas(g, cols, r, c, |Directions|, Code(d));
  }

  /** A roll in a corner has at most three neighbours in the grid. */
  lemma CornerAtMostThree(g: seq<seq<char>>, cols: nat, r: int, c: int)
    requires Wide(g, cols)
    requires r == 0 || r == |g| - 1
    requires c == 0 || c == cols - 1
    ensures Neighbours(g, cols, r, c) <= 3
  {
    NeighboursUnfold(g, cols, r, c);
  }

  /** `count_neighbors`: the loop over the eight offsets. */
  method CountNeighbors(g: seq<seq<char>>, cols: nat, r: int, c: int) returns (count: nat)
    requires Wide(g, cols)
    ensures count == Neighbours(g, cols, r, c)
    ensures count <= 8
  {
    count := 0;
    for k := 0 to |Directions|
      invariant count == NeighbourCount(g, cols, r, c, k)
      invariant count <= k
    {
      var d := Directions[k];
      var nr, nc := r + d.0, c + d.1;
      if 0 <= nr < |g| && 0 <= nc < cols && g[nr][nc] == '@' {
        count := count + 1;
      }
    }
  }

  // ------------------------------------------------------------ accessible

  /** A roll with fewer than four rolls around it. */
  predicate Accessible(g: seq<seq<char>>, cols: nat, r: int, c: int)
    requires Wide(g, cols)
  {
    IsRoll(g, cols, r, c) && Neighbours(g, cols, r, c) < 4
  }

  /** The accessible rolls among the first `k` cells of row `r`. */
  function RowAccessible(g: seq<seq<char>>, cols: nat, r: int, k: nat): nat
    requires Wide(g, cols)
  {
    if k == 0 then 0 else RowAccessible(g, cols, r, k - 1) + (if Accessible(g, cols, r, k - 1) then 1 else 0)
  }

  /** The accessible rolls in the first `n` rows. */
  function AccessibleCount(g: seq<seq<char>>, cols: nat, n: nat): nat
    requires Wide(g, cols)
  {
    if n == 0 then 0 else AccessibleCount(g, cols, n - 1) + RowAccessible(g, cols, n - 1, cols)
  }

  /** The rolls among the first `k` cells of row `r`. */
  function RowRolls(g: seq<seq<char>>, cols: nat, r: int, k: nat): nat
    requires Wide(g, cols)
  {
    if k == 0 then 0 else RowRolls(g, cols, r, k - 1) + (if IsRoll(g, cols, r, k - 1) then 1 else 0)
  }

  /** The rolls in the first `n` rows. */
  function RollCount(g: seq<seq<char>>, cols: nat, n: nat): nat
    requires Wide(g, cols)
  {
    if n == 0 then 0 else RollCount(g, cols, n - 1) + RowRolls(g, cols, n - 1, cols)
  }

  lemma {:induction false} RowAccessibleBound(g: seq<seq<char>>, cols: nat, r: int, k: nat)
    requires Wide(g, cols)
    ensures RowAccessible(g, cols, r, k) <= RowRolls(g, cols, r, k)
  {
    if k > 0 {
      RowAccessibleBound(g, cols, r, k - 1);
    }
  }

  /** No more rolls are accessible than there are rolls. */
  lemma {:induction false} AccessibleBound(g: seq<seq<char>>, cols: nat, n: nat)
    requires Wide(g, cols)
    ensures AccessibleCount(g, cols, n) <= RollCount(g, cols, n)
  {
    if n > 0 {
      AccessibleBound(g, cols, n - 1);
      RowAccessibleBound(g, cols, n - 1, cols);
    }
  }

  /** A roll in a corner is always accessible. */
  lemma CornerAccessible(g: seq<seq<char>>, cols: nat, r: int, c: int)
    requires Wide(g, cols) && IsRoll(g, cols, r, c)
    requires r == 0 || r == |g| - 1
    requires c == 0 || c == cols - 1
    ensures Accessible(g, cols, r, c)
  {
    CornerAtMostThree(g, cols, r, c);
  }

  /** `count_accessible_rolls`: the grid needs a first row, which sets the
      width, and no row shorter than it. */
  method CountAccessibleRolls(grid: seq<seq<char>>) returns (accessible: nat)
    requires |grid| > 0 && Wide(grid, |grid[0]|)
    ensures accessible == AccessibleCount(grid, |grid[0]|, |grid|)
  {
    var rows, cols := |grid|, |grid[0]|;
    accessible := 0;
    for r := 0 to rows
      invariant accessible == AccessibleCount(grid, cols, r)
    {
      var inRow := 0;
      for c := 0 to cols
        invariant inRow == RowAccessible(grid, cols, r, c)
      {
        var n := CountNeighbors(grid, cols, r, c);
        if grid[r][c] == '@' && n < 4 {
          inRow := inRow + 1;
        }
      }
      accessible := accessible + inRow;
    }
  }
}
