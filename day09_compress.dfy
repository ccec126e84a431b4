/** Day 9, part 1: coordinate compression. The distinct values of one axis, in
    increasing order, are numbered so that neighbouring values get neighbouring
    indices and a gap between values leaves one empty index between them. */
module AxisCompression {

  predicate Increasing(t: seq<int>)
  {
    forall i, j :: 0 <= i < j < |t| ==> t[i] < t[j]
  }

  /** `t` with `x` put in its place, unless it is there already. */
  function Insert(t: seq<int>, x: int): seq<int>
  {
    if t == [] then [x]
    else if x < t[0] then [x] + t
    else if x == t[0] then t
    else [t[0]] + Insert(t[1..], x)
  }

  lemma {:induction false} InsertMembers(t: seq<int>, x: int)
    ensures forall y :: y in Insert(t, x) <==> y in t || y == x
  {
    if t != [] && x > t[0] {
      InsertMembers(t[1..], x);
      assert t == [t[0]] + t[1..];
    }
  }

  lemma {:induction false} InsertIncreasing(t: seq<int>, x: int)
    requires Increasing(t)
    ensures Increasing(Insert(t, x))
  {
    if t != [] && x > t[0] {
      InsertIncreasing(t[1..], x);
      InsertMembers(t[1..], x);
      var r := Insert(t[1..], x);
      assert forall k :: 0 <= k < |r| ==> r[k] in r;
      assert forall k :: 0 < k < |t| ==> t[k] == t[1..][k - 1];
    }
  }

  /** `sorted(set(all_t))`: the distinct values, in increasing order. */
  method SortedDistinct(all: seq<int>) returns (t: seq<int>)
    ensures Increasing(t)
    ensures forall y :: y in t <==> y in all
    ensures forall k :: 0 <= k < |all| ==> all[k] in t
  {
    t := [];
    for k := 0 to |all|
      invariant Increasing(t)
      invariant forall y :: y in t <==> y in all[..k]
    {
      InsertMembers(t, all[k]);
      InsertIncreasing(t, all[k]);
      assert all[..k + 1] == all[..k] + [all[k]];
      t := Insert(t, all[k]);
    }
    assert all[..|all|] == all;
  }

  /** The index the loop of `compress_axis` gives to `t[k]`: one more than the
      previous index, or two more across a gap. */
  function Position(t: seq<int>, k: nat): nat
    requires k < |t|
  {
    if k == 0 then 0
    else Position(t, k - 1) + (if t[k] > t[k - 1] + 1 then 2 else 1)
  }

  lemma {:induction false} PositionIncreases(t: seq<int>, a: nat, b: nat)
    requires a < b < |t|
    ensures Position(t, a) < Position(t, b)
    decreases b - a
  {
    if a + 1 < b {
      PositionIncreases(t, a + 1, b);
    }
  }

  /** `compress_axis` on a non-empty list (the first value is read unguarded). */
  method CompressAxis(all: seq<int>) returns (mapping: map<int, int>)
    requires |all| > 0
    ensures forall y :: y in mapping <==> y in all
    ensures forall y, z :: y in mapping && z in mapping && y < z ==> mapping[y] < mapping[z]
    ensures forall y :: y in mapping && (forall z :: z in mapping ==> y <= z) ==> mapping[y] == 0
    ensures forall y, z :: y in mapping && z in mapping && y < z && Adjacent(mapping, y, z) ==>
              mapping[z] == mapping[y] + (if z > y + 1 then 2 else 1)
  {
    var t := SortedDistinct(all);
    assert all[0] in t;
    mapping := Number(t);
    CompressedOrder(t, mapping);
    CompressedLeast(t, mapping);
  }

  /** The numbering loop of `compress_axis`, over the sorted distinct values. */
  method Number(t: seq<int>) returns (mapping: map<int, int>)
    requires Increasing(t) && t != []
    ensures forall y :: y in mapping <==> y in t
    ensures forall k {:trigger mapping[t[k]]} :: 0 <= k < |t| ==> t[k] in mapping && mapping[t[k]] == Position(t, k)
  {
    mapping := map[t[0] := 0];
    var idx := 1;
    for i := 1 to |t|
      invariant forall y :: y in mapping <==> y in t[..i]
      invariant forall k {:trigger mapping[t[k]]} :: 0 <= k < i ==> t[k] in mapping && mapping[t[k]] == Position(t, k)
      invariant idx == Position(t, i - 1) + 1
    {
      if t[i] > t[i - 1] + 1 {
        idx := idx + 1;
      }
      assert t[..i + 1] == t[..i] + [t[i]];
      assert t[i] !in t[..i];
      mapping := mapping[t[i] := idx];
      idx := idx + 1;
    }
    assert t[..|t|] == t;
  }

  /** No key of the mapping lies strictly between `y` and `z`. */
  predicate Adjacent(mapping: map<int, int>, y: int, z: int)
  {
    forall w :: w in mapping ==> !(y < w < z)
  }

  /** The facts `compress_axis` relies on, read off the positions: one pair of
      keys at a time. */
  lemma {:induction false} PairShape(t: seq<int>, mapping: map<int, int>, y: int, z: int)
    requires Increasing(t)
    requires forall w :: w in mapping <==> w in t
    requires forall k {:trigger mapping[t[k]]} :: 0 <= k < |t| ==> t[k] in mapping && mapping[t[k]] == Position(t, k)
    requires y in mapping && z in mapping && y < z
    ensures mapping[y] < mapping[z]
    ensures Adjacent(mapping, y, z) ==> mapping[z] == mapping[y] + (if z > y + 1 then 2 else 1)
  {
    assert y in t && z in t;
    var a :| 0 <= a < |t| && t[a] == y;
    var b :| 0 <= b < |t| && t[b] == z;
    assert a < b;
    PositionIncreases(t, a, b);
    if a + 1 < b {
      assert t[a + 1] in mapping && y < t[a + 1] < z;
      assert !Adjacent(mapping, y, z);
    }
  }

  lemma {:induction false} LeastShape(t: seq<int>, mapping: map<int, int>, y: int)
    requires Increasing(t) && t != []
    requires forall w :: w in mapping <==> w in t
    requires forall k {:trigger mapping[t[k]]} :: 0 <= k < |t| ==> t[k] in mapping && mapping[t[k]] == Position(t, k)
    requires y in mapping && forall z :: z in mapping ==> y <= z
    ensures mapping[y] == 0
  {
    assert y in t;
    var a :| 0 <= a < |t| && t[a] == y;
    assert t[0] in mapping;
    assert a == 0;
  }

  lemma CompressedOrder(t: seq<int>, mapping: map<int, int>)
    requires Increasing(t)
    requires forall y :: y in mapping <==> y in t
    requires forall k {:trigger mapping[t[k]]} :: 0 <= k < |t| ==> t[k] in mapping && mapping[t[k]] == Position(t, k)
    ensures forall y, z :: y in mapping && z in mapping && y < z ==> mapping[y] < mapping[z]
    ensures forall y, z :: y in mapping && z in mapping && y < z && Adjacent(mapping, y, z) ==>
              mapping[z] == mapping[y] + (if z > y + 1 then 2 else 1)
  {
    forall y, z | y in mapping && z in mapping && y < z
      ensures mapping[y] < mapping[z]
      ensures Adjacent(mapping, y, z) ==> mapping[z] == mapping[y] + (if z > y + 1 then 2 else 1)
    {
      PairShape(t, mapping, y, z);
    }
  }

  lemma CompressedLeast(t: seq<int>, mapping: map<int, int>)
    requires Increasing(t) && t != []
    requires forall y :: y in mapping <==> y in t
    requires forall k {:trigger mapping[t[k]]} :: 0 <= k < |t| ==> t[k] in mapping && mapping[t[k]] == Position(t, k)
    ensures forall y :: y in mapping && (forall z :: z in mapping ==> y <= z) ==> mapping[y] == 0
  {
    forall y | y in mapping && (forall z :: z in mapping ==> y <= z)
      ensures mapping[y] == 0
    {
      LeastShape(t, mapping, y);
    }
  }
}
