/** The union-find structure of the junction-box puzzle (day 8): a forest stored in
    `parent`, cluster sizes stored at the roots in `size`, `find` with path
    compression and `union` by size, ties keeping the root of the first argument.

    The abstract state is a labelling: `rep[i]` is the representative of the
    cluster of element `i`. `Link` is what `union` does to that labelling. */
module DisjointSets {

  // ---------------------------------------------------------------------------
  // The abstract partition
  // ---------------------------------------------------------------------------

  /** Every element is labelled with an element whose own label is itself. */
  ghost predicate IsLabelling(rep: seq<int>)
  {
    forall i :: 0 <= i < |rep| ==> 0 <= rep[i] < |rep| && rep[rep[i]] == rep[i]
  }

  /** The initial state: every element is its own singleton cluster. */
  function Singletons(n: nat): seq<int>
  {
    seq(n, i => i)
  }

  ghost function Members(rep: seq<int>, r: int): set<int>
  {
    set i | 0 <= i < |rep| && rep[i] == r
  }

  /** The number of elements in the cluster represented by `r`. */
  ghost function Count(rep: seq<int>, r: int): nat
  {
    |Members(rep, r)|
  }

  /** The representatives, one per cluster. */
  ghost function Representatives(rep: seq<int>): set<int>
  {
    set r | 0 <= r < |rep| && rep[r] == r
  }

  /** Move every member of cluster `from` into cluster `to`. */
  function Relabel(rep: seq<int>, from: int, to: int): seq<int>
  {
    seq(|rep|, i requires 0 <= i < |rep| => if rep[i] == from then to else rep[i])
  }

  /** The effect of `union(x, y)` on the partition: nothing when `x` and `y` are
      already together; otherwise the smaller cluster joins the larger one, and on
      equal sizes the cluster of `y` joins the cluster of `x`. */
  ghost function Link(rep: seq<int>, x: int, y: int): seq<int>
    requires 0 <= x < |rep| && 0 <= y < |rep|
  {
    var xr, yr := rep[x], rep[y];
    if xr == yr then rep
    else if Count(rep, xr) < Count(rep, yr) then Relabel(rep, xr, yr)
    else Relabel(rep, yr, xr)
  }

  /** The set {0, ..., n - 1}. */
  function Range(n: nat): (s: set<int>)
    ensures forall r :: r in s <==> 0 <= r < n
  {
    if n == 0 then {} else Range(n - 1) + {n - 1}
  }

  lemma {:induction false} RangeSize(n: nat)
    ensures |Range(n)| == n
  {
    if n > 0 {
      RangeSize(n - 1);
      AddNew(Range(n - 1), n - 1);
    }
  }

  lemma AddNew(s: set<int>, x: int)
    requires x !in s
    ensures |s + {x}| == |s| + 1
  {
  }

  lemma SingletonsFacts(n: nat)
    ensures IsLabelling(Singletons(n))
    ensures forall r :: 0 <= r < n ==> Members(Singletons(n), r) == {r} && Count(Singletons(n), r) == 1
    ensures Representatives(Singletons(n)) == Range(n) && |Representatives(Singletons(n))| == n
  {
    RangeSize(n);
    SingletonRepresentatives(n);
    forall r | 0 <= r < n
      ensures Members(Singletons(n), r) == {r} && Count(Singletons(n), r) == 1
    {
      SingletonMembers(n, r);
    }
  }

  lemma SingletonRepresentatives(n: nat)
    ensures Representatives(Singletons(n)) == Range(n)
  {
    assert forall r :: r in Representatives(Singletons(n)) <==> r in Range(n);
  }

  lemma SingletonMembers(n: nat, r: int)
    requires 0 <= r < n
    ensures Members(Singletons(n), r) == {r} && Count(Singletons(n), r) == 1
  {
    assert Members(Singletons(n), r) == {r};
  }

  lemma RelabelMembers(rep: seq<int>, from: int, to: int, r: int)
    requires from != to
    ensures Members(Relabel(rep, from, to), r) ==
      if r == to then Members(rep, to) + Members(rep, from)
      else if r == from then {}
      else Members(rep, r)
  {
  }

  /** Merging two distinct clusters adds their sizes. */
  lemma RelabelCount(rep: seq<int>, from: int, to: int)
    requires from != to
    ensures Count(Relabel(rep, from, to), to) == Count(rep, to) + Count(rep, from)
    ensures forall r :: r != to && r != from ==> Count(Relabel(rep, from, to), r) == Count(rep, r)
  {
    RelabelMembers(rep, from, to, to);
    assert Members(rep, to) * Members(rep, from) == {};
    forall r | r != to && r != from
      ensures Count(Relabel(rep, from, to), r) == Count(rep, r)
    {
      RelabelMembers(rep, from, to, r);
    }
  }

  /** Merging two distinct clusters removes exactly one representative. */
  lemma RelabelRepresentatives(rep: seq<int>, from: int, to: int)
    requires IsLabelling(rep)
    requires 0 <= from < |rep| && rep[from] == from
    requires 0 <= to < |rep| && rep[to] == to && from != to
    ensures Representatives(Relabel(rep, from, to)) == Representatives(rep) - {from}
    ensures |Representatives(Relabel(rep, from, to))| == |Representatives(rep)| - 1
  {
    var after := Relabel(rep, from, to);
    forall r | 0 <= r < |rep|
      ensures (after[r] == r) <==> (rep[r] == r && r != from)
    {
    }
    assert Representatives(after) == Representatives(rep) - {from};
  }

  /** `Link` keeps the state a labelling and puts `x` and `y` in one cluster. */
  lemma LinkJoins(rep: seq<int>, x: int, y: int)
    requires IsLabelling(rep) && 0 <= x < |rep| && 0 <= y < |rep|
    ensures IsLabelling(Link(rep, x, y)) && |Link(rep, x, y)| == |rep|
    ensures Link(rep, x, y)[x] == Link(rep, x, y)[y]
  {
  }

  /** `Link` merges exactly the clusters of `x` and `y`: two elements end up
      together iff they were together already or they come from those two clusters. */
  lemma LinkClasses(rep: seq<int>, x: int, y: int, a: int, b: int)
    requires IsLabelling(rep) && 0 <= x < |rep| && 0 <= y < |rep|
    requires 0 <= a < |rep| && 0 <= b < |rep|
    ensures Link(rep, x, y)[a] == Link(rep, x, y)[b] <==>
      rep[a] == rep[b] || {rep[a], rep[b]} == {rep[x], rep[y]}
  {
    var after := Link(rep, x, y);
    if rep[x] != rep[y] {
      if after[a] == after[b] && rep[a] != rep[b] {
        assert {rep[a], rep[b]} == {rep[x], rep[y]};
      }
      if {rep[a], rep[b]} == {rep[x], rep[y]} {
        assert rep[a] == rep[x] || rep[a] == rep[y];
        assert rep[b] == rep[x] || rep[b] == rep[y];
      }
    }
  }

  /** Each `Link` either leaves the number of clusters alone (when `x` and `y`
      were together) or lowers it by exactly one. */
  lemma LinkRepresentatives(rep: seq<int>, x: int, y: int)
    requires IsLabelling(rep) && 0 <= x < |rep| && 0 <= y < |rep|
    ensures |Representatives(Link(rep, x, y))| ==
      |Representatives(rep)| - (if rep[x] != rep[y] then 1 else 0)
  {
    var xr, yr := rep[x], rep[y];
    if xr != yr {
      if Count(rep, xr) < Count(rep, yr) {
        RelabelRepresentatives(rep, xr, yr);
      } else {
        RelabelRepresentatives(rep, yr, xr);
      }
    }
  }

  // ---------------------------------------------------------------------------
  // The forest, on values
  // ---------------------------------------------------------------------------

  /** `parent` is a forest whose trees are the clusters of `root`: every chain of
      parents ends at the element's representative, `depth` strictly decreases
      along the chain (so it ends), and each root stores its cluster's size. */
  ghost predicate Forest(parent: seq<int>, size: seq<int>, root: seq<int>, depth: seq<nat>)
  {
    && |parent| == |root| && |size| == |root| && |depth| == |root|
    && IsLabelling(root)
    && (forall x :: 0 <= x < |root| ==> 0 <= parent[x] < |root|)
    && (forall x :: 0 <= x < |root| && parent[x] == x ==> root[x] == x && depth[x] == 0)
    && (forall x :: 0 <= x < |root| && parent[x] != x ==>
          root[parent[x]] == root[x] && depth[parent[x]] < depth[x])
    && (forall r :: 0 <= r < |root| && root[r] == r ==> parent[r] == r && size[r] == Count(root, r))
  }

  /** The elements `find(x)` visits: `x` and its ancestors up to its root. */
  ghost function Path(parent: seq<int>, size: seq<int>, root: seq<int>, depth: seq<nat>, x: int): (p: set<int>)
    requires Forest(parent, size, root, depth) && 0 <= x < |root|
    ensures x in p && root[x] in p
    ensures forall y :: y in p ==> 0 <= y < |root| && depth[y] <= depth[x] && root[y] == root[x]
    decreases depth[x]
  {
    if parent[x] == x then {x} else {x} + Path(parent, size, root, depth, parent[x])
  }

  /** Pointing any element straight at its representative keeps the forest. */
  lemma Compress(parent: seq<int>, size: seq<int>, root: seq<int>, depth: seq<nat>, x: int)
    requires Forest(parent, size, root, depth) && 0 <= x < |root|
    ensures Forest(parent[x := root[x]], size, root, depth)
  {
    var r := root[x];
    if parent[x] != x {
      assert r != x;
      assert parent[r] == r && depth[r] == 0;
    }
  }

  /** One more step on the way to the root for every member of cluster `l`. */
  ghost function Deepen(root: seq<int>, depth: seq<nat>, l: int): seq<nat>
    requires |root| == |depth|
  {
    seq(|depth|, i requires 0 <= i < |depth| => if root[i] == l then depth[i] + 1 else depth[i])
  }

  /** Hanging root `l` under root `w` and adding the sizes keeps the forest,
      with the partition merged as `Relabel` says. */
  lemma Hang(parent: seq<int>, size: seq<int>, root: seq<int>, depth: seq<nat>, w: int, l: int)
    requires Forest(parent, size, root, depth)
    requires 0 <= w < |root| && root[w] == w && 0 <= l < |root| && root[l] == l && w != l
    ensures Forest(parent[l := w], size[w := size[w] + size[l]], Relabel(root, l, w), Deepen(root, depth, l))
  {
    var root' := Relabel(root, l, w);
    assert IsLabelling(root');
    HangLinks(parent, size, root, depth, w, l);
    HangSizes(parent, size, root, depth, w, l);
  }

  /** After the hang every parent link still stays inside its cluster and
      climbs towards its root. */
  lemma HangLinks(parent: seq<int>, size: seq<int>, root: seq<int>, depth: seq<nat>, w: int, l: int)
    requires Forest(parent, size, root, depth)
    requires 0 <= w < |root| && root[w] == w && 0 <= l < |root| && root[l] == l && w != l
    ensures var root', parent', depth' := Relabel(root, l, w), parent[l := w], Deepen(root, depth, l);
      forall x :: 0 <= x < |root| && parent'[x] != x ==> root'[parent'[x]] == root'[x] && depth'[parent'[x]] < depth'[x]
  {
    var root' := Relabel(root, l, w);
    var parent' := parent[l := w];
    var depth' := Deepen(root, depth, l);
    forall x | 0 <= x < |root| && parent'[x] != x
      ensures root'[parent'[x]] == root'[x] && depth'[parent'[x]] < depth'[x]
    {
      if x == l {
        assert parent[w] == w && depth[w] == 0;
      }
    }
  }

  /** After the hang the remaining roots keep their parent and their size is
      the number of elements of their cluster. */
  lemma HangSizes(parent: seq<int>, size: seq<int>, root: seq<int>, depth: seq<nat>, w: int, l: int)
    requires Forest(parent, size, root, depth)
    requires 0 <= w < |root| && root[w] == w && 0 <= l < |root| && root[l] == l && w != l
    ensures var root', parent', size' := Relabel(root, l, w), parent[l := w], size[w := size[w] + size[l]];
      forall r :: 0 <= r < |root| && root'[r] == r ==> parent'[r] == r && size'[r] == Count(root', r)
  {
    var root' := Relabel(root, l, w);
    var parent' := parent[l := w];
    var size' := size[w := size[w] + size[l]];
    RelabelCount(root, l, w);
    forall r | 0 <= r < |root| && root'[r] == r
      ensures parent'[r] == r && size'[r] == Count(root', r)
    {
      assert r != l && root[r] == r;
    }
  }

  /** Every element its own root, every size 1: a forest of singletons. */
  lemma SingletonForest(n: nat)
    ensures Forest(seq(n, i => i), seq(n, i => 1), Singletons(n), seq(n, i => 0))
  {
    SingletonsFacts(n);
  }

  // ---------------------------------------------------------------------------
  // The structure itself
  // ---------------------------------------------------------------------------

  class DisjointSet {
    var parent: array<int>
    var size: array<int>
    /** The representative each element's parent chain ends at. */
    ghost var root: seq<int>
    /** An upper bound on the length of each element's parent chain. */
    ghost var depth: seq<nat>

    ghost predicate Valid()
      reads this, parent, size
    {
      parent != size && Forest(parent[..], size[..], root, depth)
    }

    /** Python's `parent = list(range(n))` and `size = [1] * n`. */
    constructor (n: nat)
      ensures Valid() && fresh(parent) && fresh(size)
      ensures root == Singletons(n)
      ensures forall x :: 0 <= x < n ==> parent[x] == x && size[x] == 1
    {
      parent := new int[n](i => i);
      size := new int[n](i => 1);
      root := Singletons(n);
      depth := seq(n, i => 0);
      new;
      SingletonForest(n);
      assert parent[..] == seq(n, i => i) && size[..] == seq(n, i => 1);
    }

    /** `find(x)`: returns the root of `x` and points every element on the way
        directly at it; nothing else changes, and the partition stays the same. */
    method Find(x: int) returns (r: int)
      requires Valid() && 0 <= x < |root|
      modifies parent
      ensures Valid()
      ensures r == root[x] && parent[r] == r
      ensures forall y :: 0 <= y < |root| ==>
        parent[y] == if y in old(Path(parent[..], size[..], root, depth, x)) then r else old(parent[y])
      decreases depth[x]
    {
      if parent[x] != x {
        r := Find(parent[x]);
        Compress(parent[..], size[..], root, depth, x);
        parent[x] := r;
      } else {
        r := x;
      }
    }

    /** Hang root `l` under root `w`, the step that merges two clusters. */
    method Attach(w: int, l: int)
      requires Valid()
      requires 0 <= w < |root| && root[w] == w && 0 <= l < |root| && root[l] == l && w != l
      modifies this, parent, size
      ensures Valid() && parent == old(parent) && size == old(size)
      ensures root == Relabel(old(root), l, w)
      ensures parent[l] == w && forall y :: 0 <= y < |root| && y != l ==> parent[y] == old(parent[y])
      ensures size[w] == old(size[w]) + old(size[l])
      ensures forall r :: 0 <= r < |root| && r != w ==> size[r] == old(size[r])
    {
      ghost var p0, s0, r0, d0 := parent[..], size[..], root, depth;
      var total := size[w] + size[l];
      parent[l] := w;
      size[w] := total;
      depth := Deepen(r0, d0, l);
      root := Relabel(r0, l, w);
      assert parent[..] == p0[l := w];
      assert size[..] == s0[w := total];
      Hang(p0, s0, r0, d0, w, l);
    }

    /** `union(x, y)`: false and no change to the partition or the sizes when `x`
        and `y` share a root; otherwise the smaller root is hung under the larger
        (the root of `x` survives a tie), the survivor's size becomes the sum, and
        the result is true. */
    method Union(x: int, y: int) returns (merged: bool)
      requires Valid() && 0 <= x < |root| && 0 <= y < |root|
      modifies this, parent, size
      ensures Valid() && parent == old(parent) && size == old(size)
      ensures merged <==> old(root[x]) != old(root[y])
      ensures root == Link(old(root), x, y)
      ensures !merged ==> forall r :: 0 <= r < |root| ==> size[r] == old(size[r])
      ensures merged ==>
        var xr, yr := old(root[x]), old(root[y]);
        var winner := if old(size[xr]) < old(size[yr]) then yr else xr;
        var loser := if old(size[xr]) < old(size[yr]) then xr else yr;
        && parent[loser] == winner
        && size[winner] == old(size[winner]) + old(size[loser])
        && forall r :: 0 <= r < |root| && r != winner ==> size[r] == old(size[r])
    {
      var xr := Find(x);
      var yr := Find(y);
      if xr == yr {
        return false;
      }
      assert size[xr] == Count(root, xr) && size[yr] == Count(root, yr);
      if size[xr] < size[yr] {
        xr, yr := yr, xr;
      }
      Attach(xr, yr);
      merged := true;
    }
  }
}
