/** The disjoint-set forest of scripts/migrate-members.ts: an array of parents, rewritten in place. */
module UnionFind {

  /**
   * `p` is a forest whose trees are the classes of `rep`: a parent is in the same class, and
   * `depth` decreases along every parent edge, so no chain is cyclic.
   */
  ghost predicate Forest(p: seq<nat>, rep: seq<nat>, depth: seq<nat>) {
    |rep| == |p| && |depth| == |p| &&
    (forall i :: 0 <= i < |p| ==> p[i] < |p|) &&
    (forall i :: 0 <= i < |p| ==> rep[i] < |p| && p[rep[i]] == rep[i]) &&
    forall i :: 0 <= i < |p| ==> if p[i] == i then rep[i] == i else depth[p[i]] < depth[i] && rep[p[i]] == rep[i]
  }

  /** The classes after joining the class of `a` to the class of `b`. */
  ghost function Joined(rep: seq<nat>, a: nat, b: nat): seq<nat>
    requires a < |rep| && b < |rep|
  {
    seq(|rep|, i requires 0 <= i < |rep| => if rep[i] == rep[a] then rep[b] else rep[i])
  }

  ghost function Deepened(rep: seq<nat>, depth: seq<nat>, a: nat, b: nat): seq<nat>
    requires |depth| == |rep| && a < |rep| && b < |rep|
  {
    seq(|rep|, i requires 0 <= i < |rep| => if rep[i] == a && a != b then depth[i] + depth[b] + 1 else depth[i])
  }

  /** The node reached by following `k` parents. */
  ghost function Ancestor(p: seq<nat>, x: nat, k: nat): (y: nat)
    requires x < |p| && forall i :: 0 <= i < |p| ==> p[i] < |p|
    ensures y < |p|
    decreases k
  {
    if k == 0 then x else Ancestor(p, p[x], k - 1)
  }

  /** The classes are those of the array itself: every parent chain arrives at its `rep` and stays. */
  lemma {:induction false} ChainEnds(p: seq<nat>, rep: seq<nat>, depth: seq<nat>, x: nat, k: nat)
    requires Forest(p, rep, depth) && x < |p|
    requires k >= depth[x]
    ensures Ancestor(p, x, k) == rep[x]
    decreases k
  {
    if p[x] == x {
      RootStays(p, x, k);
    } else {
      ChainEnds(p, rep, depth, p[x], k - 1);
    }
  }

  lemma {:induction false} RootStays(p: seq<nat>, x: nat, k: nat)
    requires forall i :: 0 <= i < |p| ==> p[i] < |p|
    requires x < |p| && p[x] == x
    ensures Ancestor(p, x, k) == x
  {
    if k > 0 { RootStays(p, x, k - 1); }
  }

  lemma HalvingKeepsForest(p: seq<nat>, rep: seq<nat>, depth: seq<nat>, x: nat)
    requires Forest(p, rep, depth) && x < |p| && p[x] != x
    ensures Forest(p[x := p[p[x]]], rep, depth)
  {
    var y := p[x];
    assert p[y] != y ==> depth[p[y]] < depth[y];
    assert rep[p[y]] == rep[x];
  }

  /** Hanging root `a` under root `b` merges exactly their two classes. */
  lemma LinkingJoins(p: seq<nat>, rep: seq<nat>, depth: seq<nat>, a: nat, b: nat)
    requires Forest(p, rep, depth) && a < |p| && b < |p|
    requires p[a] == a && p[b] == b
    ensures Forest(p[a := b], Joined(rep, a, b), Deepened(rep, depth, a, b))
  {
    assert rep[a] == a && rep[b] == b;
    var q, r, d := p[a := b], Joined(rep, a, b), Deepened(rep, depth, a, b);
    forall i | 0 <= i < |q|
      ensures if q[i] == i then r[i] == i else d[q[i]] < d[i] && r[q[i]] == r[i]
    {
      if i != a && p[i] != i {
        assert rep[p[i]] == rep[i];
      }
    }
    forall i | 0 <= i < |q|
      ensures r[i] < |q| && q[r[i]] == r[i]
    {
      assert p[rep[i]] == rep[i];
    }
  }

  class DSU {
    var p: array<nat>
    /** every element's representative: the root its parent chain ends at (see `ChainEnds`) */
    ghost var rep: seq<nat>
    ghost var depth: seq<nat>

    ghost predicate Valid()
      reads this, p
    {
      Forest(p[..], rep, depth)
    }

    constructor (n: nat)
      ensures Valid() && fresh(p)
      ensures |rep| == n && forall i :: 0 <= i < n ==> rep[i] == i
    {
      var parents := new nat[n];
      for i := 0 to n
        invariant forall j :: 0 <= j < i ==> parents[j] == j
      {
        parents[i] := i;
      }
      p := parents;
      rep := seq(n, i requires 0 <= i < n => i);
      depth := seq(n, _ => 0);
    }

    /** Path halving: rewrites parents on the way, moves no element to another class. */
    method Find(x: nat) returns (root: nat)
      requires Valid() && x < |rep|
      modifies p
      ensures Valid()
      ensures root == rep[x] && root < p.Length && p[root] == root
      ensures forall r :: 0 <= r < p.Length && old(p[r]) == r ==> p[r] == r
    {
      root := x;
      while p[root] != root
        invariant Valid() && root < |rep| && rep[root] == rep[x]
        invariant forall r :: 0 <= r < p.Length && old(p[r]) == r ==> p[r] == r
        decreases depth[root]
      {
        HalvingKeepsForest(p[..], rep, depth, root);
        ghost var before := p[..];
        p[root] := p[p[root]];
        assert p[..] == before[root := before[before[root]]];
        root := p[root];
      }
    }

    /** Merges exactly the two classes of `a` and `b`. */
    method Union(a: nat, b: nat)
      requires Valid() && a < |rep| && b < |rep|
      modifies p, this`rep, this`depth
      ensures Valid()
      ensures rep == Joined(old(rep), a, b)
    {
      var ra := Find(a);
      var rb := Find(b);
      LinkingJoins(p[..], rep, depth, ra, rb);
      ghost var before := p[..];
      p[ra] := rb;
      assert p[..] == before[ra := rb];
      assert Joined(rep, a, b) == Joined(rep, ra, rb);
      depth := Deepened(rep, depth, ra, rb);
      rep := Joined(rep, ra, rb);
    }
  }
}
