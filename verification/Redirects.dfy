/**
 * Redirect normalisation (apps/resync-worker/src/util.ts).
 *
 * A redirect table maps a loser's legacy id to a winner's. It is an arbitrary functional graph:
 * chains, tails leading into cycles, self loops. `FlattenRedirects` walks it in place; the
 * reference is `IsRepresentative`, which says in one line what an id stands for.
 */
module Redirects {
  import opened Prelude

  /** The node `k` hops from `x`; a node without an outgoing edge stays where it is. */
  ghost function Hop(raw: map<int, int>, x: int, k: nat): int {
    if k == 0 then x
    else
      var y := Hop(raw, x, k - 1);
      if y in raw then raw[y] else y
  }

  ghost predicate Reaches(raw: map<int, int>, x: int, y: int) {
    exists k: nat :: Hop(raw, x, k) == y
  }

  ghost predicate OnCycle(raw: map<int, int>, x: int) {
    x in raw && exists k: nat :: k > 0 && Hop(raw, x, k) == x
  }

  /** `t` is where `x` ends: the node with no outgoing edge, or the smallest node of the cycle. */
  ghost predicate IsRepresentative(raw: map<int, int>, x: int, t: int) {
    Reaches(raw, x, t) &&
    (t in raw ==> OnCycle(raw, t) && forall y :: Reaches(raw, t, y) ==> t <= y)
  }

  /** The reference result: losers are the raw keys that do not stand for themselves. */
  ghost predicate IsFlattening(raw: map<int, int>, flat: map<int, int>) {
    flat.Keys == (set x | x in raw && !IsRepresentative(raw, x, x)) &&
    forall x :: x in flat ==> IsRepresentative(raw, x, flat[x])
  }

  /** `redirect.get(id) ?? id` */
  function Resolve(redirect: map<int, int>, id: int): int {
    if id in redirect then redirect[id] else id
  }

  // ---- walking ----

  lemma {:induction false} HopAdd(raw: map<int, int>, x: int, i: nat, j: nat)
    ensures Hop(raw, x, i + j) == Hop(raw, Hop(raw, x, i), j)
  {
    if j > 0 {
      HopAdd(raw, x, i, j - 1);
      assert i + j - 1 == i + (j - 1);
    }
  }

  lemma {:induction false} HopStays(raw: map<int, int>, x: int, k: nat)
    requires x !in raw
    ensures Hop(raw, x, k) == x
  {
    if k > 0 { HopStays(raw, x, k - 1); }
  }

  lemma ReachesTransitive(raw: map<int, int>, x: int, y: int, z: int)
    requires Reaches(raw, x, y) && Reaches(raw, y, z)
    ensures Reaches(raw, x, z)
  {
    var i: nat :| Hop(raw, x, i) == y;
    var j: nat :| Hop(raw, y, j) == z;
    HopAdd(raw, x, i, j);
  }

  lemma {:induction false} CycleLaps(raw: map<int, int>, x: int, period: nat, laps: nat)
    requires Hop(raw, x, period) == x
    ensures Hop(raw, x, laps * period) == x
  {
    if laps > 0 {
      CycleLaps(raw, x, period, laps - 1);
      HopAdd(raw, x, (laps - 1) * period, period);
      assert (laps - 1) * period + period == laps * period;
    }
  }

  /** On a cycle there is always a way back. */
  lemma CycleReturns(raw: map<int, int>, t: int, y: int)
    requires OnCycle(raw, t) && Reaches(raw, t, y)
    ensures Reaches(raw, y, t)
  {
    var p: nat :| p > 0 && Hop(raw, t, p) == t;
    var k: nat :| Hop(raw, t, k) == y;
    CycleLaps(raw, t, p, k);
    assert k * p >= k by { LapCovers(k, p); }
    HopAdd(raw, t, k, k * p - k);
  }

  lemma LapCovers(k: nat, p: nat)
    requires p > 0
    ensures k * p >= k
  {
  }

  /** Two nodes reached from the same start are ordered along the walk. */
  lemma WalkIsLinear(raw: map<int, int>, x: int, a: int, b: int)
    requires Reaches(raw, x, a) && Reaches(raw, x, b)
    ensures Reaches(raw, a, b) || Reaches(raw, b, a)
  {
    var i: nat :| Hop(raw, x, i) == a;
    var j: nat :| Hop(raw, x, j) == b;
    if i <= j {
      HopAdd(raw, x, i, j - i);
    } else {
      HopAdd(raw, x, j, i - j);
    }
  }

  lemma RepresentativeUniqueFrom(raw: map<int, int>, a: int, b: int)
    requires IsRepresentative(raw, a, a) && IsRepresentative(raw, b, b)
    requires Reaches(raw, a, b)
    ensures a == b
  {
    if a !in raw {
      var k: nat :| Hop(raw, a, k) == b;
      HopStays(raw, a, k);
    } else {
      CycleReturns(raw, a, b);
      if b !in raw {
        var k: nat :| Hop(raw, b, k) == a;
        HopStays(raw, b, k);
      }
    }
  }

  lemma RepresentsItself(raw: map<int, int>, x: int, t: int)
    requires IsRepresentative(raw, x, t)
    ensures IsRepresentative(raw, t, t)
  {
    assert Hop(raw, t, 0) == t;
  }

  /** A node stands for exactly one node. */
  lemma RepresentativeUnique(raw: map<int, int>, x: int, a: int, b: int)
    requires IsRepresentative(raw, x, a) && IsRepresentative(raw, x, b)
    ensures a == b
  {
    RepresentsItself(raw, x, a);
    RepresentsItself(raw, x, b);
    WalkIsLinear(raw, x, a, b);
    if Reaches(raw, a, b) {
      RepresentativeUniqueFrom(raw, a, b);
    } else {
      RepresentativeUniqueFrom(raw, b, a);
    }
  }

  // ---- what the recorded path proves ----

  ghost predicate IsPath(raw: map<int, int>, path: seq<int>) {
    forall i :: 0 <= i < |path| - 1 ==> path[i] in raw && raw[path[i]] == path[i + 1]
  }

  lemma {:induction false} PathHop(raw: map<int, int>, path: seq<int>, i: nat, j: nat)
    requires IsPath(raw, path) && i <= j < |path|
    ensures Hop(raw, path[i], j - i) == path[j]
    decreases j
  {
    if i < j {
      PathHop(raw, path, i, j - 1);
      assert path[j - 1] in raw && raw[path[j - 1]] == path[(j - 1) + 1];
    }
  }

  lemma ChainRepresentative(raw: map<int, int>, path: seq<int>, k: nat)
    requires IsPath(raw, path) && k < |path|
    requires path[|path| - 1] !in raw
    ensures IsRepresentative(raw, path[k], path[|path| - 1])
  {
    PathHop(raw, path, k, |path| - 1);
  }

  lemma {:induction false} HopConfined(raw: map<int, int>, nodes: seq<int>, x: int, k: nat)
    requires forall y :: y in nodes ==> y in raw && raw[y] in nodes
    requires x in nodes
    ensures Hop(raw, x, k) in nodes
  {
    if k > 0 { HopConfined(raw, nodes, x, k - 1); }
  }

  /** `path` ran into its own node `path[s]`; `path[m]` is the smallest node from there on. */
  lemma CycleRepresentative(raw: map<int, int>, path: seq<int>, s: nat, m: nat, k: nat)
    requires IsPath(raw, path) && s <= m < |path| && k < |path|
    requires path[|path| - 1] in raw && raw[path[|path| - 1]] == path[s]
    requires forall i :: s <= i < |path| ==> path[m] <= path[i]
    ensures IsRepresentative(raw, path[k], path[m])
  {
    var last := |path| - 1;
    forall i: nat | i < |path|
      ensures Reaches(raw, path[i], path[s])
    {
      PathHop(raw, path, i, last);
      assert Hop(raw, path[i], last - i + 1) == path[s];
    }
    PathHop(raw, path, s, m);
    ReachesTransitive(raw, path[k], path[s], path[m]);
    // the cycle itself
    PathHop(raw, path, m, last);
    var there := last - m + 1;
    assert Hop(raw, path[m], there) == path[s];
    HopAdd(raw, path[m], there, m - s);
    assert there + (m - s) > 0;
    assert path[m] in raw by {
      if m < last { assert raw[path[m]] == path[m + 1]; }
    }
    assert OnCycle(raw, path[m]);
    var cycle := path[s..];
    forall y | y in cycle
      ensures y in raw && raw[y] in cycle
    {
      var i :| 0 <= i < |cycle| && cycle[i] == y;
      if s + i < last {
        assert raw[path[s + i]] == path[s + i + 1] == cycle[i + 1];
      } else {
        assert raw[y] == cycle[0];
      }
    }
    forall y | Reaches(raw, path[m], y)
      ensures path[m] <= y
    {
      var j: nat :| Hop(raw, path[m], j) == y;
      assert path[m] == cycle[m - s];
      HopConfined(raw, cycle, path[m], j);
    }
  }

  /** `Math.min(...nodes)`, with the place where it is found. */
  method SmallestAt(nodes: seq<int>) returns (at: nat)
    requires nodes != []
    ensures at < |nodes| && forall i :: 0 <= i < |nodes| ==> nodes[at] <= nodes[i]
  {
    at := 0;
    for i := 1 to |nodes|
      invariant at < |nodes| && forall j :: 0 <= j < i ==> nodes[at] <= nodes[j]
    {
      if nodes[i] < nodes[at] { at := i; }
    }
  }

  /** One walk from `start` to its end: the nodes passed and the node they all stand for. */
  method WalkFrom(raw: map<int, int>, start: int) returns (path: seq<int>, terminal: int)
    ensures start in path
    ensures forall x :: x in path ==> IsRepresentative(raw, x, terminal)
  {
    path := [];
    var at: map<int, nat> := map[];
    var current := start;
    while true
      invariant IsPath(raw, path + [current])
      invariant forall k :: 0 <= k < |path| ==> path[k] in at && at[path[k]] == k && path[k] in raw
      invariant forall x :: x in at ==> at[x] < |path| && path[at[x]] == x
      invariant path == [] ==> current == start
      invariant path != [] ==> path[0] == start
      decreases raw.Keys - at.Keys
    {
      if current in at {
        var s := at[current];
        var m := SmallestAt(path[s..]);
        terminal := path[s + m];
        assert forall i :: s <= i < |path| ==> path[i] == path[s..][i - s];
        assert (path + [current])[|path| - 1] == path[|path| - 1] && (path + [current])[|path|] == current;
        forall x | x in path
          ensures IsRepresentative(raw, x, terminal)
        {
          var k :| 0 <= k < |path| && path[k] == x;
          assert IsPath(raw, path) by {
            forall i | 0 <= i < |path| - 1
              ensures path[i] in raw && raw[path[i]] == path[i + 1]
            {
              assert (path + [current])[i] == path[i] && (path + [current])[i + 1] == path[i + 1];
            }
          }
          CycleRepresentative(raw, path, s, s + m, k);
        }
        return;
      }
      ghost var unseen := raw.Keys - at.Keys;
      at := at[current := |path|];
      path := path + [current];
      if current !in raw {
        terminal := current;
        forall x | x in path
          ensures IsRepresentative(raw, x, terminal)
        {
          var k :| 0 <= k < |path| && path[k] == x;
          ChainRepresentative(raw, path, k);
        }
        return;
      }
      assert current in unseen && current !in raw.Keys - at.Keys;
      current := raw[current];
    }
  }

  /** `order` is the iteration order of the raw map's keys. */
  method FlattenRedirects(raw: map<int, int>, order: seq<int>) returns (flat: map<int, int>)
    requires forall x :: x in order <==> x in raw
    ensures IsFlattening(raw, flat)
  {
    flat := map[];
    for i := 0 to |order|
      invariant forall j :: 0 <= j < i ==> order[j] in flat
      invariant forall x :: x in flat ==> IsRepresentative(raw, x, flat[x])
    {
      var start := order[i];
      if start in flat { continue; }
      var path, terminal := WalkFrom(raw, start);
      for j := 0 to |path|
        invariant forall k :: 0 <= k < j ==> path[k] in flat
        invariant forall k :: 0 <= k < i ==> order[k] in flat
        invariant forall x :: x in flat ==> IsRepresentative(raw, x, flat[x])
      {
        flat := flat[path[j] := terminal];
      }
    }
    assert forall x :: x in raw ==> x in flat;
    flat := DropSelfPointing(raw, flat);
  }

  /** The last loop: a winner is not a loser. */
  method DropSelfPointing(ghost raw: map<int, int>, all: map<int, int>) returns (flat: map<int, int>)
    requires forall x :: x in all ==> IsRepresentative(raw, x, all[x])
    requires forall x :: x in raw ==> x in all
    ensures IsFlattening(raw, flat)
  {
    flat := all;
    var todo := all.Keys;
    while todo != {}
      invariant todo <= all.Keys
      invariant forall x :: x in flat ==> x in all && flat[x] == all[x]
      invariant forall x :: x in all ==> (x in flat <==> x in todo || all[x] != x)
      decreases todo
    {
      var loser :| loser in todo;
      if all[loser] == loser { flat := flat - {loser}; }
      todo := todo - {loser};
    }
    forall x | x in all
      ensures x in flat <==> x in raw && !IsRepresentative(raw, x, x)
    {
      if x !in raw {
        var k: nat :| Hop(raw, x, k) == all[x];
        HopStays(raw, x, k);
      } else if IsRepresentative(raw, x, x) {
        RepresentativeUnique(raw, x, x, all[x]);
      }
    }
    var losers := set x | x in raw && !IsRepresentative(raw, x, x);
    assert forall x :: x in flat.Keys <==> x in losers;
  }

  // ---- what flattening gives every reader of the table ----

  /** The result does not depend on the order in which the map is iterated. */
  lemma FlatteningUnique(raw: map<int, int>, f: map<int, int>, g: map<int, int>)
    requires IsFlattening(raw, f) && IsFlattening(raw, g)
    ensures f == g
  {
    forall x | x in f
      ensures f[x] == g[x]
    {
      RepresentativeUnique(raw, x, f[x], g[x]);
    }
  }

  /** Every id, key or not, resolves to the node it stands for. */
  lemma ResolveIsRepresentative(raw: map<int, int>, flat: map<int, int>, x: int)
    requires IsFlattening(raw, flat)
    ensures IsRepresentative(raw, x, Resolve(flat, x))
  {
    assert Hop(raw, x, 0) == x;
    assert x !in flat ==> x !in raw || IsRepresentative(raw, x, x);
  }

  /** No value of the result is a key, so resolving twice is resolving once. */
  lemma ResolveIdempotent(raw: map<int, int>, flat: map<int, int>, x: int)
    requires IsFlattening(raw, flat)
    ensures Resolve(flat, x) !in flat
    ensures Resolve(flat, Resolve(flat, x)) == Resolve(flat, x)
  {
    if x in flat { RepresentsItself(raw, x, flat[x]); }
  }

  /** Both ends of a raw edge resolve to the same id. */
  lemma EdgeEndsAgree(raw: map<int, int>, flat: map<int, int>, x: int)
    requires IsFlattening(raw, flat) && x in raw
    ensures Resolve(flat, x) == Resolve(flat, raw[x])
  {
    var t := Resolve(flat, raw[x]);
    ResolveIsRepresentative(raw, flat, x);
    ResolveIsRepresentative(raw, flat, raw[x]);
    assert Hop(raw, x, 0) == x && Hop(raw, x, 1) == raw[x];
    ReachesTransitive(raw, x, raw[x], t);
    RepresentativeUnique(raw, x, Resolve(flat, x), t);
  }

  /** Two ids resolve alike exactly when some node is reachable from both. */
  lemma ResolveAlikeIffConnected(raw: map<int, int>, flat: map<int, int>, x: int, y: int)
    requires IsFlattening(raw, flat)
    ensures Resolve(flat, x) == Resolve(flat, y) <==> exists z :: Reaches(raw, x, z) && Reaches(raw, y, z)
  {
    var a, b := Resolve(flat, x), Resolve(flat, y);
    ResolveIsRepresentative(raw, flat, x);
    ResolveIsRepresentative(raw, flat, y);
    if z :| Reaches(raw, x, z) && Reaches(raw, y, z) {
      var c := Resolve(flat, z);
      ResolveIsRepresentative(raw, flat, z);
      ReachesTransitive(raw, x, z, c);
      ReachesTransitive(raw, y, z, c);
      RepresentativeUnique(raw, x, a, c);
      RepresentativeUnique(raw, y, b, c);
    }
  }

  /** A flat table is its own flattening. */
  lemma FlattenTwice(raw: map<int, int>, flat: map<int, int>)
    requires IsFlattening(raw, flat)
    ensures IsFlattening(flat, flat)
  {
    forall x | x in flat
      ensures IsRepresentative(flat, x, flat[x]) && !IsRepresentative(flat, x, x)
    {
      ResolveIdempotent(raw, flat, x);
      assert Hop(flat, x, 0) == x && Hop(flat, x, 1) == flat[x];
    }
  }
}
