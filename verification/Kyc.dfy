/**
 * Which legacy KYC row decides for a dedup cluster (syncers/kyc.ts): the affected ids are widened to
 * full clusters, read in chunks, reduced to the latest row per legacy member and folded per winner.
 */
module Kyc {
  import opened Prelude
  import opened Redirects

  datatype KycStatus = Approved | Rejected | Undecided

  datatype KycRow = KycRow(id: int, member: int, status: KycStatus, live: bool)

  /** An APPROVED/REJECTED row that is not soft-deleted. */
  predicate Decided(r: KycRow) { r.live && r.status != Undecided }

  /** A `Set` keeps its elements in insertion order. */
  function Add(s: seq<int>, x: int): (t: seq<int>)
    ensures forall y :: y in t <==> y in s || y == x
    ensures Distinct(s) ==> Distinct(t)
  {
    if x in s then s else s + [x]
  }

  function WithLoser(clusters: map<int, seq<int>>, winner: int, loser: int): (s: seq<int>)
    ensures forall x :: x in s <==> x == winner || x == loser || (winner in clusters && x in clusters[winner])
    ensures (winner in clusters ==> Distinct(clusters[winner])) ==> Distinct(s)
  {
    Add(Add(if winner in clusters then clusters[winner] else [], winner), loser)
  }

  /** `clusterMap`: winner to all legacy ids of its cluster, for winners that have losers. */
  method ClusterMap(redirect: map<int, int>, order: seq<int>) returns (clusters: map<int, seq<int>>)
    requires forall x :: x in order <==> x in redirect
    ensures IsClusterMap(redirect, order, clusters) && forall w :: w in clusters ==> Distinct(clusters[w])
  {
    clusters := map[];
    for i := 0 to |order|
      invariant IsClusterMap(redirect, order[..i], clusters)
      invariant forall w :: w in clusters ==> Distinct(clusters[w])
    {
      var loser := order[i];
      var winner := redirect[loser];
      var s := WithLoser(clusters, winner, loser);
      PrefixGrows(order, i);
      ClusterStep(redirect, order[..i], clusters, loser, s);
      clusters := clusters[winner := s];
    }
    assert order[..|order|] == order;
  }

  /** `x` is one of the losers and redirected to `w`. */
  predicate Leads(redirect: map<int, int>, losers: seq<int>, x: int, w: int) {
    x in losers && x in redirect && redirect[x] == w
  }

  ghost predicate HasLoser(redirect: map<int, int>, losers: seq<int>, w: int) {
    exists x :: Leads(redirect, losers, x, w)
  }

  /** The clusters formed by the redirects of `losers`. */
  ghost predicate IsClusterMap(redirect: map<int, int>, losers: seq<int>, clusters: map<int, seq<int>>) {
    (forall w :: w in clusters <==> HasLoser(redirect, losers, w)) &&
    forall w, x :: w in clusters ==> (x in clusters[w] <==> x == w || Leads(redirect, losers, x, w))
  }

  lemma OneMoreLoser(redirect: map<int, int>, losers: seq<int>, loser: int, w: int)
    requires loser in redirect
    ensures HasLoser(redirect, losers + [loser], w) <==> HasLoser(redirect, losers, w) || redirect[loser] == w
  {
    if redirect[loser] == w { assert Leads(redirect, losers + [loser], loser, w); }
    if x :| Leads(redirect, losers, x, w) { assert Leads(redirect, losers + [loser], x, w); }
    if x :| Leads(redirect, losers + [loser], x, w) { assert x == loser || Leads(redirect, losers, x, w); }
  }

  lemma ClusterStep(redirect: map<int, int>, losers: seq<int>, clusters: map<int, seq<int>>, loser: int, s: seq<int>)
    requires IsClusterMap(redirect, losers, clusters) && loser in redirect
    requires var w := redirect[loser];
      forall x :: x in s <==> x == w || x == loser || (w in clusters && x in clusters[w])
    ensures IsClusterMap(redirect, losers + [loser], clusters[redirect[loser] := s])
  {
    var more, after := losers + [loser], clusters[redirect[loser] := s];
    forall w
      ensures w in after <==> HasLoser(redirect, more, w)
    {
      OneMoreLoser(redirect, losers, loser, w);
    }
    forall w, x | w in after
      ensures x in after[w] <==> x == w || Leads(redirect, more, x, w)
    {
      assert Leads(redirect, more, x, w) <==> Leads(redirect, losers, x, w) || (x == loser && redirect[loser] == w);
      assert w !in clusters ==> !Leads(redirect, losers, x, w);
    }
  }

  function Cluster(clusters: map<int, seq<int>>, w: int): seq<int> {
    if w in clusters then clusters[w] else [w]
  }

  function Ids(s: seq<int>): set<int> { set m | m in s }

  /** `GROUP BY member_id` with `MAX(member_data_kyc_id)`, for one member. */
  function LatestOf(table: seq<KycRow>, member: int): (r: Option<KycRow>)
    ensures r.Some? ==> r.value in table && Decided(r.value) && r.value.member == member
    ensures r.Some? ==> forall x :: x in table && Decided(x) && x.member == member ==> x.id <= r.value.id
    ensures r.None? ==> forall x :: x in table && x.member == member ==> !Decided(x)
  {
    if table == [] then None
    else
      var rest := LatestOf(table[1..], member);
      var x := table[0];
      if !Decided(x) || x.member != member then rest
      else if rest.None? || x.id > rest.value.id then Some(x)
      else rest
  }

  // ---- the reference ----

  ghost predicate InCluster(redirect: map<int, int>, w: int, r: KycRow) {
    r.live && (r.status == Approved || r.status == Rejected) && Resolve(redirect, r.member) == w
  }

  /** The globally largest-id decided row over the winner and all its losers. */
  ghost predicate Authoritative(table: seq<KycRow>, redirect: map<int, int>, w: int, r: KycRow) {
    r in table && InCluster(redirect, w, r) && forall x :: x in table && InCluster(redirect, w, x) ==> x.id <= r.id
  }

  ghost predicate Affected(redirect: map<int, int>, changed: seq<int>, w: int) {
    exists c :: c in changed && Resolve(redirect, c) == w
  }

  /** One decision per affected, migrated winner that has any decided row, and it is the authoritative one. */
  ghost predicate RightDecisions(table: seq<KycRow>, redirect: map<int, int>, migrated: set<int>, changed: seq<int>,
                                 byWinner: map<int, KycRow>) {
    forall w :: Affected(redirect, changed, w) && w in migrated ==>
      (w in byWinner <==> exists x :: x in table && InCluster(redirect, w, x)) &&
      (w in byWinner ==> Authoritative(table, redirect, w, byWinner[w]))
  }

  // ---- the code ----

  /** `x` belongs to the cluster of a changed member. */
  ghost predicate Relevant(redirect: map<int, int>, clusters: map<int, seq<int>>, changed: seq<int>, x: int) {
    exists c :: c in changed && (x == Resolve(redirect, c) || x in Cluster(clusters, Resolve(redirect, c)))
  }

  /** Widens the changed members to the clusters of their winners. */
  method Widen(redirect: map<int, int>, clusters: map<int, seq<int>>, changed: seq<int>) returns (relevant: seq<int>)
    ensures forall x :: x in relevant <==> Relevant(redirect, clusters, changed, x)
  {
    relevant := [];
    for i := 0 to |changed|
      invariant forall x :: x in relevant <==> Relevant(redirect, clusters, changed[..i], x)
    {
      var winner := Resolve(redirect, changed[i]);
      assert changed[..i + 1] == changed[..i] + [changed[i]];
      RelevantStep(redirect, clusters, changed[..i], changed[i]);
      relevant := AddAll(Add(relevant, winner), Cluster(clusters, winner));
    }
    assert changed[..|changed|] == changed;
  }

  lemma RelevantStep(redirect: map<int, int>, clusters: map<int, seq<int>>, changed: seq<int>, c: int)
    ensures forall x :: Relevant(redirect, clusters, changed + [c], x) <==>
      Relevant(redirect, clusters, changed, x) || x == Resolve(redirect, c) ||
      x in Cluster(clusters, Resolve(redirect, c))
  {
    assert forall d :: d in changed + [c] <==> d in changed || d == c;
  }

  method AddAll(s: seq<int>, more: seq<int>) returns (t: seq<int>)
    ensures forall x :: x in t <==> x in s || x in more
  {
    t := s;
    for j := 0 to |more|
      invariant forall x :: x in t <==> x in s || x in more[..j]
    {
      t := Add(t, more[j]);
      assert more[..j + 1] == more[..j] + [more[j]];
    }
    assert more[..|more|] == more;
  }

  /** After the latest rows of the members in `seen`: each winner has the largest-id row among them. */
  ghost predicate Folded(table: seq<KycRow>, redirect: map<int, int>, migrated: set<int>, seen: set<int>,
      byWinner: map<int, KycRow>) {
    (forall w :: w in byWinner ==>
       w in migrated && byWinner[w] in table && InCluster(redirect, w, byWinner[w]) && byWinner[w].member in seen) &&
    forall x :: x in table && Decided(x) && x.member in seen && Resolve(redirect, x.member) in migrated ==>
      Resolve(redirect, x.member) in byWinner && x.id <= byWinner[Resolve(redirect, x.member)].id
  }

  /** The query's answer for a chunk of member ids: the latest row of each, in any order. */
  ghost predicate Answers(table: seq<KycRow>, chunk: seq<int>, rows: seq<KycRow>) {
    (forall r :: r in rows ==> r.member in chunk && LatestOf(table, r.member) == Some(r)) &&
    forall m :: m in chunk && LatestOf(table, m).Some? ==> LatestOf(table, m).value in rows
  }

  /** After some of the rows of a chunk: as after the members in `seen`, but for the members still to come. */
  ghost predicate FoldedBut(table: seq<KycRow>, redirect: map<int, int>, migrated: set<int>, seen: set<int>,
      toCome: seq<KycRow>, byWinner: map<int, KycRow>) {
    (forall w :: w in byWinner ==>
       w in migrated && byWinner[w] in table && InCluster(redirect, w, byWinner[w]) && byWinner[w].member in seen) &&
    forall x :: x in table && Decided(x) && x.member in seen && Resolve(redirect, x.member) in migrated ==>
      (Resolve(redirect, x.member) in byWinner && x.id <= byWinner[Resolve(redirect, x.member)].id) ||
      exists y :: y in toCome && y.member == x.member && x.id <= y.id
  }

  lemma FoldedButStep(table: seq<KycRow>, redirect: map<int, int>, migrated: set<int>, seen: set<int>, r: KycRow,
                      toCome: seq<KycRow>, byWinner: map<int, KycRow>)
    requires FoldedBut(table, redirect, migrated, seen, [r] + toCome, byWinner)
    requires r in table && Decided(r) && r.member in seen
    ensures FoldedBut(table, redirect, migrated, seen, toCome, AfterRow(redirect, migrated, byWinner, r))
  {
    var after := AfterRow(redirect, migrated, byWinner, r);
    forall x | x in table && Decided(x) && x.member in seen && Resolve(redirect, x.member) in migrated
      ensures (Resolve(redirect, x.member) in after && x.id <= after[Resolve(redirect, x.member)].id) ||
              exists y :: y in toCome && y.member == x.member && x.id <= y.id
    {
      if y :| y in [r] + toCome && y.member == x.member && x.id <= y.id {
        assert y == r || y in toCome;
      }
    }
  }

  function AfterRow(redirect: map<int, int>, migrated: set<int>, byWinner: map<int, KycRow>,
      r: KycRow): map<int, KycRow> {
    var winner := Resolve(redirect, r.member);
    if winner in migrated && (winner !in byWinner || r.id > byWinner[winner].id)
    then byWinner[winner := r] else byWinner
  }

  /** A chunk's answer holds, for each decided row of its members, one that is at least as late. */
  lemma ChunkToCome(table: seq<KycRow>, redirect: map<int, int>, migrated: set<int>, seen: set<int>, chunk: seq<int>,
                    rows: seq<KycRow>, byWinner: map<int, KycRow>)
    requires Folded(table, redirect, migrated, seen, byWinner) && Answers(table, chunk, rows)
    ensures FoldedBut(table, redirect, migrated, seen + Ids(chunk), rows, byWinner)
  {
    forall x | x in table && Decided(x) && x.member in chunk
      ensures exists y :: y in rows && y.member == x.member && x.id <= y.id
    {
      var y := LatestOf(table, x.member).value;
      assert y in rows && y.member == x.member && x.id <= y.id;
    }
  }

  /** Folds the rows of one chunk of member ids, in the order the query returns them. */
  method FoldChunk(table: seq<KycRow>, redirect: map<int, int>, migrated: set<int>, chunk: seq<int>, rows: seq<KycRow>,
                   ghost seen: set<int>, before: map<int, KycRow>)
    returns (byWinner: map<int, KycRow>)
    requires Folded(table, redirect, migrated, seen, before) && Answers(table, chunk, rows)
    ensures Folded(table, redirect, migrated, seen + Ids(chunk), byWinner)
  {
    byWinner := before;
    ghost var all := seen + Ids(chunk);
    ChunkToCome(table, redirect, migrated, seen, chunk, rows, before);
    assert rows[0..] == rows;
    for i := 0 to |rows|
      invariant FoldedBut(table, redirect, migrated, all, rows[i..], byWinner)
    {
      var r := rows[i];
      assert r in rows && rows[i..] == [r] + rows[i + 1..];
      FoldedButStep(table, redirect, migrated, all, r, rows[i + 1..], byWinner);
      var winner := Resolve(redirect, r.member);
      if winner in migrated && (winner !in byWinner || r.id > byWinner[winner].id) {
        byWinner := byWinner[winner := r];
      }
    }
  }

  /** What the database returns for a list of member ids. */
  type Query = seq<int> -> seq<KycRow>

  ghost predicate GoodQuery(table: seq<KycRow>, query: Query) {
    forall chunk :: Answers(table, chunk, query(chunk))
  }

  /** The whole selection; the chunk size is the length of the query's id list. */
  method SelectDecisions(table: seq<KycRow>, query: Query, redirect: map<int, int>, order: seq<int>,
                         migrated: set<int>, changed: seq<int>, chunkSize: nat)
    returns (byWinner: map<int, KycRow>)
    requires chunkSize > 0 && GoodQuery(table, query) && forall x :: x in order <==> x in redirect
    ensures RightDecisions(table, redirect, migrated, changed, byWinner)
    ensures (forall x :: x in redirect ==> redirect[x] !in redirect) ==>
      forall w :: w in byWinner ==> Affected(redirect, changed, w) && w in migrated
  {
    var clusters := ClusterMap(redirect, order);
    var ids := Widen(redirect, clusters, changed);
    byWinner := map[];
    var i := 0;
    while i < |ids|
      invariant Folded(table, redirect, migrated, Ids(ids[..Min(i, |ids|)]), byWinner)
      decreases |ids| - i
    {
      var end := Min(i + chunkSize, |ids|);
      assert ids[..end] == ids[..i] + ids[i..end];
      assert Ids(ids[..end]) == Ids(ids[..i]) + Ids(ids[i..end]);
      var chunk := ids[i..end];
      assert Answers(table, chunk, query(chunk));
      byWinner := FoldChunk(table, redirect, migrated, chunk, query(chunk), Ids(ids[..i]), byWinner);
      i := i + chunkSize;
    }
    assert ids[..|ids|] == ids;
    FoldedIsRight(table, redirect, order, clusters, migrated, changed, Ids(ids), byWinner);
  }

  /** Widening reaches every member of an affected cluster, so the fold over them is the global maximum. */
  lemma FoldedIsRight(table: seq<KycRow>, redirect: map<int, int>, order: seq<int>, clusters: map<int, seq<int>>,
                      migrated: set<int>, changed: seq<int>, relevant: set<int>, byWinner: map<int, KycRow>)
    requires IsClusterMap(redirect, order, clusters) && forall x :: x in order <==> x in redirect
    requires forall x :: x in relevant <==> Relevant(redirect, clusters, changed, x)
    requires Folded(table, redirect, migrated, relevant, byWinner)
    ensures RightDecisions(table, redirect, migrated, changed, byWinner)
    ensures (forall x :: x in redirect ==> redirect[x] !in redirect) ==>
      forall w :: w in byWinner ==> Affected(redirect, changed, w) && w in migrated
  {
    forall w, x | Affected(redirect, changed, w) && x in table && InCluster(redirect, w, x)
      ensures x.member in relevant
    {
      var c :| c in changed && Resolve(redirect, c) == w;
      if x.member in redirect {
        assert Leads(redirect, order, x.member, w);
        assert w in clusters;
        assert x.member in Cluster(clusters, Resolve(redirect, c));
      } else {
        assert x.member == Resolve(redirect, c);
      }
    }
    if forall x :: x in redirect ==> redirect[x] !in redirect {
      forall w | w in byWinner
        ensures Affected(redirect, changed, w)
      {
        var m := byWinner[w].member;
        var c :| c in changed && (m == Resolve(redirect, c) || m in Cluster(clusters, Resolve(redirect, c)));
        assert Resolve(redirect, m) == Resolve(redirect, c);
      }
    }
  }

  /** With unique row ids there is one right answer, whatever the chunk size or row order. */
  lemma AuthoritativeUnique(table: seq<KycRow>, redirect: map<int, int>, w: int, a: KycRow, b: KycRow)
    requires forall x, y :: x in table && y in table && x.id == y.id ==> x == y
    requires Authoritative(table, redirect, w, a) && Authoritative(table, redirect, w, b)
    ensures a == b
  {
  }
}
