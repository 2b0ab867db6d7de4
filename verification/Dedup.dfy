/**
 * One-shot member dedup (scripts/migrate-members.ts): clusters by email through union-find, one
 * winner per cluster, a redirect for every loser, and one holder per phone number.
 *
 * The reference (`Winners`, `Settled`, `IsDedup`) is stated on the SET of members, so everything
 * proved against it is independent of the order in which members are read.
 */
module Dedup {
  import opened Prelude
  import opened UnionFind

  datatype Member = Member(
    memberId: int,
    email: Option<string>,
    phone: Option<string>,
    phoneCode: Option<string>,
    googleSub: Option<string>,
    appleSub: Option<string>,
    passwordAlgo: string,
    isDeleted: bool,
    hasEnroll: bool,
    loginCount: int,
    lastActive: int,
    isEmailVerified: bool,
    isPhoneVerified: bool,
    createdAt: int)

  /** A string that counts as present: neither null nor empty. */
  predicate Present(s: Option<string>) { s.Some? && s.value != "" }

  function Verified(m: Member): int {
    (if m.isEmailVerified then 1 else 0) + (if m.isPhoneVerified then 1 else 0)
  }

  predicate HasAuth(m: Member) {
    m.passwordAlgo != "social" || Present(m.googleSub) || Present(m.appleSub)
  }

  /** True if `a` is a better winner than `b`: eight keys, compared in this order. */
  predicate Better(a: Member, b: Member) {
    if a.isDeleted != b.isDeleted then !a.isDeleted
    else if a.hasEnroll != b.hasEnroll then a.hasEnroll
    else if a.loginCount != b.loginCount then a.loginCount > b.loginCount
    else if a.lastActive != b.lastActive then a.lastActive > b.lastActive
    else if Verified(a) != Verified(b) then Verified(a) > Verified(b)
    else if HasAuth(a) != HasAuth(b) then HasAuth(a)
    else if a.createdAt != b.createdAt then a.createdAt < b.createdAt
    else a.memberId < b.memberId
  }

  /**
   * The ranking of a member as eight numbers, smaller is better: alive, enrolled, many logins, active
   * lately, verified on as many channels as possible, able to log in, old, and then the lower id.
   */
  function Rank(m: Member): seq<int> {
    [if m.isDeleted then 1 else 0, if m.hasEnroll then 0 else 1, -m.loginCount, -m.lastActive,
     if m.isEmailVerified && m.isPhoneVerified then 0 else if m.isEmailVerified || m.isPhoneVerified then 1 else 2,
     if m.passwordAlgo == "social" && !Filled(m.googleSub) && !Filled(m.appleSub) then 1 else 0,
     m.createdAt, m.memberId]
  }

  predicate Filled(s: Option<string>) { s != None && s != Some("") }

  /** The first place where two sequences differ decides. */
  ghost predicate LexLess(a: seq<int>, b: seq<int>) {
    exists k :: 0 <= k < |a| && k < |b| && a[..k] == b[..k] && a[k] < b[k]
  }

  lemma BetterIsLess(a: Member, b: Member)
    requires Better(a, b)
    ensures LexLess(Rank(a), Rank(b))
  {
    var x, y := Rank(a), Rank(b);
    var k := if x[0] != y[0] then 0 else if x[1] != y[1] then 1 else if x[2] != y[2] then 2
      else if x[3] != y[3] then 3 else if x[4] != y[4] then 4 else if x[5] != y[5] then 5
      else if x[6] != y[6] then 6 else 7;
    assert x[..k] == y[..k] && x[k] < y[k];
  }

  lemma LessIsBetter(a: Member, b: Member)
    requires LexLess(Rank(a), Rank(b))
    ensures Better(a, b)
  {
    var x, y := Rank(a), Rank(b);
    var k :| 0 <= k < 8 && x[..k] == y[..k] && x[k] < y[k];
    assert forall i :: 0 <= i < k ==> x[i] == x[..k][i] == y[..k][i] == y[i];
    assert (k > 0 ==> x[0] == y[0]) && (k > 1 ==> x[1] == y[1]) && (k > 2 ==> x[2] == y[2]);
    assert (k > 3 ==> x[3] == y[3]) && (k > 4 ==> x[4] == y[4]) && (k > 5 ==> x[5] == y[5]);
    assert k > 6 ==> x[6] == y[6];
  }

  lemma BetterIsLexicographic(a: Member, b: Member)
    ensures Better(a, b) <==> LexLess(Rank(a), Rank(b))
  {
    if Better(a, b) { BetterIsLess(a, b); }
    if LexLess(Rank(a), Rank(b)) { LessIsBetter(a, b); }
  }

  /** Members with distinct ids are strictly and totally ordered. */
  lemma BetterIsStrictTotalOrder(a: Member, b: Member, c: Member)
    ensures !Better(a, a)
    ensures Better(a, b) ==> !Better(b, a)
    ensures a.memberId != b.memberId ==> Better(a, b) || Better(b, a)
    ensures Better(a, b) && Better(b, c) ==> Better(a, c)
  {
  }

  // ---- the reference, on sets ----

  ghost predicate DistinctIds(all: set<Member>) {
    forall a, b :: a in all && b in all && a.memberId == b.memberId ==> a == b
  }

  ghost predicate SameCluster(a: Member, b: Member) {
    a == b || (Present(a.email) && a.email == b.email)
  }

  ghost predicate IsWinner(all: set<Member>, m: Member) {
    m in all && forall x :: x in all && SameCluster(m, x) && x != m ==> Better(m, x)
  }

  ghost function Winners(all: set<Member>): set<Member> {
    set m | m in all && IsWinner(all, m)
  }

  ghost predicate KeepsPhone(ws: set<Member>, w: Member) {
    !Present(w.phone) || forall v :: v in ws && v.phone == w.phone && v != w ==> Better(w, v)
  }

  function WithoutPhone(w: Member): Member {
    w.(phone := None, phoneCode := None, isPhoneVerified := false)
  }

  /** A winner as it is inserted: without its phone if a better-ranked winner shares it. */
  ghost function Settled(ws: set<Member>, w: Member): (s: Member)
    ensures s.memberId == w.memberId && s.email == w.email
    ensures Present(s.phone) ==> s == w && KeepsPhone(ws, w)
  {
    if KeepsPhone(ws, w) then w else WithoutPhone(w)
  }

  /** `s` is `w` without a phone number, and otherwise the same. */
  predicate IsPhoneless(w: Member, s: Member) {
    s.phone == None && s.phoneCode == None && !s.isPhoneVerified &&
    s.memberId == w.memberId && s.email == w.email && s.googleSub == w.googleSub && s.appleSub == w.appleSub &&
    s.passwordAlgo == w.passwordAlgo && s.isDeleted == w.isDeleted && s.hasEnroll == w.hasEnroll &&
    s.loginCount == w.loginCount && s.lastActive == w.lastActive && s.isEmailVerified == w.isEmailVerified &&
    s.createdAt == w.createdAt
  }

  /** A winner ranked before `w` has its number. */
  ghost predicate OutrankedForPhone(all: set<Member>, w: Member) {
    Filled(w.phone) && exists v :: IsWinner(all, v) && v.phone == w.phone && Better(v, w)
  }

  lemma KeepsPhoneIff(all: set<Member>, w: Member)
    requires DistinctIds(all) && IsWinner(all, w)
    ensures KeepsPhone(Winners(all), w) <==> !OutrankedForPhone(all, w)
  {
    var ws := Winners(all);
    if Filled(w.phone) {
      forall v | IsWinner(all, v) && v.phone == w.phone && v != w
        ensures Better(v, w) <==> !Better(w, v)
      {
        BetterIsStrictTotalOrder(v, w, v);
      }
      BetterIsStrictTotalOrder(w, w, w);
      assert forall v :: v in ws <==> IsWinner(all, v);
    }
  }

  /** A winner is inserted phoneless if a better-ranked winner has its number, and whole otherwise. */
  lemma InsertedWholeOrPhoneless(all: set<Member>, winners: seq<Member>, redirect: map<int, int>, w: Member)
    returns (s: Member)
    requires DistinctIds(all) && IsDedup(all, winners, redirect) && IsWinner(all, w)
    ensures s in winners && if OutrankedForPhone(all, w) then IsPhoneless(w, s) else s == w
  {
    s := Settled(Winners(all), w);
    assert w in Winners(all);
    KeepsPhoneIff(all, w);
  }

  ghost predicate RedirectsTo(redirect: map<int, int>, loser: Member, winner: Member) {
    loser.memberId in redirect && redirect[loser.memberId] == winner.memberId
  }

  /** What a dedup of the set `all` must produce. */
  ghost predicate IsDedup(all: set<Member>, winners: seq<Member>, redirect: map<int, int>) {
    Distinct(winners) &&
    (forall w :: w in Winners(all) ==> Settled(Winners(all), w) in winners) &&
    (forall s :: s in winners ==> exists w :: w in Winners(all) && Settled(Winners(all), w) == s) &&
    (forall id :: id in redirect ==> exists m :: m in all && !IsWinner(all, m) && m.memberId == id) &&
    forall m, w :: m in all && IsWinner(all, w) && SameCluster(m, w) && m != w ==> RedirectsTo(redirect, m, w)
  }

  function Elements(members: seq<Member>): set<Member> { set m | m in members }

  ghost predicate DistinctMemberIds(members: seq<Member>) {
    forall i, j :: 0 <= i < j < |members| ==> members[i].memberId != members[j].memberId
  }

  // ---- the clustering loop ----

  /** After `i` members: two of them share a class iff they share an email. */
  ghost predicate Alike(members: seq<Member>, i: nat, a: nat, b: nat)
    requires a < |members| && b < |members|
  {
    a == b || (a < i && b < i && Present(members[a].email) && members[a].email == members[b].email)
  }

  ghost predicate Clustered(members: seq<Member>, rep: seq<nat>, i: nat) {
    |rep| == |members| &&
    forall a, b :: 0 <= a < |members| && 0 <= b < |members| ==> (rep[a] == rep[b] <==> Alike(members, i, a, b))
  }

  ghost predicate Indexed(members: seq<Member>, byEmail: map<string, nat>, i: nat)
    requires i <= |members|
  {
    (forall e :: e in byEmail ==> byEmail[e] < i && e != "" && members[byEmail[e]].email == Some(e)) &&
    forall j :: 0 <= j < i && Present(members[j].email) ==> members[j].email.value in byEmail
  }

  lemma JoinStep(members: seq<Member>, rep: seq<nat>, i: nat, e: nat)
    requires e < i < |members| && Clustered(members, rep, i)
    requires Present(members[i].email) && members[e].email == members[i].email
    ensures Clustered(members, Joined(rep, i, e), i + 1)
  {
    var r := Joined(rep, i, e);
    forall a, b | 0 <= a < |members| && 0 <= b < |members|
      ensures r[a] == r[b] <==> Alike(members, i + 1, a, b)
    {
      assert rep[a] == rep[b] <==> Alike(members, i, a, b);
      assert rep[a] == rep[i] <==> Alike(members, i, a, i);
      assert rep[b] == rep[i] <==> Alike(members, i, b, i);
      assert rep[a] == rep[e] <==> Alike(members, i, a, e);
      assert rep[b] == rep[e] <==> Alike(members, i, b, e);
    }
  }

  lemma FreshStep(members: seq<Member>, rep: seq<nat>, i: nat)
    requires i < |members| && Clustered(members, rep, i)
    requires forall j :: 0 <= j < i && Present(members[i].email) ==> members[j].email != members[i].email
    ensures Clustered(members, rep, i + 1)
  {
    forall a, b | 0 <= a < |members| && 0 <= b < |members|
      ensures rep[a] == rep[b] <==> Alike(members, i + 1, a, b)
    {
      assert Alike(members, i, a, b) <==> Alike(members, i + 1, a, b);
    }
  }

  lemma IndexStep(members: seq<Member>, byEmail: map<string, nat>, i: nat)
    requires i < |members| && Indexed(members, byEmail, i)
    ensures var email := members[i].email;
      Indexed(members, if Present(email) && email.value !in byEmail then byEmail[email.value := i] else byEmail, i + 1)
  {
  }

  method ClusterByEmail(members: seq<Member>) returns (dsu: DSU)
    ensures fresh(dsu) && fresh(dsu.p) && dsu.Valid()
    ensures Clustered(members, dsu.rep, |members|)
  {
    dsu := new DSU(|members|);
    var byEmail: map<string, nat> := map[];
    for i := 0 to |members|
      invariant fresh(dsu) && fresh(dsu.p) && dsu.Valid()
      invariant Indexed(members, byEmail, i)
      invariant Clustered(members, dsu.rep, i)
    {
      var email := members[i].email;
      IndexStep(members, byEmail, i);
      if Present(email) && email.value in byEmail {
        JoinStep(members, dsu.rep, i, byEmail[email.value]);
        dsu.Union(i, byEmail[email.value]);
      } else {
        FreshStep(members, dsu.rep, i);
        if Present(email) { byEmail := byEmail[email.value := i]; }
      }
    }
  }

  // ---- grouping ----

  /** `clusters` lists the first `n` indices, each under its representative. */
  ghost predicate Grouped(rep: seq<nat>, n: nat, roots: seq<nat>, clusters: map<nat, seq<nat>>)
    requires n <= |rep|
  {
    Distinct(roots) &&
    (forall r :: r in clusters <==> r in roots) &&
    (forall r :: r in clusters ==> clusters[r] != []) &&
    (forall r, k :: r in clusters && 0 <= k < |clusters[r]| ==> clusters[r][k] < n && rep[clusters[r][k]] == r) &&
    forall i :: 0 <= i < n ==> rep[i] in clusters && i in clusters[rep[i]]
  }

  lemma GroupStep(rep: seq<nat>, n: nat, roots: seq<nat>, clusters: map<nat, seq<nat>>,
                  after: seq<nat>, idxs: seq<nat>)
    requires n < |rep| && Grouped(rep, n, roots, clusters)
    requires idxs == if rep[n] in clusters then clusters[rep[n]] else []
    requires after == if rep[n] in clusters then roots else roots + [rep[n]]
    ensures Grouped(rep, n + 1, after, clusters[rep[n] := idxs + [n]])
  {
    var c := clusters[rep[n] := idxs + [n]];
    forall r
      ensures r in c <==> r in after
    {
      assert r in roots ==> r in after;
    }
    forall i | 0 <= i < n + 1
      ensures rep[i] in c && i in c[rep[i]]
    {
      if i == n {
        assert (idxs + [n])[|idxs|] == n;
      } else {
        var k :| 0 <= k < |clusters[rep[i]]| && clusters[rep[i]][k] == i;
        assert c[rep[i]][k] == i;
      }
    }
    forall r, k | r in c && 0 <= k < |c[r]|
      ensures c[r][k] < n + 1 && rep[c[r][k]] == r
    {
      if r == rep[n] && k < |idxs| { assert c[r][k] == clusters[r][k]; }
    }
  }

  /** The indices of each class, under its root, in reading order. */
  method GroupByRoot(dsu: DSU, n: nat) returns (roots: seq<nat>, clusters: map<nat, seq<nat>>)
    requires dsu.Valid() && |dsu.rep| == n
    modifies dsu.p
    ensures dsu.Valid()
    ensures Grouped(dsu.rep, n, roots, clusters)
  {
    roots, clusters := [], map[];
    for i := 0 to n
      invariant dsu.Valid()
      invariant Grouped(dsu.rep, i, roots, clusters)
    {
      var root := dsu.Find(i);
      var idxs := if root in clusters then clusters[root] else [];
      var after := if root in clusters then roots else roots + [root];
      GroupStep(dsu.rep, i, roots, clusters, after, idxs);
      roots, clusters := after, clusters[root := idxs + [i]];
    }
  }

  // ---- picking winners ----

  ghost predicate BestIn(members: seq<Member>, idxs: seq<nat>, n: nat, win: nat)
    requires n <= |idxs| && win < |members|
    requires forall k :: 0 <= k < |idxs| ==> idxs[k] < |members|
  {
    forall k :: 0 <= k < n && idxs[k] != win ==> Better(members[win], members[idxs[k]])
  }

  lemma BestStep(members: seq<Member>, idxs: seq<nat>, n: nat, win: nat)
    requires DistinctMemberIds(members)
    requires forall k :: 0 <= k < |idxs| ==> idxs[k] < |members|
    requires n < |idxs| && win < |members| && BestIn(members, idxs, n, win)
    ensures BestIn(members, idxs, n + 1, if Better(members[idxs[n]], members[win]) then idxs[n] else win)
  {
    var c := idxs[n];
    if Better(members[c], members[win]) {
      forall k | 0 <= k < n && idxs[k] != c
        ensures Better(members[c], members[idxs[k]])
      {
        BetterIsStrictTotalOrder(members[c], members[win], members[idxs[k]]);
      }
    } else if c != win {
      BetterIsStrictTotalOrder(members[c], members[win], members[c]);
    }
  }

  method BestOf(members: seq<Member>, idxs: seq<nat>) returns (win: nat)
    requires DistinctMemberIds(members)
    requires idxs != [] && forall k :: 0 <= k < |idxs| ==> idxs[k] < |members|
    ensures win in idxs && win < |members|
    ensures BestIn(members, idxs, |idxs|, win)
  {
    win := idxs[0];
    for k := 0 to |idxs|
      invariant win in idxs && win < |members| && BestIn(members, idxs, k, win)
    {
      BestStep(members, idxs, k, win);
      if Better(members[idxs[k]], members[win]) {
        win := idxs[k];
      }
    }
  }

  /** `wins` gives the winning index of each class handled so far. */
  ghost predicate Chosen(members: seq<Member>, rep: seq<nat>, wins: map<nat, nat>) {
    |rep| == |members| &&
    (forall r :: r in wins ==> wins[r] < |members| && rep[wins[r]] == r) &&
    forall i :: 0 <= i < |members| && rep[i] in wins && i != wins[rep[i]] ==>
      Better(members[wins[rep[i]]], members[i])
  }

  /** Exactly the beaten members of the classes handled so far are redirected, each to its winner. */
  ghost predicate Routed(members: seq<Member>, rep: seq<nat>, wins: map<nat, nat>, redirect: map<int, int>)
    requires Chosen(members, rep, wins)
  {
    (forall id :: id in redirect ==>
       exists i :: 0 <= i < |members| && members[i].memberId == id && rep[i] in wins && i != wins[rep[i]]) &&
    forall i :: 0 <= i < |members| && rep[i] in wins && i != wins[rep[i]] ==>
      members[i].memberId in redirect && redirect[members[i].memberId] == members[wins[rep[i]]].memberId
  }

  function LoserMap(members: seq<Member>, idxs: seq<nat>, n: nat, win: nat): (m: map<int, int>)
    requires n <= |idxs| && win < |members|
    requires forall k :: 0 <= k < |idxs| ==> idxs[k] < |members|
  {
    map k | 0 <= k < n && idxs[k] != win :: members[idxs[k]].memberId := members[win].memberId
  }

  method RedirectLosers(members: seq<Member>, idxs: seq<nat>, win: nat, before: map<int, int>)
    returns (redirect: map<int, int>)
    requires win < |members| && forall k :: 0 <= k < |idxs| ==> idxs[k] < |members|
    ensures redirect == before + LoserMap(members, idxs, |idxs|, win)
  {
    redirect := before;
    for k := 0 to |idxs|
      invariant redirect == before + LoserMap(members, idxs, k, win)
    {
      LoserMapStep(members, idxs, k, win, before);
      if idxs[k] != win {
        redirect := redirect[members[idxs[k]].memberId := members[win].memberId];
      }
    }
  }

  lemma LoserMapStep(members: seq<Member>, idxs: seq<nat>, k: nat, win: nat, before: map<int, int>)
    requires k < |idxs| && win < |members| && forall k :: 0 <= k < |idxs| ==> idxs[k] < |members|
    ensures before + LoserMap(members, idxs, k + 1, win) ==
      if idxs[k] == win then before + LoserMap(members, idxs, k, win)
      else (before + LoserMap(members, idxs, k, win))[members[idxs[k]].memberId := members[win].memberId]
  {
    var m, m' := LoserMap(members, idxs, k, win), LoserMap(members, idxs, k + 1, win);
    var w := members[win].memberId;
    if idxs[k] == win {
      assert m' == m;
    } else {
      assert m' == m[members[idxs[k]].memberId := w];
    }
  }

  lemma ChooseStep(members: seq<Member>, rep: seq<nat>, wins: map<nat, nat>, r: nat, idxs: seq<nat>, win: nat)
    requires Chosen(members, rep, wins) && r !in wins
    requires forall k :: 0 <= k < |idxs| ==> idxs[k] < |members| && rep[idxs[k]] == r
    requires forall i :: 0 <= i < |members| && rep[i] == r ==> i in idxs
    requires win in idxs && win < |members| && BestIn(members, idxs, |idxs|, win)
    ensures Chosen(members, rep, wins[r := win])
  {
    forall i | 0 <= i < |members| && rep[i] == r && i != win
      ensures Better(members[win], members[i])
    {
      var k :| 0 <= k < |idxs| && idxs[k] == i;
    }
  }

  /** What `RedirectLosers` adds, id by id. */
  lemma LoserMapSays(members: seq<Member>, idxs: seq<nat>, win: nat, i: nat)
    requires DistinctMemberIds(members) && win < |members| && i < |members|
    requires forall k :: 0 <= k < |idxs| ==> idxs[k] < |members|
    ensures members[i].memberId in LoserMap(members, idxs, |idxs|, win) <==> i in idxs && i != win
  {
    var ls := LoserMap(members, idxs, |idxs|, win);
    if members[i].memberId in ls {
      var k :| 0 <= k < |idxs| && idxs[k] != win && members[idxs[k]].memberId == members[i].memberId;
      assert idxs[k] == i;
    }
    if i in idxs && i != win {
      var k :| 0 <= k < |idxs| && idxs[k] == i;
      assert members[idxs[k]].memberId in ls;
    }
  }

  lemma RouteStep(members: seq<Member>, rep: seq<nat>, wins: map<nat, nat>, redirect: map<int, int>,
                  r: nat, idxs: seq<nat>, win: nat)
    requires DistinctMemberIds(members) && win < |members|
    requires Chosen(members, rep, wins) && r !in wins && Chosen(members, rep, wins[r := win])
    requires Routed(members, rep, wins, redirect)
    requires forall k :: 0 <= k < |idxs| ==> idxs[k] < |members| && rep[idxs[k]] == r
    requires forall i :: 0 <= i < |members| && rep[i] == r ==> i in idxs
    ensures Routed(members, rep, wins[r := win], redirect + LoserMap(members, idxs, |idxs|, win))
  {
    var ls := LoserMap(members, idxs, |idxs|, win);
    var after := redirect + ls;
    forall i | 0 <= i < |members| && rep[i] in wins[r := win] && i != wins[r := win][rep[i]]
      ensures members[i].memberId in after &&
        after[members[i].memberId] == members[wins[r := win][rep[i]]].memberId
    {
      LoserMapSays(members, idxs, win, i);
    }
    forall id | id in after
      ensures (exists i :: 0 <= i < |members| && members[i].memberId == id &&
                 rep[i] in wins[r := win] && i != wins[r := win][rep[i]])
    {
      LoserOrigin(members, rep, wins, redirect, r, idxs, win, id);
    }
  }

  lemma LoserOrigin(members: seq<Member>, rep: seq<nat>, wins: map<nat, nat>, redirect: map<int, int>,
                    r: nat, idxs: seq<nat>, win: nat, id: int)
    requires Chosen(members, rep, wins) && r !in wins && win < |members|
    requires Routed(members, rep, wins, redirect)
    requires forall k :: 0 <= k < |idxs| ==> idxs[k] < |members| && rep[idxs[k]] == r
    requires id in redirect || id in LoserMap(members, idxs, |idxs|, win)
    ensures exists i :: 0 <= i < |members| && members[i].memberId == id &&
              (rep[i] in wins[r := win] && i != wins[r := win][rep[i]])
  {
    if id in redirect {
      var i :| 0 <= i < |members| && members[i].memberId == id && rep[i] in wins && i != wins[rep[i]];
      assert rep[i] != r;
    } else {
      var k :| 0 <= k < |idxs| && idxs[k] != win && members[idxs[k]].memberId == id;
      assert rep[idxs[k]] == r;
    }
  }

  /** The state of the third loop after the classes in `done`. */
  ghost predicate Picked(members: seq<Member>, rep: seq<nat>, done: seq<nat>, winners: seq<Member>,
                         redirect: map<int, int>, wins: map<nat, nat>)
  {
    Chosen(members, rep, wins) && Routed(members, rep, wins, redirect) && PickedIn(members, done, winners, wins)
  }

  ghost predicate PickedIn(members: seq<Member>, done: seq<nat>, winners: seq<Member>, wins: map<nat, nat>) {
    (forall r :: r in wins <==> r in done) && |winners| == |done| &&
    forall j :: 0 <= j < |done| ==> wins[done[j]] < |members| && winners[j] == members[wins[done[j]]]
  }

  lemma PickedInStep(members: seq<Member>, done: seq<nat>, winners: seq<Member>, wins: map<nat, nat>, r: nat, win: nat)
    requires PickedIn(members, done, winners, wins) && r !in done && win < |members|
    ensures PickedIn(members, done + [r], winners + [members[win]], wins[r := win])
  {
    forall j | 0 <= j < |done|
      ensures done[j] != r
    {
      assert done[j] in done;
    }
  }

  /** A class none of whose members is in a class before it. */
  ghost predicate IsClass(members: seq<Member>, rep: seq<nat>, r: nat, idxs: seq<nat>) {
    |rep| == |members| && idxs != [] &&
    (forall k :: 0 <= k < |idxs| ==> idxs[k] < |members| && rep[idxs[k]] == r) &&
    forall i :: 0 <= i < |members| && rep[i] == r ==> i in idxs
  }

  lemma GroupIsClass(members: seq<Member>, rep: seq<nat>, roots: seq<nat>, clusters: map<nat, seq<nat>>, k: nat)
    requires |rep| == |members| && Grouped(rep, |members|, roots, clusters) && k < |roots|
    ensures roots[k] in clusters && IsClass(members, rep, roots[k], clusters[roots[k]])
    ensures roots[k] !in roots[..k]
  {
    assert roots[k] in roots;
  }

  lemma PickRoutes(members: seq<Member>, rep: seq<nat>, r: nat, idxs: seq<nat>, redirect: map<int, int>,
                   wins: map<nat, nat>, win: nat)
    requires DistinctMemberIds(members) && IsClass(members, rep, r, idxs) && r !in wins
    requires Chosen(members, rep, wins) && Routed(members, rep, wins, redirect)
    requires win in idxs && win < |members| && BestIn(members, idxs, |idxs|, win)
    ensures Chosen(members, rep, wins[r := win])
    ensures Routed(members, rep, wins[r := win], redirect + LoserMap(members, idxs, |idxs|, win))
  {
    ChooseStep(members, rep, wins, r, idxs, win);
    RouteStep(members, rep, wins, redirect, r, idxs, win);
  }

  lemma PickStep(members: seq<Member>, rep: seq<nat>, done: seq<nat>, r: nat, idxs: seq<nat>, winners: seq<Member>,
                 redirect: map<int, int>, wins: map<nat, nat>, win: nat)
    requires DistinctMemberIds(members) && IsClass(members, rep, r, idxs) && r !in done
    requires Picked(members, rep, done, winners, redirect, wins)
    requires win in idxs && win < |members| && BestIn(members, idxs, |idxs|, win)
    ensures Picked(members, rep, done + [r], winners + [members[win]],
              redirect + LoserMap(members, idxs, |idxs|, win), wins[r := win])
  {
    PickRoutes(members, rep, r, idxs, redirect, wins, win);
    PickedInStep(members, done, winners, wins, r, win);
  }

  /** One winner per class in the order of `roots`, every other member redirected to it. */
  method PickWinners(members: seq<Member>, ghost rep: seq<nat>, roots: seq<nat>, clusters: map<nat, seq<nat>>)
    returns (winners: seq<Member>, redirect: map<int, int>, ghost wins: map<nat, nat>)
    requires DistinctMemberIds(members) && |rep| == |members|
    requires Grouped(rep, |members|, roots, clusters)
    ensures Picked(members, rep, roots, winners, redirect, wins)
  {
    winners, redirect, wins := [], map[], map[];
    for k := 0 to |roots|
      invariant Picked(members, rep, roots[..k], winners, redirect, wins)
    {
      GroupIsClass(members, rep, roots, clusters, k);
      var idxs := clusters[roots[k]];
      var win := BestOf(members, idxs);
      PickStep(members, rep, roots[..k], roots[k], idxs, winners, redirect, wins, win);
      PrefixGrows(roots, k);
      winners := winners + [members[win]];
      redirect := RedirectLosers(members, idxs, win, redirect);
      wins := wins[roots[k] := win];
    }
    assert roots[..|roots|] == roots;
  }

  lemma ClassIsCluster(members: seq<Member>, rep: seq<nat>, i: nat, j: nat)
    requires DistinctMemberIds(members) && Clustered(members, rep, |members|)
    requires i < |members| && j < |members|
    ensures rep[i] == rep[j] <==> SameCluster(members[i], members[j])
  {
    assert rep[i] == rep[j] <==> Alike(members, |members|, i, j);
  }

  /** An index chosen in its class is a winner of the set of members, and no other index is. */
  lemma ChosenIsWinner(members: seq<Member>, rep: seq<nat>, wins: map<nat, nat>, i: nat)
    requires DistinctMemberIds(members) && Clustered(members, rep, |members|)
    requires Chosen(members, rep, wins) && i < |members| && rep[i] in wins
    ensures IsWinner(Elements(members), members[i]) <==> i == wins[rep[i]]
  {
    var all := Elements(members);
    var w := wins[rep[i]];
    ClassIsCluster(members, rep, i, w);
    if i == w {
      forall x | x in all && SameCluster(members[i], x) && x != members[i]
        ensures Better(members[i], x)
      {
        var j :| 0 <= j < |members| && members[j] == x;
        ClassIsCluster(members, rep, i, j);
      }
    } else {
      assert members[w] in all && Better(members[w], members[i]);
      BetterIsStrictTotalOrder(members[i], members[w], members[i]);
    }
  }

  lemma PickedAreWinners(members: seq<Member>, rep: seq<nat>, roots: seq<nat>, wins: map<nat, nat>,
      winners: seq<Member>)
    requires DistinctMemberIds(members) && Clustered(members, rep, |members|)
    requires Chosen(members, rep, wins) && Distinct(roots) && wins.Keys == (set r | r in roots)
    requires forall i :: 0 <= i < |members| ==> rep[i] in roots
    requires |winners| == |roots| && forall k :: 0 <= k < |roots| ==> winners[k] == members[wins[roots[k]]]
    ensures Elements(winners) == Winners(Elements(members))
    ensures DistinctMemberIds(winners)
  {
    var all := Elements(members);
    forall m | m in Winners(all)
      ensures m in winners
    {
      var i :| 0 <= i < |members| && members[i] == m;
      ChosenIsWinner(members, rep, wins, i);
      var k :| 0 <= k < |roots| && roots[k] == rep[i];
      assert winners[k] == m;
    }
    forall k | 0 <= k < |winners|
      ensures winners[k] in Winners(all)
    {
      ChosenIsWinner(members, rep, wins, wins[roots[k]]);
    }
    forall a, b | 0 <= a < b < |winners|
      ensures winners[a].memberId != winners[b].memberId
    {
      assert wins[roots[a]] != wins[roots[b]];
    }
  }

  lemma RoutedIsRedirect(members: seq<Member>, rep: seq<nat>, wins: map<nat, nat>, redirect: map<int, int>)
    requires DistinctMemberIds(members) && Clustered(members, rep, |members|)
    requires Chosen(members, rep, wins) && Routed(members, rep, wins, redirect)
    requires forall i :: 0 <= i < |members| ==> rep[i] in wins
    ensures forall id :: id in redirect ==>
      exists m :: m in Elements(members) && !IsWinner(Elements(members), m) && m.memberId == id
    ensures forall m, w :: m in Elements(members) && IsWinner(Elements(members), w) && SameCluster(m, w) && m != w ==>
      RedirectsTo(redirect, m, w)
  {
    var all := Elements(members);
    forall id | id in redirect
      ensures exists m :: m in all && !IsWinner(all, m) && m.memberId == id
    {
      var i :| 0 <= i < |members| && members[i].memberId == id && rep[i] in wins && i != wins[rep[i]];
      ChosenIsWinner(members, rep, wins, i);
      assert members[i] in all;
    }
    forall m, w | m in all && IsWinner(all, w) && SameCluster(m, w) && m != w
      ensures RedirectsTo(redirect, m, w)
    {
      var i :| 0 <= i < |members| && members[i] == m;
      var j :| 0 <= j < |members| && members[j] == w;
      ClassIsCluster(members, rep, i, j);
      ChosenIsWinner(members, rep, wins, j);
    }
  }

  // ---- phones ----

  /** After `n` winners, `holder` knows the best of them for every number. */
  ghost predicate HoldsBest(winners: seq<Member>, n: nat, holder: map<string, nat>)
    requires n <= |winners|
  {
    (forall p :: p in holder ==> holder[p] < n && p != "" && winners[holder[p]].phone == Some(p)) &&
    forall j :: 0 <= j < n && Present(winners[j].phone) ==>
      winners[j].phone.value in holder &&
      (holder[winners[j].phone.value] == j || Better(winners[holder[winners[j].phone.value]], winners[j]))
  }

  lemma HolderStep(winners: seq<Member>, n: nat, holder: map<string, nat>)
    requires DistinctMemberIds(winners) && n < |winners| && HoldsBest(winners, n, holder)
    requires Present(winners[n].phone)
    ensures var p := winners[n].phone.value;
      HoldsBest(winners, n + 1,
        if p !in holder || Better(winners[n], winners[holder[p]]) then holder[p := n] else holder)
  {
    var p := winners[n].phone.value;
    if p in holder {
      var cur := winners[holder[p]];
      forall j | 0 <= j < n && winners[j].phone == Some(p)
        ensures Better(winners[n], cur) ==> Better(winners[n], winners[j])
      {
        BetterIsStrictTotalOrder(winners[n], cur, winners[j]);
      }
      BetterIsStrictTotalOrder(winners[n], cur, cur);
    }
  }

  lemma HolderSkips(winners: seq<Member>, n: nat, holder: map<string, nat>)
    requires n < |winners| && HoldsBest(winners, n, holder) && !Present(winners[n].phone)
    ensures HoldsBest(winners, n + 1, holder)
  {
  }

  /** The winners inserted so far. */
  ghost predicate SettledSoFar(winners: seq<Member>, out: seq<Member>) {
    |out| <= |winners| && forall i :: 0 <= i < |out| ==> out[i] == Settled(Elements(winners), winners[i])
  }

  lemma SettledOneMore(winners: seq<Member>, out: seq<Member>, s: Member)
    requires SettledSoFar(winners, out) && |out| < |winners| && s == Settled(Elements(winners), winners[|out|])
    ensures SettledSoFar(winners, out + [s])
  {
  }

  lemma HolderKeeps(winners: seq<Member>, holder: map<string, nat>, i: nat)
    requires DistinctMemberIds(winners) && HoldsBest(winners, |winners|, holder)
    requires i < |winners| && Present(winners[i].phone)
    ensures KeepsPhone(Elements(winners), winners[i]) <==> holder[winners[i].phone.value] == i
  {
    var h := holder[winners[i].phone.value];
    if h == i {
      forall v | v in Elements(winners) && v.phone == winners[i].phone && v != winners[i]
        ensures Better(winners[i], v)
      {
        var j :| 0 <= j < |winners| && winners[j] == v;
      }
    } else {
      assert winners[h] in Elements(winners);
      BetterIsStrictTotalOrder(winners[h], winners[i], winners[h]);
    }
  }

  /** The best-ranked holder keeps the number, the rest are inserted without it. */
  method AssignPhones(winners: seq<Member>) returns (out: seq<Member>)
    requires DistinctMemberIds(winners)
    ensures |out| == |winners| && SettledSoFar(winners, out)
  {
    var holder: map<string, nat> := map[];
    for i := 0 to |winners|
      invariant HoldsBest(winners, i, holder)
    {
      if Present(winners[i].phone) {
        HolderStep(winners, i, holder);
        var p := winners[i].phone.value;
        if p !in holder || Better(winners[i], winners[holder[p]]) {
          holder := holder[p := i];
        }
      } else {
        HolderSkips(winners, i, holder);
      }
    }
    out := [];
    for i := 0 to |winners|
      invariant |out| == i && SettledSoFar(winners, out)
    {
      var w := winners[i];
      if Present(w.phone) { HolderKeeps(winners, holder, i); }
      var keeps := !Present(w.phone) || holder[w.phone.value] == i;
      assert keeps <==> KeepsPhone(Elements(winners), w);
      var inserted := if keeps then w else WithoutPhone(w);
      SettledOneMore(winners, out, inserted);
      out := out + [inserted];
    }
  }

  method Dedup(members: seq<Member>) returns (winners: seq<Member>, redirect: map<int, int>)
    requires DistinctMemberIds(members)
    ensures IsDedup(Elements(members), winners, redirect)
  {
    var dsu := ClusterByEmail(members);
    var roots, clusters := GroupByRoot(dsu, |members|);
    var picked;
    ghost var wins;
    picked, redirect, wins := PickWinners(members, dsu.rep, roots, clusters);
    assert roots[..|roots|] == roots;
    PickedAreWinners(members, dsu.rep, roots, wins, picked);
    RoutedIsRedirect(members, dsu.rep, wins, redirect);
    winners := AssignPhones(picked);
    SettledAll(Winners(Elements(members)), picked, winners);
  }

  lemma SettledAll(ws: set<Member>, picked: seq<Member>, out: seq<Member>)
    requires ws == Elements(picked) && DistinctMemberIds(picked) && |out| == |picked|
    requires forall i :: 0 <= i < |out| ==> out[i] == Settled(ws, picked[i])
    ensures Distinct(out)
    ensures forall w :: w in ws ==> Settled(ws, w) in out
    ensures forall s :: s in out ==> exists w :: w in ws && Settled(ws, w) == s
  {
    forall i, j | 0 <= i < j < |out|
      ensures out[i] != out[j]
    {
      assert out[i].memberId == picked[i].memberId && out[j].memberId == picked[j].memberId;
    }
    forall w | w in ws
      ensures Settled(ws, w) in out
    {
      var i :| 0 <= i < |picked| && picked[i] == w;
      assert out[i] == Settled(ws, w);
    }
    forall s | s in out
      ensures exists w :: w in ws && Settled(ws, w) == s
    {
      var i :| 0 <= i < |out| && out[i] == s;
      assert picked[i] in ws;
    }
  }

  // ---- what the outcome means ----

  lemma {:induction false} BestInSet(s: set<Member>) returns (w: Member)
    requires s != {} && DistinctIds(s)
    ensures w in s && forall x :: x in s && x != w ==> Better(w, x)
  {
    w :| w in s;
    if s != {w} {
      var v := BestInSet(s - {w});
      if Better(w, v) {
        forall x | x in s && x != w ensures Better(w, x) { BetterIsStrictTotalOrder(w, v, x); }
      } else {
        BetterIsStrictTotalOrder(w, v, w);
        w := v;
      }
    }
  }

  /** Every member has a winner in its own cluster. */
  lemma WinnerExists(all: set<Member>, m: Member) returns (w: Member)
    requires DistinctIds(all) && m in all
    ensures IsWinner(all, w) && SameCluster(m, w)
  {
    var cluster := set x | x in all && SameCluster(m, x);
    assert m in cluster;
    w := BestInSet(cluster);
  }

  lemma WinnerUnique(all: set<Member>, a: Member, b: Member)
    requires IsWinner(all, a) && IsWinner(all, b) && SameCluster(a, b)
    ensures a == b
  {
    BetterIsStrictTotalOrder(a, b, a);
  }

  /** Every loser redirects to the one winner of its own cluster; no winner is redirected. */
  lemma LosersRedirectToOwnWinner(all: set<Member>, winners: seq<Member>, redirect: map<int, int>, m: Member)
    requires DistinctIds(all) && IsDedup(all, winners, redirect) && m in all
    ensures IsWinner(all, m) <==> m.memberId !in redirect
    ensures !IsWinner(all, m) ==> exists w :: IsWinner(all, w) && SameCluster(m, w) && RedirectsTo(redirect, m, w)
  {
    var w := WinnerExists(all, m);
    assert m != w ==> RedirectsTo(redirect, m, w);
  }

  lemma {:induction false} IdsCount(s: set<Member>)
    requires DistinctIds(s)
    ensures |set m | m in s :: m.memberId| == |s|
  {
    if s != {} {
      var x :| x in s;
      IdsCount(s - {x});
      assert (set m | m in s :: m.memberId) == (set m | m in s - {x} :: m.memberId) + {x.memberId};
    }
  }

  lemma LoserIds(all: set<Member>, winners: seq<Member>, redirect: map<int, int>)
    requires DistinctIds(all) && IsDedup(all, winners, redirect)
    ensures redirect.Keys == set m | m in all - Winners(all) :: m.memberId
  {
    forall m | m in all - Winners(all)
      ensures m.memberId in redirect
    {
      LosersRedirectToOwnWinner(all, winners, redirect, m);
    }
    forall id | id in redirect
      ensures exists m :: m in all - Winners(all) && m.memberId == id
    {
      var m :| m in all && !IsWinner(all, m) && m.memberId == id;
      assert m in all - Winners(all);
    }
  }

  lemma OriginOf(all: set<Member>, winners: seq<Member>, redirect: map<int, int>, s: Member) returns (w: Member)
    requires IsDedup(all, winners, redirect) && s in winners
    ensures IsWinner(all, w) && Settled(Winners(all), w) == s
  {
    w :| w in Winners(all) && Settled(Winners(all), w) == s;
  }

  lemma WinnerCount(all: set<Member>, winners: seq<Member>, redirect: map<int, int>)
    requires DistinctIds(all) && IsDedup(all, winners, redirect)
    ensures |winners| == |Winners(all)|
  {
    var out, ws := Elements(winners), Winners(all);
    DistinctLength(winners, out);
    assert DistinctIds(out) by {
      forall a, b | a in out && b in out && a.memberId == b.memberId
        ensures a == b
      {
        var x := OriginOf(all, winners, redirect, a);
        var y := OriginOf(all, winners, redirect, b);
      }
    }
    IdsCount(out);
    IdsCount(ws);
    SameIds(all, winners, redirect);
  }

  lemma SameIds(all: set<Member>, winners: seq<Member>, redirect: map<int, int>)
    requires IsDedup(all, winners, redirect)
    ensures (set m | m in Elements(winners) :: m.memberId) == set m | m in Winners(all) :: m.memberId
  {
    var out, ws := Elements(winners), Winners(all);
    var outIds, wsIds := set m | m in out :: m.memberId, set m | m in ws :: m.memberId;
    forall id | id in wsIds
      ensures id in outIds
    {
      var w :| w in ws && w.memberId == id;
      assert Settled(ws, w) in out && Settled(ws, w).memberId == id;
    }
    forall id | id in outIds
      ensures id in wsIds
    {
      var s :| s in out && s.memberId == id;
      var w := OriginOf(all, winners, redirect, s);
      assert w in ws && w.memberId == id;
    }
  }

  /** Winners and losers add up to the input. */
  lemma WinnersPlusLosers(all: set<Member>, winners: seq<Member>, redirect: map<int, int>)
    requires DistinctIds(all) && IsDedup(all, winners, redirect)
    ensures |winners| + |redirect| == |all|
  {
    WinnerCount(all, winners, redirect);
    LoserIds(all, winners, redirect);
    IdsCount(all - Winners(all));
    assert |redirect| == |redirect.Keys|;
  }

  /** `members.email` and `members.phone` are unique among what is inserted. */
  lemma WinnersShareNothing(all: set<Member>, winners: seq<Member>, redirect: map<int, int>, i: nat, j: nat)
    requires IsDedup(all, winners, redirect) && i < j < |winners|
    ensures Present(winners[i].email) ==> winners[i].email != winners[j].email
    ensures Present(winners[i].phone) ==> winners[i].phone != winners[j].phone
  {
    var ws := Winners(all);
    var a := OriginOf(all, winners, redirect, winners[i]);
    var b := OriginOf(all, winners, redirect, winners[j]);
    assert a != b;
    if Present(winners[i].email) && winners[i].email == winners[j].email {
      WinnerUnique(all, a, b);
    }
    if Present(winners[i].phone) && winners[i].phone == winners[j].phone {
      assert a in ws && b in ws && KeepsPhone(ws, a) && KeepsPhone(ws, b);
      assert Better(a, b) && Better(b, a);
      BetterIsStrictTotalOrder(a, b, a);
    }
  }

  /** No number is lost: each phone of a winner stays with the best-ranked winner having it. */
  lemma PhoneKeptByBestHolder(all: set<Member>, winners: seq<Member>, redirect: map<int, int>, w: Member)
    returns (h: Member)
    requires DistinctIds(all) && IsDedup(all, winners, redirect)
    requires IsWinner(all, w) && Present(w.phone)
    ensures h in winners && IsWinner(all, h) && h.phone == w.phone && (h == w || Better(h, w))
  {
    var ws := Winners(all);
    var holders := set v | v in ws && v.phone == w.phone;
    assert w in holders;
    h := BestInSet(holders);
    assert KeepsPhone(ws, h);
    assert h in ws && Settled(ws, h) == h;
  }

  lemma SameElements(all: set<Member>, ws1: seq<Member>, r1: map<int, int>, ws2: seq<Member>, r2: map<int, int>)
    requires DistinctIds(all) && IsDedup(all, ws1, r1) && IsDedup(all, ws2, r2)
    ensures Elements(ws1) == Elements(ws2)
  {
  }

  lemma SameTarget(all: set<Member>, ws1: seq<Member>, r1: map<int, int>, ws2: seq<Member>, r2: map<int, int>, id: int)
    requires DistinctIds(all) && IsDedup(all, ws1, r1) && IsDedup(all, ws2, r2)
    requires id in r1 && id in r2
    ensures r1[id] == r2[id]
  {
    var m :| m in all && !IsWinner(all, m) && m.memberId == id;
    var w := WinnerExists(all, m);
    assert RedirectsTo(r1, m, w) && RedirectsTo(r2, m, w);
  }

  lemma SameRedirect(all: set<Member>, ws1: seq<Member>, r1: map<int, int>, ws2: seq<Member>, r2: map<int, int>)
    requires DistinctIds(all) && IsDedup(all, ws1, r1) && IsDedup(all, ws2, r2)
    requires r1.Keys == r2.Keys
    ensures r1 == r2
  {
    forall id | id in r1
      ensures id in r2 && r1[id] == r2[id]
    {
      assert id in r2.Keys;
      SameTarget(all, ws1, r1, ws2, r2, id);
    }
  }

  /** The outcome is a function of the set of members: the order they are read in is irrelevant. */
  lemma OutcomeIgnoresOrder(all: set<Member>, ws1: seq<Member>, r1: map<int, int>, ws2: seq<Member>, r2: map<int, int>)
    requires DistinctIds(all) && IsDedup(all, ws1, r1) && IsDedup(all, ws2, r2)
    ensures Elements(ws1) == Elements(ws2) && |ws1| == |ws2|
    ensures r1 == r2
  {
    SameElements(all, ws1, r1, ws2, r2);
    WinnerCount(all, ws1, r1);
    WinnerCount(all, ws2, r2);
    LoserIds(all, ws1, r1);
    LoserIds(all, ws2, r2);
    SameRedirect(all, ws1, r1, ws2, r2);
  }
}
