/**
 * A round is the tree pass followed by the connect pass for one member. With the legacy data and the
 * other members' links fixed, when does a second round change nothing?
 */
module InviterRounds {
  import opened Prelude
  import opened InviterRules
  import opened InviterGraph

  function Round(t: Table, subject: Id, pick: Option<Pick>, r: ConnectRow, variant: Variant): Table {
    ConnectStep(TreeStep(t, subject, pick), subject, r, variant)
  }

  predicate SomebodyElse(subject: Id, pick: Option<Pick>) {
    pick.Some? && pick.value.Found? ==> pick.value.inviter != subject
  }

  /** A removed connect, or one that became self: what the connect pass wrote is undone. */
  predicate Reverts(subject: Id, r: ConnectRow) { !r.active || r.affiliator == Some(subject) }

  function PickedId(pick: Option<Pick>): Option<Id> {
    if pick.Some? && pick.value.Found? then Some(pick.value.inviter) else None
  }

  /** Writing the candidate as inviter of the subject is refused. */
  predicate Closes(t: Table, subject: Id, candidate: Option<Id>) {
    candidate.Some? && candidate.value != subject && WouldCloseCycle(t, subject, candidate.value)
  }

  // ---- the subject's own link ----

  function TreeLink(subject: Id, cur: Link, pick: Option<Pick>, closes: bool): Link {
    var plan := PlanInviterWrite(subject, cur, pick, closes);
    if plan.patch.Some? then plan.patch.value else cur
  }

  function ConnectLink(subject: Id, cur: Link, r: ConnectRow, variant: Variant, affiliatorCloses: bool,
      parentCloses: bool): Link {
    var plan := DecideConnectWrite(ConnectInputOf(subject, cur, r, affiliatorCloses, parentCloses), variant);
    if plan.patch.Some? then plan.patch.value else cur
  }

  /** The answers of the cycle queries, which do not depend on the subject's own link. */
  datatype Checks = Checks(pick: bool, affiliator: bool, parent: bool)

  function ChecksOf(t: Table, subject: Id, pick: Option<Pick>, r: ConnectRow): Checks {
    Checks(Closes(t, subject, PickedId(pick)), Closes(t, subject, r.affiliator), Closes(t, subject, r.parent))
  }

  function LinkRound(subject: Id, cur: Link, pick: Option<Pick>, r: ConnectRow, variant: Variant, c: Checks): Link {
    ConnectLink(subject, TreeLink(subject, cur, pick, c.pick), r, variant, c.affiliator, c.parent)
  }

  lemma TreeStepIsLink(t: Table, subject: Id, pick: Option<Pick>)
    requires subject in t && SomebodyElse(subject, pick)
    ensures TreeStep(t, subject, pick)
         == t[subject := TreeLink(subject, t[subject], pick, Closes(t, subject, PickedId(pick)))]
  {
  }

  lemma SelfParentUnchecked(subject: Id, cur: Link, r: ConnectRow, variant: Variant, a: bool, b: bool, c: bool)
    requires r.parent == Some(subject) || b == c
    ensures ConnectLink(subject, cur, r, variant, a, b) == ConnectLink(subject, cur, r, variant, a, c)
  {
  }

  lemma SelfAffiliatorUnchecked(subject: Id, cur: Link, r: ConnectRow, a: bool, b: bool, c: bool)
    requires r.affiliator == Some(subject) || a == b
    ensures ConnectInputOf(subject, cur, r, a, c) == ConnectInputOf(subject, cur, r, b, c)
  {
  }

  lemma ConnectStepPlain(t: Table, subject: Id, r: ConnectRow, variant: Variant)
    requires subject in t
    ensures ConnectStep(t, subject, r, variant) == t[subject := ConnectLink(
              subject, t[subject], r, variant, r.affiliator.Some? && WouldCloseCycle(t, subject, r.affiliator.value),
              r.parent.Some? && WouldCloseCycle(t, subject, r.parent.value))]
  {
    var i := ConnectInputFor(t, subject, r);
    if DecideConnectWrite(i, variant).patch.None? { assert t == t[subject := t[subject]]; }
  }

  lemma ConnectStepIsLink(t: Table, subject: Id, r: ConnectRow, variant: Variant)
    requires subject in t
    ensures ConnectStep(t, subject, r, variant) == t[subject := ConnectLink(
              subject, t[subject], r, variant, Closes(t, subject, r.affiliator), Closes(t, subject, r.parent))]
  {
    var cur := t[subject];
    var a := r.affiliator.Some? && WouldCloseCycle(t, subject, r.affiliator.value);
    var p := r.parent.Some? && WouldCloseCycle(t, subject, r.parent.value);
    ConnectStepPlain(t, subject, r, variant);
    SelfAffiliatorUnchecked(subject, cur, r, a, Closes(t, subject, r.affiliator), p);
    SelfParentUnchecked(subject, cur, r, variant, Closes(t, subject, r.affiliator), p, Closes(t, subject, r.parent));
  }

  lemma ClosesIgnoresOwnEdge(t: Table, subject: Id, link: Link, candidate: Option<Id>)
    requires subject in t
    ensures Closes(t[subject := link], subject, candidate) == Closes(t, subject, candidate)
  {
    if candidate.Some? && candidate.value != subject {
      CheckIgnoresOwnEdge(t, t[subject := link], subject, candidate.value);
    }
  }

  lemma ConnectStepOnLink(t: Table, subject: Id, link: Link, r: ConnectRow, variant: Variant)
    requires subject in t
    ensures ConnectStep(t[subject := link], subject, r, variant) == t[subject := ConnectLink(
              subject, link, r, variant, Closes(t, subject, r.affiliator), Closes(t, subject, r.parent))]
  {
    ConnectStepIsLink(t[subject := link], subject, r, variant);
    ClosesIgnoresOwnEdge(t, subject, link, r.affiliator);
    ClosesIgnoresOwnEdge(t, subject, link, r.parent);
  }

  lemma TreeStepOnLink(t: Table, subject: Id, link: Link, pick: Option<Pick>)
    requires subject in t && SomebodyElse(subject, pick)
    ensures TreeStep(t[subject := link], subject, pick)
         == t[subject := TreeLink(subject, link, pick, Closes(t, subject, PickedId(pick)))]
  {
    TreeStepIsLink(t[subject := link], subject, pick);
    ClosesIgnoresOwnEdge(t, subject, link, PickedId(pick));
  }

  /** A round rewrites the subject's link and nothing else, whatever the link was. */
  lemma RoundIsLink(t: Table, subject: Id, link: Link, pick: Option<Pick>, r: ConnectRow, variant: Variant)
    requires subject in t && SomebodyElse(subject, pick)
    ensures Round(t[subject := link], subject, pick, r, variant)
         == t[subject := LinkRound(subject, link, pick, r, variant, ChecksOf(t, subject, pick, r))]
  {
    TreeStepOnLink(t, subject, link, pick);
    ConnectStepOnLink(t, subject, TreeLink(subject, link, pick, Closes(t, subject, PickedId(pick))), r, variant);
  }

  // ---- exactly when a second round changes something ----

  /** Undoing the connect writes a link the connect pass no longer owns: the parent, or nothing. */
  predicate RevertLetsGo(subject: Id, cur: Link, r: ConnectRow, parentCloses: bool) {
    (r.parent.Some? && r.parent.value != subject && !parentCloses) ||
    SameId(cur.inviter, r.affiliator) || cur.inviter == Some(subject)
  }

  /**
   * A connect the pass owns is undone, which hands the link back to the tree, and the tree then has
   * an inviter to write that is not the one the connect pass put back.
   */
  predicate Unsettled(subject: Id, cur: Link, pick: Option<Pick>, r: ConnectRow, c: Checks) {
    cur.source == LegacyConnect && Reverts(subject, r) && RevertLetsGo(subject, cur, r, c.parent) &&
    PickedId(pick).Some? && !c.pick && r.parent != PickedId(pick)
  }

  lemma LinkRoundTwice(subject: Id, cur: Link, pick: Option<Pick>, r: ConnectRow, variant: Variant, c: Checks)
    requires SomebodyElse(subject, pick) && (PickedId(pick) == r.parent ==> c.pick == c.parent)
    ensures var once := LinkRound(subject, cur, pick, r, variant, c);
      LinkRound(subject, once, pick, r, variant, c) != once <==> Unsettled(subject, cur, pick, r, c)
  {
    var once := LinkRound(subject, cur, pick, r, variant, c);
    if cur.source == LegacyConnect {
      assert TreeLink(subject, cur, pick, c.pick) == cur;
    }
  }

  /** After an unsettled round the tree owns the link; from then on rounds change nothing. */
  lemma LinkRoundThrice(subject: Id, cur: Link, pick: Option<Pick>, r: ConnectRow, variant: Variant, c: Checks)
    requires SomebodyElse(subject, pick) && (PickedId(pick) == r.parent ==> c.pick == c.parent)
    ensures var twice := LinkRound(subject, LinkRound(subject, cur, pick, r, variant, c), pick, r, variant, c);
      LinkRound(subject, twice, pick, r, variant, c) == twice
  {
    var once := LinkRound(subject, cur, pick, r, variant, c);
    LinkRoundTwice(subject, cur, pick, r, variant, c);
    LinkRoundTwice(subject, once, pick, r, variant, c);
  }

  /**
   * For both variants, on every table: a second round with the same legacy data changes neither
   * inviter nor source, except in the one case `Unsettled` names, where it does.
   */
  lemma SecondRoundChangesIff(t: Table, subject: Id, pick: Option<Pick>, r: ConnectRow, variant: Variant)
    requires subject in t && SomebodyElse(subject, pick)
    ensures var once := Round(t, subject, pick, r, variant);
      Round(once, subject, pick, r, variant) != once
      <==> Unsettled(subject, t[subject], pick, r, ChecksOf(t, subject, pick, r))
  {
    var c := ChecksOf(t, subject, pick, r);
    assert t == t[subject := t[subject]];
    var link := LinkRound(subject, t[subject], pick, r, variant, c);
    RoundIsLink(t, subject, t[subject], pick, r, variant);
    RoundIsLink(t, subject, link, pick, r, variant);
    LinkRoundTwice(subject, t[subject], pick, r, variant, c);
    SameUpdate(t, subject, LinkRound(subject, link, pick, r, variant, c), link);
  }

  lemma SameUpdate(t: Table, subject: Id, a: Link, b: Link)
    ensures t[subject := a] == t[subject := b] <==> a == b
  {
    assert t[subject := a][subject] == a && t[subject := b][subject] == b;
  }

  /** Nothing flaps: a third round never changes anything. */
  lemma ThirdRoundChangesNothing(t: Table, subject: Id, pick: Option<Pick>, r: ConnectRow, variant: Variant)
    requires subject in t && SomebodyElse(subject, pick)
    ensures var twice := Round(Round(t, subject, pick, r, variant), subject, pick, r, variant);
      Round(twice, subject, pick, r, variant) == twice
  {
    var c := ChecksOf(t, subject, pick, r);
    assert t == t[subject := t[subject]];
    var once := LinkRound(subject, t[subject], pick, r, variant, c);
    RoundIsLink(t, subject, t[subject], pick, r, variant);
    RoundIsLink(t, subject, once, pick, r, variant);
    RoundIsLink(t, subject, LinkRound(subject, once, pick, r, variant, c), pick, r, variant);
    LinkRoundThrice(subject, t[subject], pick, r, variant, c);
  }

  // ---- the rows the two passes read ----

  /** A row of the legacy network table, as both passes read it. */
  datatype NetworkRow = NetworkRow(parent: Option<int>, wm: int)

  /** `k` is the newest of the rows; of two rows with the same watermark the later one. */
  predicate IsNewest(rows: seq<NetworkRow>, k: nat) {
    k < |rows| && (forall j :: 0 <= j < k ==> rows[j].wm <= rows[k].wm) &&
    forall j :: k < j < |rows| ==> rows[j].wm < rows[k].wm
  }

  function Newest(rows: seq<NetworkRow>): (best: Option<NetworkRow>)
    ensures best.None? <==> rows == []
  {
    if rows == [] then None
    else
      var n := |rows| - 1;
      Newer(Newest(rows[..n]), rows[n])
  }

  function Newer(best: Option<NetworkRow>, x: NetworkRow): Option<NetworkRow> {
    if best.None? || x.wm >= best.value.wm then Some(x) else best
  }

  /** What `Newest` finds. */
  lemma {:induction false} NewestAt(rows: seq<NetworkRow>) returns (k: nat)
    requires rows != []
    ensures IsNewest(rows, k) && Newest(rows) == Some(rows[k])
  {
    var n := |rows| - 1;
    if n == 0 {
      k := 0;
    } else {
      k := NewestAt(rows[..n]);
      if rows[n].wm >= rows[k].wm { k := n; }
    }
  }

  lemma NewestUnique(rows: seq<NetworkRow>, k: nat)
    requires IsNewest(rows, k)
    ensures Newest(rows) == Some(rows[k])
  {
    var i := NewestAt(rows);
    assert !(i < k) && !(k < i);
  }

  lemma NewestOfMore(rows: seq<NetworkRow>, x: NetworkRow)
    ensures Newest(rows + [x]) == Newer(Newest(rows), x)
  {
    assert (rows + [x])[..|rows|] == rows;
  }

  function ParentNode(row: Option<NetworkRow>): Option<int> {
    if row.Some? then row.value.parent else None
  }

  /** The rows with a parent, or the rows above a bound. */
  datatype Filter = HasParent | Above(since: int)

  predicate Passes(f: Filter, x: NetworkRow) {
    match f
    case HasParent => x.parent.Some?
    case Above(since) => x.wm > since
  }

  function Only(rows: seq<NetworkRow>, f: Filter): (r: seq<NetworkRow>)
    ensures forall x :: x in r <==> x in rows && Passes(f, x)
  {
    if rows == [] then []
    else
      var n := |rows| - 1;
      Only(rows[..n], f) + if Passes(f, rows[n]) then [rows[n]] else []
  }

  /** The row the tree pass keeps for a subject (`dedupeByKey`), of those above its bound. */
  method NewestRow(rows: seq<NetworkRow>) returns (best: Option<NetworkRow>)
    ensures best.None? <==> rows == []
    ensures best.Some? ==> exists k: nat :: IsNewest(rows, k) && best == Some(rows[k])
  {
    best := None;
    ghost var k := 0;
    for i := 0 to |rows|
      invariant best.None? <==> i == 0
      invariant i > 0 ==> IsNewest(rows[..i], k) && best == Some(rows[k])
    {
      if best.None? || rows[i].wm >= best.value.wm { best, k := Some(rows[i]), i; }
    }
    assert rows[..|rows|] == rows;
  }

  /** The parent node the connect pass keeps (`fetchParentNodes`, rows with a parent only). */
  method NewestParent(rows: seq<NetworkRow>) returns (parent: Option<int>)
    ensures parent == ParentNode(Newest(Only(rows, HasParent)))
  {
    var best := None;
    for i := 0 to |rows|
      invariant best == Newest(Only(rows[..i], HasParent))
    {
      ghost var before := Only(rows[..i], HasParent);
      assert rows[..i + 1][..i] == rows[..i];
      if rows[i].parent.Some? {
        NewestOfMore(before, rows[i]);
        if best.None? || rows[i].wm >= best.value.wm { best := Some(rows[i]); }
      } else {
        assert Only(rows[..i + 1], HasParent) == before;
      }
    }
    assert rows[..|rows|] == rows;
    parent := ParentNode(best);
  }

  lemma OnlyOfMore(rows: seq<NetworkRow>, x: NetworkRow, f: Filter)
    ensures Only(rows + [x], f) == Only(rows, f) + if Passes(f, x) then [x] else []
  {
    assert (rows + [x])[..|rows|] == rows;
  }

  /** Leaving rows out leaves the newest row, unless it is left out itself. */
  lemma {:induction false} NewestSurvives(rows: seq<NetworkRow>, f: Filter)
    requires rows != [] && Passes(f, Newest(rows).value)
    ensures Newest(Only(rows, f)) == Newest(rows)
  {
    var before, x := rows[..|rows| - 1], rows[|rows| - 1];
    var kept := Only(before, f);
    assert rows == before + [x];
    OnlyOfMore(before, x, f);
    if before != [] && Passes(f, Newest(before).value) { NewestSurvives(before, f); }
    NewestIsGreatest(before);
    NewestIsGreatest(kept);
    SurvivesStep(before, x, kept, f);
  }

  lemma SurvivesStep(before: seq<NetworkRow>, x: NetworkRow, kept: seq<NetworkRow>, f: Filter)
    requires before != [] && Passes(f, Newest(before).value) ==> Newest(kept) == Newest(before)
    requires kept != [] ==> before != [] && Newest(kept).value.wm <= Newest(before).value.wm
    requires Passes(f, Newer(Newest(before), x).value)
    ensures Newest(kept + if Passes(f, x) then [x] else []) == Newer(Newest(before), x)
  {
    NewestOfMore(kept, x);
    assert kept + [] == kept;
  }

  lemma NewestIsGreatest(rows: seq<NetworkRow>)
    ensures forall x :: x in rows ==> x.wm <= Newest(rows).value.wm
    ensures rows != [] ==> Newest(rows).value in rows
  {
    if rows != [] {
      var k := NewestAt(rows);
      assert rows[k] in rows;
    }
  }

  /** Rows that tie for the newest have the same parent. */
  ghost predicate TiesAgree(rows: seq<NetworkRow>) {
    forall x, y :: x in rows && y in rows && x.wm == y.wm && (forall z :: z in rows ==> z.wm <= x.wm) ==>
      x.parent == y.parent
  }

  ghost predicate SameRows(a: seq<NetworkRow>, b: seq<NetworkRow>) { forall x :: x in a <==> x in b }

  /** Then the parent of the newest row does not depend on the order a query returns the rows in. */
  lemma NewestIgnoresOrder(a: seq<NetworkRow>, b: seq<NetworkRow>)
    requires SameRows(a, b) && TiesAgree(a)
    ensures ParentNode(Newest(a)) == ParentNode(Newest(b))
  {
    NewestIsGreatest(a);
    NewestIsGreatest(b);
    if a != [] { assert a[0] in a; }
    if b != [] { assert b[0] in b; }
    if a != [] {
      var x, y := Newest(a).value, Newest(b).value;
      assert x.wm == y.wm;
    }
  }

  // ---- rounds on legacy rows ----

  /** What one round reads: each query in its own order, the tree's only above its bound. */
  datatype Scan = Scan(tree: seq<NetworkRow>, since: int, connect: seq<NetworkRow>)

  function TreePick(l: Legacy, subject: Id, rows: seq<NetworkRow>): Option<Pick> {
    var node := ParentNode(Newest(rows));
    if node.None? then None else Some(Climb(l, subject, node, 0))
  }

  function ConnectParent(l: Legacy, subject: Id, rows: seq<NetworkRow>): Option<Id> {
    PickedId(Some(Climb(l, subject, ParentNode(Newest(Only(rows, HasParent))), 0)))
  }

  /** The connect row of the subject is the same in every round; its parent is looked up by each round. */
  function RowFor(l: Legacy, subject: Id, x: ConnectRow, rows: seq<NetworkRow>): ConnectRow {
    x.(parent := ConnectParent(l, subject, rows))
  }

  /** The tree passes over a subject none of whose rows is above its bound. */
  function ScannedRound(t: Table, subject: Id, l: Legacy, scan: Scan, x: ConnectRow, variant: Variant): Table {
    var seen := Only(scan.tree, Above(scan.since));
    var u := if seen == [] then t else TreeStep(t, subject, TreePick(l, subject, seen));
    ConnectStep(u, subject, RowFor(l, subject, x, scan.connect), variant)
  }

  ghost predicate Scans(scan: Scan, rows: seq<NetworkRow>) {
    SameRows(rows, scan.tree) && SameRows(rows, scan.connect)
  }

  lemma {:induction false} AboveKeepsNewest(rows: seq<NetworkRow>, since: int)
    requires Only(rows, Above(since)) != []
    ensures Newest(Only(rows, Above(since))) == Newest(rows)
  {
    var x := Only(rows, Above(since))[0];
    assert x in Only(rows, Above(since));
    NewestIsGreatest(rows);
    NewestSurvives(rows, Above(since));
  }

  /** No two rows that tie for the newest, or for the newest with a parent, disagree on the parent. */
  ghost predicate NoTieMatters(rows: seq<NetworkRow>) { TiesAgree(rows) && TiesAgree(Only(rows, HasParent)) }

  /** In whatever order and above whatever bound the rows are read, the passes find one parent. */
  lemma PassesAgree(l: Legacy, subject: Id, rows: seq<NetworkRow>, scan: Scan)
    requires NoTieMatters(rows) && Scans(scan, rows)
    ensures var seen := Only(scan.tree, Above(scan.since));
      seen != [] ==> TreePick(l, subject, seen) == TreePick(l, subject, rows)
    ensures ConnectParent(l, subject, scan.connect) == ConnectParent(l, subject, rows)
    ensures var picked := PickedId(TreePick(l, subject, rows));
      picked.Some? ==> ConnectParent(l, subject, rows) == picked
    ensures SomebodyElse(subject, TreePick(l, subject, rows))
  {
    if Only(scan.tree, Above(scan.since)) != [] {
      AboveKeepsNewest(scan.tree, scan.since);
      NewestIgnoresOrder(rows, scan.tree);
    }
    NewestIgnoresOrder(Only(rows, HasParent), Only(scan.connect, HasParent));
    if rows != [] && Newest(rows).value.parent.Some? { NewestSurvives(rows, HasParent); }
    ClimbMeaning(l, subject, ParentNode(Newest(rows)), 0);
  }

  /**
   * For both variants: a round on the same legacy rows, read in any order and above the same or a later
   * bound, changes neither inviter nor source, provided that no two newest rows disagree on the parent.
   */
  lemma ScannedRoundIdempotent(t: Table, subject: Id, l: Legacy, rows: seq<NetworkRow>, first: Scan, second: Scan,
                               x: ConnectRow, variant: Variant)
    requires subject in t && NoTieMatters(rows)
    requires Scans(first, rows) && Scans(second, rows) && first.since <= second.since
    ensures var once := ScannedRound(t, subject, l, first, x, variant);
      ScannedRound(once, subject, l, second, x, variant) == once
  {
    PassesAgree(l, subject, rows, first);
    PassesAgree(l, subject, rows, second);
    var pick, r := TreePick(l, subject, rows), RowFor(l, subject, x, rows);
    LaterSeesLess(rows, first, second);
    if Only(first.tree, Above(first.since)) == [] {
      ConnectTwice(t, subject, r, variant);
    } else if Only(second.tree, Above(second.since)) == [] {
      ConnectTwice(TreeStep(t, subject, pick), subject, r, variant);
    } else {
      SecondRoundChangesIff(t, subject, pick, r, variant);
    }
  }

  lemma LaterSeesLess(rows: seq<NetworkRow>, first: Scan, second: Scan)
    requires Scans(first, rows) && Scans(second, rows) && first.since <= second.since
    ensures Only(first.tree, Above(first.since)) == [] ==> Only(second.tree, Above(second.since)) == []
  {
    var more := Only(second.tree, Above(second.since));
    if more != [] { assert more[0] in more && more[0] in Only(first.tree, Above(first.since)); }
  }

  lemma ConnectTwice(t: Table, subject: Id, r: ConnectRow, variant: Variant)
    requires subject in t
    ensures var once := ConnectStep(t, subject, r, variant); ConnectStep(once, subject, r, variant) == once
  {
    var a, p := Closes(t, subject, r.affiliator), Closes(t, subject, r.parent);
    var link := ConnectLink(subject, t[subject], r, variant, a, p);
    ConnectStepIsLink(t, subject, r, variant);
    ConnectStepOnLink(t, subject, link, r, variant);
    ConnectLinkTwice(subject, t[subject], r, variant, a, p);
  }

  lemma ConnectLinkTwice(subject: Id, cur: Link, r: ConnectRow, variant: Variant, a: bool, p: bool)
    ensures var once := ConnectLink(subject, cur, r, variant, a, p);
      ConnectLink(subject, once, r, variant, a, p) == once
  {
  }

  /** The inviter a parent node leads to, if the tree may write it. */
  function Usable(t: Table, subject: Id, l: Legacy, node: Option<int>): Option<Id> {
    var id := PickedId(Some(Climb(l, subject, node, 0)));
    if Closes(t, subject, id) then None else id
  }

  /**
   * The proviso is needed: whenever two newest rows lead to different usable inviters, one query
   * returning them in one order and the other in the other, the round that undoes a connect is
   * followed by a round that changes the inviter again.
   */
  lemma TiedRowsUnsettle(t: Table, subject: Id, l: Legacy, others: seq<NetworkRow>, a: NetworkRow, b: NetworkRow,
                         since: int, x: ConnectRow, variant: Variant)
    requires subject in t && t[subject].source == LegacyConnect && (!x.active || x.affiliator == Some(subject))
    requires a.wm == b.wm > since && forall o :: o in others ==> o.wm <= a.wm
    requires Usable(t, subject, l, a.parent).Some? && Usable(t, subject, l, b.parent).Some?
    requires Usable(t, subject, l, a.parent) != Usable(t, subject, l, b.parent)
    ensures var scan := Scan(others + [a, b], since, others + [b, a]);
      var once := ScannedRound(t, subject, l, scan, x, variant);
      once == t[subject := Link(Usable(t, subject, l, a.parent), LegacyParent)]
      && ScannedRound(once, subject, l, scan, x, variant)
         == t[subject := Link(Usable(t, subject, l, b.parent), LegacyParent)]
  {
    var scan := Scan(others + [a, b], since, others + [b, a]);
    var pick, r := Some(Climb(l, subject, b.parent, 0)), RowFor(l, subject, x, scan.connect);
    TiedScan(subject, l, others, a, b, since);
    UsableMeaning(t, subject, l, a.parent);
    UsableMeaning(t, subject, l, b.parent);
    UndoneThenOverwritten(t, subject, pick, r, variant);
    SeenRound(t, subject, l, scan, x, variant, pick, r);
    SeenRound(t[subject := Link(r.parent, LegacyParent)], subject, l, scan, x, variant, pick, r);
  }

  lemma UsableMeaning(t: Table, subject: Id, l: Legacy, node: Option<int>)
    requires Usable(t, subject, l, node).Some?
    ensures var id := PickedId(Some(Climb(l, subject, node, 0)));
      node.Some? && id == Usable(t, subject, l, node) && id.value != subject && !Closes(t, subject, id)
  {
    ClimbMeaning(l, subject, node, 0);
  }

  lemma SeenRound(t: Table, subject: Id, l: Legacy, scan: Scan, x: ConnectRow, variant: Variant, pick: Option<Pick>,
                  r: ConnectRow)
    requires Only(scan.tree, Above(scan.since)) != []
    requires TreePick(l, subject, Only(scan.tree, Above(scan.since))) == pick
    requires RowFor(l, subject, x, scan.connect) == r
    ensures ScannedRound(t, subject, l, scan, x, variant) == Round(t, subject, pick, r, variant)
  {
  }

  /** One query ends with `b` and the other with `a`. */
  lemma TiedScan(subject: Id, l: Legacy, others: seq<NetworkRow>, a: NetworkRow, b: NetworkRow, since: int)
    requires a.wm == b.wm > since && forall o :: o in others ==> o.wm <= a.wm
    requires a.parent.Some? && b.parent.Some?
    ensures var seen := Only(others + [a, b], Above(since));
      seen != [] && TreePick(l, subject, seen) == Some(Climb(l, subject, b.parent, 0))
    ensures ConnectParent(l, subject, others + [b, a]) == PickedId(Some(Climb(l, subject, a.parent, 0)))
  {
    LastIsNewest(others, a, b);
    LastIsNewest(others, b, a);
    assert b in others + [a, b] && b in Only(others + [a, b], Above(since));
    AboveKeepsNewest(others + [a, b], since);
    NewestSurvives(others + [b, a], HasParent);
  }

  lemma UndoneThenOverwritten(t: Table, subject: Id, pick: Option<Pick>, r: ConnectRow, variant: Variant)
    requires subject in t && SomebodyElse(subject, pick) && t[subject].source == LegacyConnect && Reverts(subject, r)
    requires PickedId(pick).Some? && !Closes(t, subject, PickedId(pick))
    requires r.parent.Some? && r.parent.value != subject && !Closes(t, subject, r.parent)
    ensures var once := Round(t, subject, pick, r, variant);
      once == t[subject := Link(r.parent, LegacyParent)]
      && Round(once, subject, pick, r, variant) == t[subject := Link(PickedId(pick), LegacyParent)]
  {
    assert t == t[subject := t[subject]];
    RoundIsLink(t, subject, t[subject], pick, r, variant);
    RoundIsLink(t, subject, Link(r.parent, LegacyParent), pick, r, variant);
  }

  lemma LastIsNewest(others: seq<NetworkRow>, a: NetworkRow, b: NetworkRow)
    requires a.wm == b.wm && forall o :: o in others ==> o.wm <= a.wm
    ensures Newest(others + [a, b]) == Some(b)
  {
    var rows := others + [a, b];
    forall j | 0 <= j < |rows|
      ensures rows[j].wm <= b.wm
    {
      if j < |others| { assert others[j] in others; }
    }
    NewestUnique(rows, |others| + 1);
  }
}
