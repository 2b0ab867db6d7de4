/**
 * The inviter graph as it is written: tree, connect and correction steps on the members table, each
 * one check followed by one guarded update. A check and its write are one atomic step here, as with
 * a write concurrency of one.
 */
module InviterGraph {
  import opened Prelude
  import opened InviterRules

  type Table = map<Id, Link>

  /** The recursive query: the candidate's inviter, its inviter, … at most `levels` rows. */
  function Chain(t: Table, candidate: Id, levels: nat): seq<Option<Id>>
    decreases levels
  {
    if levels == 0 || candidate !in t then []
    else
      var up := t[candidate].inviter;
      [up] + if up.Some? then Chain(t, up.value, levels - 1) else []
  }

  ghost function ChainFrom(t: Table, at: Option<Id>, levels: nat): seq<Option<Id>> {
    if at.Some? then Chain(t, at.value, levels) else []
  }

  lemma ChainFromStep(t: Table, x: Id, levels: nat, before: seq<Option<Id>>)
    requires levels > 0 && x in t
    ensures before + ChainFrom(t, Some(x), levels)
         == before + [t[x].inviter] + ChainFrom(t, t[x].inviter, levels - 1)
  {
    assert Chain(t, x, levels) == [t[x].inviter] + ChainFrom(t, t[x].inviter, levels - 1);
  }

  predicate ChainHitsSubject(subject: Id, chain: seq<Option<Id>>) {
    Some(subject) in (if |chain| > CYCLE_CHECK_LEVELS then chain[..CYCLE_CHECK_LEVELS] else chain)
  }

  predicate WouldCloseCycle(t: Table, subject: Id, candidate: Id) {
    ChainHitsSubject(subject, Chain(t, candidate, CYCLE_CHECK_LEVELS))
  }

  // ---- guarded updates ----

  function TreeUpdate(t: Table, subject: Id, patch: Link): Table {
    if subject in t && MayOverwriteInviter(t[subject].source) &&
       (patch.inviter.None? ==> t[subject].inviter == Some(subject))
    then t[subject := patch] else t
  }

  function ConnectUpdate(t: Table, subject: Id, patch: Link, readInviter: Option<Id>): Table {
    if subject in t && OwnedSource(t[subject].source) &&
       (patch.inviter.None? ==> t[subject].inviter == readInviter)
    then t[subject := patch] else t
  }

  function CorrectionUpdate(t: Table, subject: Id, patch: Link, read: Link): Table {
    if subject in t && t[subject] == read then t[subject := patch] else t
  }

  // ---- atomic steps ----

  function TreeStep(t: Table, subject: Id, pick: Option<Pick>): Table {
    if subject !in t then t
    else
      var createsCycle := pick.Some? && pick.value.Found? && WouldCloseCycle(t, subject, pick.value.inviter);
      var plan := PlanInviterWrite(subject, t[subject], pick, createsCycle);
      if plan.patch.Some? then TreeUpdate(t, subject, plan.patch.value) else t
  }

  datatype ConnectRow = ConnectRow(active: bool, affiliator: Option<Id>, parent: Option<Id>, hasDownlines: bool)

  /** What the connect pass decides on, given the answers of the two cycle queries. */
  function ConnectInputOf(subject: Id, cur: Link, r: ConnectRow, affiliatorCloses: bool,
      parentCloses: bool): ConnectInput {
    var reverting := (!r.active || r.affiliator == Some(subject)) && cur.source == LegacyConnect;
    var isCandidate := r.active && r.affiliator.Some? && r.affiliator.value != subject && r.affiliator != cur.inviter;
    ConnectInput(subject, cur, r.active, r.affiliator, r.parent, r.hasDownlines,
                 isCandidate && affiliatorCloses, reverting && r.parent.Some? && parentCloses)
  }

  /** The cycle query runs only for an edge that would be new, or for a parent about to be restored. */
  function ConnectInputFor(t: Table, subject: Id, r: ConnectRow): ConnectInput
    requires subject in t
  {
    ConnectInputOf(subject, t[subject], r,
                   r.affiliator.Some? && WouldCloseCycle(t, subject, r.affiliator.value),
                   r.parent.Some? && WouldCloseCycle(t, subject, r.parent.value))
  }

  function ConnectStep(t: Table, subject: Id, r: ConnectRow, variant: Variant): Table {
    if subject !in t then t
    else
      var plan := DecideConnectWrite(ConnectInputFor(t, subject, r), variant);
      if plan.patch.Some? then ConnectUpdate(t, subject, plan.patch.value, t[subject].inviter) else t
  }

  function CorrectionStep(t: Table, subject: Id, proposed: Option<Id>, allowAppOwned: bool): Table {
    if subject !in t then t
    else
      var closes := proposed.Some? && proposed != t[subject].inviter && WouldCloseCycle(t, subject, proposed.value);
      var plan := PlanInviterCorrection(subject, t[subject], proposed, closes, allowAppOwned);
      if plan.patch.Some? then CorrectionUpdate(t, subject, plan.patch.value, t[subject]) else t
  }

  // ---- what a write has to leave ----

  /** The subject is one of the first four inviters above `x`. */
  ghost predicate FourAbove(t: Table, x: Id, subject: Id) {
    exists k: nat :: 1 <= k <= 4 && Up(t, x, k) == Some(subject)
  }

  /**
   * The tree owns a link without source or of LEGACY_PARENT. There a found inviter is taken unless the
   * subject is among the four above it, and otherwise nothing but a self-inviter is removed.
   */
  ghost predicate TreeRight(t: Table, u: Table, subject: Id, pick: Option<Pick>, reason: Reason) {
    if subject !in t || t[subject].source !in {NoSource, LegacyParent} then u == t && reason == NoReason
    else
      var found := pick.Some? && pick.value.Found?;
      if found && !FourAbove(t, pick.value.inviter, subject) then
        u == t[subject := Link(Some(pick.value.inviter), LegacyParent)] &&
        (reason == Climbed <==> pick.value.hops != 0) && (reason == NoReason <==> pick.value.hops == 0)
      else
        u == (if t[subject].inviter == Some(subject) then t[subject := Link(None, NoSource)] else t) &&
        (reason == Cycle <==> found) && (reason == SelfInviter <==> pick == Some(Self)) &&
        (reason == NoReason <==> pick.None? || pick == Some(Unresolved))
  }

  /** When an active connect to another member ends as the subject's link. */
  ghost predicate ConnectLands(t: Table, subject: Id, r: ConnectRow, variant: Variant, a: Id)
    requires subject in t
  {
    || t[subject] == Link(Some(a), LegacyConnect)
    || ((t[subject].inviter == Some(a) || !FourAbove(t, a, subject)) &&
        (variant == A || r.parent == Some(a) || !r.hasDownlines))
  }

  /** A removed connect, or one to the subject itself. */
  predicate Undone(subject: Id, r: ConnectRow) { !r.active || r.affiliator == Some(subject) }

  /** The parent to go back to, if there is one that may be written. */
  ghost predicate ParentUsable(t: Table, subject: Id, parent: Option<Id>) {
    parent.Some? && parent.value != subject && !FourAbove(t, parent.value, subject)
  }

  /** A removal takes away what this connect, or the subject itself, is the inviter in. */
  predicate Removable(subject: Id, inviter: Option<Id>, affiliator: Option<Id>) {
    inviter.Some? && (inviter == affiliator || inviter == Some(subject))
  }

  ghost predicate ConnectRight(t: Table, u: Table, subject: Id, r: ConnectRow, variant: Variant) {
    && (subject !in t || t[subject].source !in {NoSource, LegacyParent, LegacyConnect} ==> u == t)
    && (subject in t && t[subject].source in {NoSource, LegacyParent, LegacyConnect} ==>
          if Undone(subject, r) then
            && (t[subject].source != LegacyConnect ==> u == t)
            && (t[subject].source == LegacyConnect ==>
                  u == if ParentUsable(t, subject, r.parent) then t[subject := Link(r.parent, LegacyParent)]
                       else if Removable(subject, t[subject].inviter, r.affiliator) then
                         t[subject := Link(None, NoSource)]
                       else t)
          else if r.affiliator.Some? && ConnectLands(t, subject, r, variant, r.affiliator.value) then
            u == t[subject := Link(r.affiliator, LegacyConnect)]
          else u == t)
  }

  /** Why the connect pass wrote, or why it did not. */
  ghost predicate ConnectReasonRight(t: Table, u: Table, subject: Id, r: ConnectRow, reason: Reason) {
    var owned := subject in t && t[subject].source in {NoSource, LegacyParent, LegacyConnect};
    var byConnect := subject in t && t[subject].source == LegacyConnect;
    var other := owned && r.active && r.affiliator.Some? && r.affiliator != Some(subject);
    && (reason == SelfConnect <==> owned && !byConnect && r.active && r.affiliator == Some(subject))
    && (reason == UnresolvedConnect <==> owned && r.active && r.affiliator.None?)
    && (reason == Cycle <==>
          other && t[subject].inviter != r.affiliator && FourAbove(t, r.affiliator.value, subject))
    && (reason == Downlines || reason == DownlinesLater ==>
          u == t && other && r.hasDownlines && t[subject] != Link(r.affiliator, LegacyConnect))
    && (reason == DownlinesLater ==> byConnect) && (reason == Downlines ==> !byConnect)
    && (reason == Reverted || reason == RevertCleared || reason == RevertKept <==> byConnect && Undone(subject, r))
    && (reason == Reverted ==> u == t[subject := Link(r.parent, LegacyParent)])
    && (reason == RevertCleared ==> u == t[subject := Link(None, NoSource)])
    && (reason == RevertKept ==> u == t)
    && (other && reason == NoReason ==> u == t[subject := Link(r.affiliator, LegacyConnect)])
    && reason != Climbed && reason != SelfInviter
  }

  /** The link a correction asks for. */
  function Wanted(proposed: Option<Id>): Link {
    if proposed.Some? then Link(proposed, LegacyParent) else Link(None, NoSource)
  }

  /** A correction lands unless the app owns the link, it names the subject, or a new edge closes a short cycle. */
  ghost predicate CorrectionRight(t: Table, u: Table, subject: Id, proposed: Option<Id>, allowAppOwned: bool,
      outcome: Outcome) {
    if subject !in t then u == t
    else
      var lands := (t[subject].source == App ==> allowAppOwned) && proposed != Some(subject) &&
        (proposed.Some? && proposed != t[subject].inviter ==> !FourAbove(t, proposed.value, subject));
      && u == (if lands then t[subject := Wanted(proposed)] else t)
      && (outcome == Applied <==> u != t)
      && (outcome == AlreadyOk <==> lands && u == t)
      && (outcome == AppOwned <==> t[subject].source == App && !allowAppOwned)
      && (outcome == SelfProposed <==> proposed == Some(subject) && outcome != AppOwned)
  }

  /** The members table as the syncers write it. */
  class Members {
    var rows: Table

    constructor (rows: Table)
      ensures this.rows == rows
    {
      this.rows := rows;
    }

    /** The query climbs row by row until it runs out of levels or rows. */
    method QueryChain(candidate: Id, levels: nat) returns (chain: seq<Option<Id>>)
      ensures chain == Chain(rows, candidate, levels)
    {
      chain := [];
      var at := Some(candidate);
      ghost var whole := Chain(rows, candidate, levels);
      while |chain| < levels && at.Some? && at.value in rows
        invariant |chain| <= levels
        invariant whole == chain + ChainFrom(rows, at, levels - |chain|)
        decreases levels - |chain|
      {
        ChainFromStep(rows, at.value, levels - |chain|, chain);
        at := rows[at.value].inviter;
        chain := chain + [at];
      }
    }

    method QueryClosesCycle(subject: Id, candidate: Id) returns (closes: bool)
      ensures closes == WouldCloseCycle(rows, subject, candidate)
    {
      var chain := QueryChain(candidate, CYCLE_CHECK_LEVELS);
      closes := ChainHitsSubject(subject, chain);
    }

    method SyncInviter(l: Legacy, subject: Id, parentNode: Option<int>) returns (reason: Reason)
      modifies this
      ensures rows == TreeStep(old(rows), subject, PickOf(l, subject, parentNode))
      ensures TreeRight(old(rows), rows, subject, PickOf(l, subject, parentNode), reason)
      ensures parentNode == None ==> reason == NoReason
    {
      TreeStepRight(rows, subject, PickOf(l, subject, parentNode));
      if subject !in rows { return NoReason; }
      var cur := rows[subject];
      var pick := None;
      if parentNode.Some? && MayOverwriteInviter(cur.source) {
        var p := ResolveInviter(l, subject, parentNode);
        pick := Some(p);
      }
      var createsCycle := false;
      if pick.Some? && pick.value.Found? {
        createsCycle := QueryClosesCycle(subject, pick.value.inviter);
      }
      var plan := PlanInviterWrite(subject, cur, pick, createsCycle);
      reason := plan.reason;
      if plan.patch.Some? {
        rows := TreeUpdate(rows, subject, plan.patch.value);
      }
    }

    method SyncConnect(subject: Id, r: ConnectRow, variant: Variant) returns (reason: Reason)
      modifies this
      ensures rows == ConnectStep(old(rows), subject, r, variant)
      ensures ConnectRight(old(rows), rows, subject, r, variant)
      ensures ConnectReasonRight(old(rows), rows, subject, r, reason)
    {
      ConnectStepRight(rows, subject, r, variant);
      ConnectReasons(rows, subject, r, variant);
      if subject !in rows { return NoReason; }
      var cur := rows[subject];
      var reverting := (!r.active || r.affiliator == Some(subject)) && cur.source == LegacyConnect;
      var connectCloses, parentCloses := false, false;
      if r.active && r.affiliator.Some? && r.affiliator.value != subject && r.affiliator != cur.inviter {
        connectCloses := QueryClosesCycle(subject, r.affiliator.value);
      }
      if reverting && r.parent.Some? {
        parentCloses := QueryClosesCycle(subject, r.parent.value);
      }
      var plan := DecideConnectWrite(
        ConnectInput(subject, cur, r.active, r.affiliator, r.parent, r.hasDownlines, connectCloses, parentCloses),
        variant);
      reason := plan.reason;
      if plan.patch.Some? {
        rows := ConnectUpdate(rows, subject, plan.patch.value, cur.inviter);
      }
    }

    method Correct(subject: Id, proposed: Option<Id>, allowAppOwned: bool) returns (outcome: Option<Outcome>)
      modifies this
      ensures rows == CorrectionStep(old(rows), subject, proposed, allowAppOwned)
      ensures outcome.None? <==> subject !in old(rows)
      ensures outcome.None? ==> rows == old(rows)
      ensures outcome.Some? ==>
        CorrectionRight(old(rows), rows, subject, proposed, allowAppOwned, outcome.value)
    {
      if subject !in rows { return None; }
      CorrectionStepRight(rows, subject, proposed, allowAppOwned);
      var cur := rows[subject];
      var closes := false;
      if proposed.Some? && proposed != cur.inviter {
        closes := QueryClosesCycle(subject, proposed.value);
      }
      var plan := PlanInviterCorrection(subject, cur, proposed, closes, allowAppOwned);
      outcome := Some(plan.outcome);
      if plan.patch.Some? {
        rows := CorrectionUpdate(rows, subject, plan.patch.value, cur);
      }
    }
  }

  // ---- the graph ----

  /** The member `k` inviters above `x`. */
  ghost function Up(t: Table, x: Id, k: nat): Option<Id>
    decreases k
  {
    if k == 0 then Some(x)
    else if x in t && t[x].inviter.Some? then Up(t, t[x].inviter.value, k - 1)
    else None
  }

  /** No member is among its own first five inviters. */
  ghost predicate NoShortCycle(t: Table) {
    forall x, k: nat :: 1 <= k <= CYCLE_CHECK_LEVELS + 1 ==> Up(t, x, k) != Some(x)
  }

  lemma {:induction false} UpAdd(t: Table, x: Id, i: nat, j: nat)
    requires Up(t, x, i).Some?
    ensures Up(t, x, i + j) == Up(t, Up(t, x, i).value, j)
    decreases i
  {
    if i > 0 { UpAdd(t, t[x].inviter.value, i - 1, j); }
  }

  lemma {:induction false} ChainFinds(t: Table, candidate: Id, levels: nat, subject: Id, k: nat)
    requires 1 <= k <= levels && Up(t, candidate, k) == Some(subject)
    ensures Some(subject) in Chain(t, candidate, levels)
    decreases k
  {
    var up := t[candidate].inviter.value;
    assert Chain(t, candidate, levels) == [Some(up)] + Chain(t, up, levels - 1);
    if k > 1 { ChainFinds(t, up, levels - 1, subject, k - 1); }
  }

  lemma {:induction false} ChainFound(t: Table, candidate: Id, levels: nat, subject: Id) returns (k: nat)
    requires Some(subject) in Chain(t, candidate, levels)
    ensures 1 <= k <= levels && Up(t, candidate, k) == Some(subject)
    decreases levels
  {
    var up := t[candidate].inviter.value;
    if up == subject {
      k := 1;
    } else {
      k := ChainFound(t, up, levels - 1, subject);
      k := k + 1;
    }
  }

  lemma {:induction false} ChainLength(t: Table, candidate: Id, levels: nat)
    ensures |Chain(t, candidate, levels)| <= levels
    decreases levels
  {
    if levels > 0 && candidate in t && t[candidate].inviter.Some? {
      ChainLength(t, t[candidate].inviter.value, levels - 1);
    }
  }

  /** What the bounded query decides. */
  lemma WouldCloseMeaning(t: Table, subject: Id, candidate: Id)
    ensures WouldCloseCycle(t, subject, candidate) <==> FourAbove(t, candidate, subject)
  {
    ChainLength(t, candidate, CYCLE_CHECK_LEVELS);
    if WouldCloseCycle(t, subject, candidate) {
      var k := ChainFound(t, candidate, CYCLE_CHECK_LEVELS, subject);
    }
    if k: nat :| 1 <= k <= CYCLE_CHECK_LEVELS && Up(t, candidate, k) == Some(subject) {
      ChainFinds(t, candidate, CYCLE_CHECK_LEVELS, subject, k);
    }
  }

  function PickOf(l: Legacy, subject: Id, parentNode: Option<int>): Option<Pick> {
    if parentNode.None? then None else Some(Climb(l, subject, parentNode, 0))
  }

  function TreePlan(t: Table, subject: Id, pick: Option<Pick>): Plan
    requires subject in t
  {
    PlanInviterWrite(subject, t[subject], pick,
                     pick.Some? && pick.value.Found? && WouldCloseCycle(t, subject, pick.value.inviter))
  }

  lemma TreeStepRight(t: Table, subject: Id, pick: Option<Pick>)
    ensures TreeRight(t, TreeStep(t, subject, pick), subject, pick,
                      if subject in t then TreePlan(t, subject, pick).reason else NoReason)
  {
    if pick.Some? && pick.value.Found? { WouldCloseMeaning(t, subject, pick.value.inviter); }
  }

  /** The two cycle answers the connect pass decides on. */
  lemma ConnectAnswers(t: Table, subject: Id, r: ConnectRow)
    requires subject in t
    ensures var i := ConnectInputFor(t, subject, r);
      && (r.active && r.affiliator.Some? && r.affiliator != Some(subject) ==>
            (i.connectClosesCycle <==>
               t[subject].inviter != r.affiliator && FourAbove(t, r.affiliator.value, subject)))
      && (Undone(subject, r) && t[subject].source == LegacyConnect && r.parent.Some? ==>
            (i.parentClosesCycle <==> FourAbove(t, r.parent.value, subject)))
  {
    if r.affiliator.Some? { WouldCloseMeaning(t, subject, r.affiliator.value); }
    if r.parent.Some? { WouldCloseMeaning(t, subject, r.parent.value); }
  }

  lemma ConnectStepRight(t: Table, subject: Id, r: ConnectRow, variant: Variant)
    ensures ConnectRight(t, ConnectStep(t, subject, r, variant), subject, r, variant)
  {
    if subject in t {
      ConnectAnswers(t, subject, r);
      assert t == t[subject := t[subject]];
    }
  }

  lemma ConnectReasons(t: Table, subject: Id, r: ConnectRow, variant: Variant)
    ensures ConnectReasonRight(t, ConnectStep(t, subject, r, variant), subject, r,
              if subject in t then DecideConnectWrite(ConnectInputFor(t, subject, r), variant).reason else NoReason)
  {
    if subject in t {
      ConnectAnswers(t, subject, r);
      assert t == t[subject := t[subject]];
    }
  }

  lemma CorrectionStepRight(t: Table, subject: Id, proposed: Option<Id>, allow: bool)
    requires subject in t
    ensures CorrectionRight(t, CorrectionStep(t, subject, proposed, allow), subject, proposed, allow,
              PlanInviterCorrection(subject, t[subject], proposed,
                proposed.Some? && proposed != t[subject].inviter && WouldCloseCycle(t, subject, proposed.value),
                allow).outcome)
  {
    if proposed.Some? { WouldCloseMeaning(t, subject, proposed.value); }
    assert t == t[subject := t[subject]];
    assert Wanted(proposed) == t[subject] || t[subject := Wanted(proposed)][subject] != t[subject];
  }

  ghost predicate AgreeBut(t: Table, u: Table, s: Id) {
    forall x :: x != s ==> (x in t <==> x in u) && (x in t ==> t[x].inviter == u[x].inviter)
  }

  /** Tables that differ only in the edge of `s` agree on a climb until it meets `s`. */
  lemma {:induction false} SameClimb(t: Table, u: Table, s: Id, x: Id, k: nat)
    requires AgreeBut(t, u, s)
    requires forall j: nat :: j < k ==> Up(u, x, j) != Some(s)
    ensures Up(t, x, k) == Up(u, x, k)
    decreases k
  {
    if k > 0 {
      assert Up(u, x, 0) != Some(s);
      if x in u && u[x].inviter.Some? {
        var y := u[x].inviter.value;
        forall j: nat | j < k - 1
          ensures Up(u, y, j) != Some(s)
        {
          assert Up(u, x, j + 1) == Up(u, y, j);
        }
        SameClimb(t, u, s, y, k - 1);
      }
    }
  }

  lemma {:induction false} FirstMeeting(t: Table, s: Id, x: Id, k: nat) returns (m: nat)
    requires Up(t, x, k) == Some(s)
    ensures m <= k && Up(t, x, m) == Some(s)
    ensures forall j: nat :: j < m ==> Up(t, x, j) != Some(s)
  {
    if j: nat :| j < k && Up(t, x, j) == Some(s) {
      m := FirstMeeting(t, s, x, j);
    } else {
      m := k;
    }
  }

  /** Whether an edge may be written does not depend on the edge it replaces. */
  lemma CheckIgnoresOwnEdge(t: Table, u: Table, subject: Id, candidate: Id)
    requires AgreeBut(t, u, subject) && candidate != subject
    ensures WouldCloseCycle(t, subject, candidate) == WouldCloseCycle(u, subject, candidate)
  {
    WouldCloseMeaning(t, subject, candidate);
    WouldCloseMeaning(u, subject, candidate);
    if k: nat :| 1 <= k <= CYCLE_CHECK_LEVELS && Up(u, candidate, k) == Some(subject) {
      var m := FirstMeeting(u, subject, candidate, k);
      SameClimb(t, u, subject, candidate, m);
    }
    if k: nat :| 1 <= k <= CYCLE_CHECK_LEVELS && Up(t, candidate, k) == Some(subject) {
      var m := FirstMeeting(t, subject, candidate, k);
      SameClimb(u, t, subject, candidate, m);
    }
  }

  /** A cycle through `s` can be read from `s`. */
  lemma Rotate(t: Table, x: Id, s: Id, j: nat, k: nat)
    requires j <= k && Up(t, x, k) == Some(x) && Up(t, x, j) == Some(s)
    ensures Up(t, s, k) == Some(s)
  {
    UpAdd(t, x, j, k - j);
    UpAdd(t, s, k - j, j);
  }

  /** Writing a checked edge closes no short cycle. */
  lemma CheckedEdgeSafe(t: Table, u: Table, s: Id, c: Id)
    requires NoShortCycle(t) && AgreeBut(t, u, s)
    requires s in u && u[s].inviter == Some(c)
    requires c != s && !WouldCloseCycle(t, s, c)
    ensures NoShortCycle(u)
  {
    WouldCloseMeaning(t, s, c);
    forall x, k: nat | 1 <= k <= CYCLE_CHECK_LEVELS + 1 && Up(u, x, k) == Some(x)
      ensures false
    {
      if j: nat :| j < k && Up(u, x, j) == Some(s) {
        Rotate(u, x, s, j, k);
        assert Up(u, c, k - 1) == Some(s);
        var m := FirstMeeting(u, s, c, k - 1);
        SameClimb(t, u, s, c, m);
      } else {
        SameClimb(t, u, s, x, k);
      }
    }
  }

  lemma {:induction false} ClearedEdgeClimb(t: Table, u: Table, s: Id, x: Id, k: nat)
    requires AgreeBut(t, u, s) && s in u && u[s].inviter.None?
    ensures Up(u, x, k).Some? ==> Up(t, x, k) == Up(u, x, k)
    decreases k
  {
    if k > 0 && x in u && u[x].inviter.Some? {
      ClearedEdgeClimb(t, u, s, u[x].inviter.value, k - 1);
    }
  }

  lemma {:induction false} SameEdgesClimb(t: Table, u: Table, x: Id, k: nat)
    requires forall y :: (y in t <==> y in u) && (y in t ==> t[y].inviter == u[y].inviter)
    ensures Up(t, x, k) == Up(u, x, k)
    decreases k
  {
    if k > 0 && x in u && u[x].inviter.Some? {
      SameEdgesClimb(t, u, u[x].inviter.value, k - 1);
    }
  }

  /** The three ways a step may change the edge of its subject. */
  lemma WriteKeepsNoShortCycle(t: Table, s: Id, link: Link)
    requires NoShortCycle(t) && s in t
    requires link.inviter.Some? && link.inviter != t[s].inviter ==>
               link.inviter.value != s && !WouldCloseCycle(t, s, link.inviter.value)
    ensures NoShortCycle(t[s := link])
  {
    var u := t[s := link];
    if link.inviter == t[s].inviter {
      forall x, k: nat | 1 <= k <= CYCLE_CHECK_LEVELS + 1
        ensures Up(u, x, k) != Some(x)
      {
        SameEdgesClimb(t, u, x, k);
      }
    } else if link.inviter.None? {
      forall x, k: nat | 1 <= k <= CYCLE_CHECK_LEVELS + 1
        ensures Up(u, x, k) != Some(x)
      {
        ClearedEdgeClimb(t, u, s, x, k);
      }
    } else {
      CheckedEdgeSafe(t, u, s, link.inviter.value);
    }
  }

  // ---- every run ----

  /** One atomic write of the resync side; a pick never is the subject (`ClimbMeaning`). */
  ghost predicate Step(t: Table, u: Table) {
    || (exists subject, pick ::
          u == TreeStep(t, subject, pick) && (pick.Some? && pick.value.Found? ==> pick.value.inviter != subject))
    || (exists subject, r, variant :: u == ConnectStep(t, subject, r, variant))
    || (exists subject, proposed, allow :: u == CorrectionStep(t, subject, proposed, allow))
  }

  lemma TreeStepKeeps(t: Table, subject: Id, pick: Option<Pick>)
    requires NoShortCycle(t) && (pick.Some? && pick.value.Found? ==> pick.value.inviter != subject)
    ensures NoShortCycle(TreeStep(t, subject, pick))
  {
    var u := TreeStep(t, subject, pick);
    if u != t { WriteKeepsNoShortCycle(t, subject, u[subject]); }
  }

  lemma ConnectStepKeeps(t: Table, subject: Id, r: ConnectRow, variant: Variant)
    requires NoShortCycle(t)
    ensures NoShortCycle(ConnectStep(t, subject, r, variant))
  {
    var u := ConnectStep(t, subject, r, variant);
    if u != t { WriteKeepsNoShortCycle(t, subject, u[subject]); }
  }

  lemma CorrectionStepKeeps(t: Table, subject: Id, proposed: Option<Id>, allow: bool)
    requires NoShortCycle(t)
    ensures NoShortCycle(CorrectionStep(t, subject, proposed, allow))
  {
    var u := CorrectionStep(t, subject, proposed, allow);
    if u != t { WriteKeepsNoShortCycle(t, subject, u[subject]); }
  }

  lemma StepKeepsNoShortCycle(t: Table, u: Table)
    requires NoShortCycle(t) && Step(t, u)
    ensures NoShortCycle(u)
  {
    if subject, pick :|
      u == TreeStep(t, subject, pick) && (pick.Some? && pick.value.Found? ==> pick.value.inviter != subject)
    {
      TreeStepKeeps(t, subject, pick);
    } else if subject, r, variant :| u == ConnectStep(t, subject, r, variant) {
      ConnectStepKeeps(t, subject, r, variant);
    } else {
      var subject, proposed, allow :| u == CorrectionStep(t, subject, proposed, allow);
      CorrectionStepKeeps(t, subject, proposed, allow);
    }
  }

  /** Any sequence of tree, connect and correction steps, on any members, with any legacy data. */
  lemma {:induction false} NoShortCycleEver(b: seq<Table>, k: nat)
    requires k < |b| && NoShortCycle(b[0])
    requires forall i, j :: 0 <= i < j < |b| && j == i + 1 ==> Step(b[i], b[j])
    ensures NoShortCycle(b[k])
  {
    if k > 0 {
      NoShortCycleEver(b, k - 1);
      assert Step(b[k - 1], b[k]);
      StepKeepsNoShortCycle(b[k - 1], b[k]);
    }
  }

  /** The bound is exact: a cycle of six members passes the query. */
  lemma LongerCyclesPass() returns (t: Table, u: Table)
    ensures NoShortCycle(t) && Step(t, u)
    ensures Up(u, 0, 6) == Some(0)
  {
    t := map[0 := CLEARED, 1 := Link(Some(2), LegacyParent), 2 := Link(Some(3), LegacyParent),
             3 := Link(Some(4), LegacyParent), 4 := Link(Some(5), LegacyParent), 5 := Link(Some(0), LegacyParent)];
    var pick := Some(Found(1, 0));
    u := TreeStep(t, 0, pick);
    forall x, k: nat | 1 <= k <= CYCLE_CHECK_LEVELS + 1 && Up(t, x, k).Some?
      ensures Up(t, x, k) != Some(x)
    {
      ClimbsUpwards(t, x, k);
    }
    assert Chain(t, 5, 0) == [] && Chain(t, 4, 1) == [Some(5)] && Chain(t, 3, 2) == [Some(4), Some(5)];
    assert Chain(t, 2, 3) == [Some(3), Some(4), Some(5)];
    assert Chain(t, 1, 4) == [Some(2), Some(3), Some(4), Some(5)];
    assert u == t[0 := Link(Some(1), LegacyParent)];
    assert Up(u, 5, 1) == Up(u, 0, 0) && Up(u, 4, 2) == Up(u, 5, 1) && Up(u, 3, 3) == Up(u, 4, 2);
    assert Up(u, 2, 4) == Up(u, 3, 3) && Up(u, 1, 5) == Up(u, 2, 4) && Up(u, 0, 6) == Up(u, 1, 5);
  }

  lemma {:induction false} ClimbsUpwards(t: Table, x: Id, k: nat)
    requires forall y :: y in t && t[y].inviter.Some? ==> y != 0 && (t[y].inviter.value > y || t[y].inviter == Some(0))
    requires k > 0 && Up(t, x, k).Some?
    ensures x != 0 && (Up(t, x, k).value > x || Up(t, x, k) == Some(0))
    decreases k
  {
    if k > 1 { ClimbsUpwards(t, t[x].inviter.value, k - 1); }
  }
}
