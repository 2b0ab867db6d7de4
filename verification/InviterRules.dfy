/**
 * Decision rules for `members.inviter_id` / `inviter_source` (inviter-rules.ts, connect-rules.ts,
 * inviter-correction-rules.ts) and the walk that finds a subject's legacy inviter (tree.ts, connect.ts).
 */
module InviterRules {
  import opened Prelude
  import opened Redirects

  type Id = int

  /** `Other` is any source string this code does not know. */
  datatype Source = NoSource | LegacyParent | LegacyConnect | App | Other(name: string)

  datatype Link = Link(inviter: Option<Id>, source: Source)

  const MAX_CLIMB_HOPS: nat := 5
  const CYCLE_CHECK_LEVELS: nat := 4

  // ---- the tree's pick ----

  datatype Pick = Found(inviter: Id, hops: nat) | Unresolved | Self

  /** Self entries are skipped; the first other member within the bound wins. */
  method PickInviter(subject: Id, ancestors: seq<Option<Id>>) returns (pick: Pick)
    ensures pick == PickFrom(subject, ancestors, 0)
  {
    var bounded := if |ancestors| > MAX_CLIMB_HOPS + 1 then ancestors[..MAX_CLIMB_HOPS + 1] else ancestors;
    var hops := 0;
    while hops < |bounded|
      invariant hops <= |bounded| && PickFrom(subject, ancestors, hops) == PickFrom(subject, ancestors, 0)
    {
      var id := bounded[hops];
      if id.None? { return Unresolved; }
      if id.value != subject { return Found(id.value, hops); }
      hops := hops + 1;
    }
    pick := Self;
  }

  function PickFrom(subject: Id, ancestors: seq<Option<Id>>, hops: nat): Pick
    decreases |ancestors| - hops
  {
    if hops >= |ancestors| || hops > MAX_CLIMB_HOPS then Self
    else if ancestors[hops].None? then Unresolved
    else if ancestors[hops].value != subject then Found(ancestors[hops].value, hops)
    else PickFrom(subject, ancestors, hops + 1)
  }

  /** A node of the legacy network: its member and its parent node. */
  datatype Node = Node(member: Option<int>, parent: Option<int>)

  datatype Legacy = Legacy(nodes: map<int, Node>, redirect: map<int, int>, memberByLegacy: map<int, Id>)

  function ResolveMember(l: Legacy, legacyId: int): Option<Id> {
    var winner := Resolve(l.redirect, legacyId);
    if winner in l.memberByLegacy then Some(l.memberByLegacy[winner]) else None
  }

  function MemberOfNode(l: Legacy, node: int): Option<Id> {
    if node in l.nodes && l.nodes[node].member.Some? then ResolveMember(l, l.nodes[node].member.value) else None
  }

  function ParentOfNode(l: Legacy, node: int): Option<int> {
    if node in l.nodes then l.nodes[node].parent else None
  }

  /** The inviter of a subject, said directly: climb past the subject's own nodes, at most five times. */
  function Climb(l: Legacy, subject: Id, node: Option<int>, hops: nat): Pick
    decreases MAX_CLIMB_HOPS + 1 - hops
  {
    if node.None? || hops > MAX_CLIMB_HOPS then Self
    else
      var m := MemberOfNode(l, node.value);
      if m.None? then Unresolved
      else if m.value != subject then Found(m.value, hops)
      else Climb(l, subject, ParentOfNode(l, node.value), hops + 1)
  }

  /** Collects ancestors node by node, then picks. */
  method ResolveInviter(l: Legacy, subject: Id, parentNode: Option<int>) returns (pick: Pick)
    ensures pick == Climb(l, subject, parentNode, 0)
  {
    var ancestors: seq<Option<Id>> := [];
    var node := parentNode;
    var hop := 0;
    while hop <= MAX_CLIMB_HOPS && node.Some?
      invariant hop == |ancestors| <= MAX_CLIMB_HOPS + 1
      invariant forall i :: 0 <= i < |ancestors| ==> ancestors[i] == Some(subject)
      invariant Climb(l, subject, node, hop) == Climb(l, subject, parentNode, 0)
      decreases MAX_CLIMB_HOPS + 1 - hop
    {
      var m := MemberOfNode(l, node.value);
      ancestors := ancestors + [m];
      if m != Some(subject) {
        PickSkipsSelf(subject, ancestors, hop);
        break;
      }
      node := ParentOfNode(l, node.value);
      hop := hop + 1;
    }
    if forall i :: 0 <= i < |ancestors| ==> ancestors[i] == Some(subject) {
      PickSkipsSelf(subject, ancestors, |ancestors|);
    }
    pick := PickInviter(subject, ancestors);
  }

  lemma {:induction false} PickSkipsSelf(subject: Id, ancestors: seq<Option<Id>>, k: nat)
    requires k <= |ancestors| && k <= MAX_CLIMB_HOPS + 1
    requires forall i :: 0 <= i < k ==> ancestors[i] == Some(subject)
    ensures PickFrom(subject, ancestors, 0) == PickFrom(subject, ancestors, k)
  {
    if k > 0 { PickSkipsSelf(subject, ancestors, k - 1); }
  }

  /** The node `k` parents above. */
  function NodeAbove(l: Legacy, node: Option<int>, k: nat): Option<int>
    decreases k
  {
    if k == 0 || node.None? then node else NodeAbove(l, ParentOfNode(l, node.value), k - 1)
  }

  /** A found inviter is somebody else, and everything climbed past was the subject itself. */
  lemma {:induction false} ClimbMeaning(l: Legacy, subject: Id, node: Option<int>, hops: nat)
    ensures var p := Climb(l, subject, node, hops);
      p.Found? ==>
        && hops <= p.hops <= MAX_CLIMB_HOPS && p.inviter != subject
        && NodeAbove(l, node, p.hops - hops).Some?
        && MemberOfNode(l, NodeAbove(l, node, p.hops - hops).value) == Some(p.inviter)
        && forall k :: 0 <= k < p.hops - hops ==>
             NodeAbove(l, node, k).Some? && MemberOfNode(l, NodeAbove(l, node, k).value) == Some(subject)
    decreases MAX_CLIMB_HOPS + 1 - hops
  {
    var p := Climb(l, subject, node, hops);
    if node.Some? && hops <= MAX_CLIMB_HOPS && MemberOfNode(l, node.value) == Some(subject) {
      var up := ParentOfNode(l, node.value);
      assert p == Climb(l, subject, up, hops + 1);
      ClimbMeaning(l, subject, up, hops + 1);
      forall k | p.Found? && 0 <= k < p.hops - hops
        ensures NodeAbove(l, node, k).Some? && MemberOfNode(l, NodeAbove(l, node, k).value) == Some(subject)
      {
        if k > 0 { assert NodeAbove(l, node, k) == NodeAbove(l, up, k - 1); }
      }
    }
  }

  /** The node `k` parents above is the first that is not the subject's own. */
  predicate FirstOther(l: Legacy, subject: Id, node: Option<int>, k: nat) {
    NodeAbove(l, node, k).Some? && MemberOfNode(l, NodeAbove(l, node, k).value) != Some(subject) &&
    forall j: nat :: j < k ==>
      NodeAbove(l, node, j).Some? && MemberOfNode(l, NodeAbove(l, node, j).value) == Some(subject)
  }

  /** Up to five parents above, the first node of somebody else settles the climb. */
  lemma {:induction false} ClimbFinds(l: Legacy, subject: Id, node: Option<int>, k: nat, hops: nat)
    requires FirstOther(l, subject, node, k) && hops + k <= 5
    ensures var m := MemberOfNode(l, NodeAbove(l, node, k).value);
      Climb(l, subject, node, hops) == if m.Some? then Found(m.value, hops + k) else Unresolved
    decreases k
  {
    if k > 0 {
      assert NodeAbove(l, node, 0).Some?;
      var up := ParentOfNode(l, node.value);
      forall j: nat | j < k - 1
        ensures NodeAbove(l, up, j).Some? && MemberOfNode(l, NodeAbove(l, up, j).value) == Some(subject)
      {
        assert NodeAbove(l, up, j) == NodeAbove(l, node, j + 1);
      }
      ClimbFinds(l, subject, up, k - 1, hops + 1);
    }
  }

  /** The climb comes back empty exactly when no such node is within five parents. */
  lemma ClimbIsSelf(l: Legacy, subject: Id, node: Option<int>)
    ensures Climb(l, subject, node, 0) == Self <==> forall k: nat :: k <= 5 ==> !FirstOther(l, subject, node, k)
  {
    if Climb(l, subject, node, 0) != Self {
      var k := ClimbStops(l, subject, node, 0);
    }
    if k: nat :| k <= 5 && FirstOther(l, subject, node, k) {
      ClimbFinds(l, subject, node, k, 0);
    }
  }

  lemma {:induction false} ClimbStops(l: Legacy, subject: Id, node: Option<int>, hops: nat) returns (k: nat)
    requires Climb(l, subject, node, hops) != Self
    ensures hops + k <= 5 && FirstOther(l, subject, node, k)
    decreases MAX_CLIMB_HOPS + 1 - hops
  {
    if MemberOfNode(l, node.value) != Some(subject) {
      k := 0;
    } else {
      var up := ParentOfNode(l, node.value);
      var above := ClimbStops(l, subject, up, hops + 1);
      k := above + 1;
      forall j: nat | j < k
        ensures NodeAbove(l, node, j).Some? && MemberOfNode(l, NodeAbove(l, node, j).value) == Some(subject)
      {
        if j > 0 { assert NodeAbove(l, node, j) == NodeAbove(l, up, j - 1); }
      }
    }
  }

  /** A path in the legacy network, each node's parent next. */
  ghost predicate IsPath(l: Legacy, path: seq<int>) {
    forall i, j :: 0 <= i < j < |path| && j == i + 1 ==>
      path[i] in l.nodes && l.nodes[path[i]].parent == Some(path[j])
  }

  /** The node carries a legacy id that, redirected if it lost, was migrated as member `m`. */
  ghost predicate Carries(l: Legacy, node: int, m: Id) {
    node in l.nodes && l.nodes[node].member != None &&
    var id := l.nodes[node].member.value;
    var winner := if id in l.redirect then l.redirect[id] else id;
    winner in l.memberByLegacy && l.memberByLegacy[winner] == m
  }

  lemma {:induction false} PathAbove(l: Legacy, path: seq<int>, i: nat, k: nat)
    requires IsPath(l, path) && i + k < |path|
    ensures NodeAbove(l, Some(path[i]), k) == Some(path[i + k])
    decreases k
  {
    if k > 0 {
      assert ParentOfNode(l, path[i]) == Some(path[i + 1]);
      PathAbove(l, path, i + 1, k - 1);
    }
  }

  /** The climb on the legacy rows: past at most five nodes of the subject, the next one's member is the inviter. */
  lemma ClimbsThePath(l: Legacy, subject: Id, path: seq<int>, m: Id)
    requires 1 <= |path| <= 6 && IsPath(l, path) && m != subject && Carries(l, path[|path| - 1], m)
    requires forall i :: 0 <= i < |path| - 1 ==> Carries(l, path[i], subject)
    ensures Climb(l, subject, Some(path[0]), 0) == Found(m, |path| - 1)
  {
    forall k: nat | k < |path|
      ensures NodeAbove(l, Some(path[0]), k) == Some(path[k])
    {
      PathAbove(l, path, 0, k);
    }
    ClimbFinds(l, subject, Some(path[0]), |path| - 1, 0);
  }

  // ---- writes ----

  predicate MayOverwriteInviter(source: Source) { source == NoSource || source == LegacyParent }

  datatype Reason =
    | NoReason | Climbed | SelfInviter | Cycle
    | SelfConnect | UnresolvedConnect | Downlines | DownlinesLater | Reverted | RevertCleared | RevertKept

  datatype Plan = Plan(patch: Option<Link>, reason: Reason)

  const CLEARED := Link(None, NoSource)

  function PlanInviterWrite(subject: Id, current: Link, pick: Option<Pick>, createsCycle: bool): Plan {
    if !MayOverwriteInviter(current.source) then Plan(None, NoReason)
    else if pick.Some? && pick.value.Found? && !createsCycle then
      Plan(Some(Link(Some(pick.value.inviter), LegacyParent)), if pick.value.hops > 0 then Climbed else NoReason)
    else
      var patch := if current.inviter == Some(subject) then Some(CLEARED) else None;
      if pick == Some(Self) then Plan(patch, SelfInviter)
      else if pick.Some? && pick.value.Found? then Plan(patch, Cycle)
      else Plan(patch, NoReason)
  }

  datatype Variant = A | C

  datatype ConnectInput = ConnectInput(
    subject: Id,
    current: Link,
    connectActive: bool,
    affiliator: Option<Id>,
    parent: Option<Id>,
    hasDownlines: bool,
    connectClosesCycle: bool,
    parentClosesCycle: bool)

  predicate OwnedSource(source: Source) { source == NoSource || source == LegacyParent || source == LegacyConnect }

  /** JavaScript `===` between a nullable id and an optional one: null and undefined differ. */
  predicate SameId(a: Option<Id>, b: Option<Id>) { a.Some? && b.Some? && a.value == b.value }

  function PlanRevert(i: ConnectInput): Plan {
    if i.parent.Some? && i.parent.value != i.subject && !i.parentClosesCycle then
      Plan(Some(Link(i.parent, LegacyParent)), Reverted)
    else if SameId(i.current.inviter, i.affiliator) || i.current.inviter == Some(i.subject) then
      Plan(Some(CLEARED), RevertCleared)
    else Plan(None, RevertKept)
  }

  function DecideConnectWrite(i: ConnectInput, variant: Variant): Plan {
    var ownedByConnect := i.current.source == LegacyConnect;
    var selfConnect := i.connectActive && i.affiliator == Some(i.subject);
    if !OwnedSource(i.current.source) then Plan(None, NoReason)
    else if !i.connectActive || selfConnect then
      if ownedByConnect then PlanRevert(i) else Plan(None, if selfConnect then SelfConnect else NoReason)
    else if i.affiliator.None? then Plan(None, UnresolvedConnect)
    else if ownedByConnect && i.current.inviter == i.affiliator then Plan(None, NoReason)
    else if i.connectClosesCycle then Plan(None, Cycle)
    else if variant == C && i.affiliator != i.parent && i.hasDownlines then
      Plan(None, if ownedByConnect then DownlinesLater else Downlines)
    else Plan(Some(Link(i.affiliator, LegacyConnect)), NoReason)
  }

  datatype Outcome = Applied | AlreadyOk | AppOwned | SelfProposed | ClosesCycle

  datatype CorrectionPlan = CorrectionPlan(patch: Option<Link>, outcome: Outcome)

  function PlanInviterCorrection(subject: Id, current: Link, proposed: Option<Id>, proposedClosesCycle: bool,
                                 allowAppOwned: bool): CorrectionPlan {
    var source := if proposed.None? then NoSource else LegacyParent;
    if current.source == App && !allowAppOwned then CorrectionPlan(None, AppOwned)
    else if proposed == Some(subject) then CorrectionPlan(None, SelfProposed)
    else if proposed.Some? && proposedClosesCycle then CorrectionPlan(None, ClosesCycle)
    else if current == Link(proposed, source) then CorrectionPlan(None, AlreadyOk)
    else CorrectionPlan(Some(Link(proposed, source)), Applied)
  }
}
