/**
 * Who may change an inviter when reads and writes of several passes and of the app interleave: each
 * pass plans on the link it read, and its guarded update meets whatever the row holds by then.
 */
module InviterProvenance {
  import opened Prelude
  import opened InviterRules
  import opened InviterGraph

  /** A planned write that has not reached the database yet. */
  datatype Pending =
    | TreeWrite(subject: Id, patch: Link)
    | ConnectWrite(subject: Id, patch: Link, readInviter: Option<Id>)
    | CorrectionWrite(subject: Id, patch: Link, read: Link, allowAppOwned: bool)

  datatype State = State(table: Table, pending: set<Pending>)

  function Landed(t: Table, p: Pending): Table {
    match p
    case TreeWrite(s, patch) => TreeUpdate(t, s, patch)
    case ConnectWrite(s, patch, readInviter) => ConnectUpdate(t, s, patch, readInviter)
    case CorrectionWrite(s, patch, read, _) => CorrectionUpdate(t, s, patch, read)
  }

  // The cycle query's answer is arbitrary here: it may be stale by the time of the write.

  ghost predicate PlanTree(s: State, u: State, subject: Id, pick: Option<Pick>, cycle: bool) {
    subject in s.table &&
    var plan := PlanInviterWrite(subject, s.table[subject], pick, cycle);
    plan.patch.Some? && u == s.(pending := s.pending + {TreeWrite(subject, plan.patch.value)})
  }

  ghost predicate PlanConnect(s: State, u: State, i: ConnectInput, variant: Variant) {
    i.subject in s.table && i.current == s.table[i.subject] &&
    var plan := DecideConnectWrite(i, variant);
    plan.patch.Some? &&
    u == s.(pending := s.pending + {ConnectWrite(i.subject, plan.patch.value, i.current.inviter)})
  }

  ghost predicate PlanCorrection(s: State, u: State, subject: Id, proposed: Option<Id>, cycle: bool, allow: bool) {
    subject in s.table &&
    var plan := PlanInviterCorrection(subject, s.table[subject], proposed, cycle, allow);
    plan.patch.Some? &&
    u == s.(pending := s.pending + {CorrectionWrite(subject, plan.patch.value, s.table[subject], allow)})
  }

  ghost predicate Land(s: State, u: State, p: Pending) {
    p in s.pending && u == State(Landed(s.table, p), s.pending - {p})
  }

  /** A member registers or connects in the app. */
  ghost predicate AppActs(s: State, u: State, subject: Id) {
    subject in u.table && u.table[subject].source == App &&
    u == s.(table := s.table[subject := u.table[subject]])
  }

  ghost predicate Next(s: State, u: State) {
    || (exists subject, pick, cycle :: PlanTree(s, u, subject, pick, cycle))
    || (exists i, variant :: PlanConnect(s, u, i, variant))
    || (exists subject, proposed, cycle, allow :: PlanCorrection(s, u, subject, proposed, cycle, allow))
    || (exists p :: Land(s, u, p))
    || (exists subject :: AppActs(s, u, subject))
  }

  ghost predicate Behaviour(b: seq<State>) {
    b != [] && b[0].pending == {} && forall i, j :: 0 <= i < j < |b| && j == i + 1 ==> Next(b[i], b[j])
  }

  /** What every planned write carries from the decision it was made by. */
  predicate WellPlanned(p: Pending) {
    match p
    case TreeWrite(s, patch) => patch == CLEARED || (patch.inviter.Some? && patch.source == LegacyParent)
    case ConnectWrite(s, patch, _) => patch == CLEARED || (patch.inviter.Some? && OwnedSource(patch.source))
    case CorrectionWrite(s, patch, read, allow) => patch.source != App && (read.source == App ==> allow)
  }

  lemma {:induction false} PlansAreWellFormed(b: seq<State>, k: nat)
    requires Behaviour(b) && k < |b|
    ensures forall p :: p in b[k].pending ==> WellPlanned(p)
  {
    if k > 0 {
      PlansAreWellFormed(b, k - 1);
      var s, u := b[k - 1], b[k];
      assert Next(b[k - 1], b[k]);
      if p :| Land(s, u, p) {
        assert u.pending <= s.pending;
      }
    }
  }

  predicate OverridesApp(p: Pending) { p.CorrectionWrite? && p.allowAppOwned }

  /** What the row must still be for a write to land on it. */
  predicate StillFits(p: Pending, now: Link) {
    match p
    case TreeWrite(s, patch) =>
      now.source in {NoSource, LegacyParent} && (patch.inviter == None ==> now.inviter == Some(s))
    case ConnectWrite(s, patch, readInviter) =>
      now.source in {NoSource, LegacyParent, LegacyConnect} && (patch.inviter == None ==> now.inviter == readInviter)
    case CorrectionWrite(_, _, read, _) => now == read
  }

  /** A write that lands puts its patch onto its subject, and one that does not changes nothing. */
  lemma LandsIffStillFits(s: State, u: State, p: Pending)
    requires Land(s, u, p)
    ensures p.subject in s.table && StillFits(p, s.table[p.subject]) ==> u.table == s.table[p.subject := p.patch]
    ensures p.subject !in s.table || !StillFits(p, s.table[p.subject]) ==> u.table == s.table
  {
  }

  /**
   * An inviter with source APP is changed by nobody but the app, or by a correction that opted in,
   * even if the app wrote it between another pass's read and write.
   */
  lemma AppInviterSurvives(b: seq<State>, k: nat, subject: Id)
    requires Behaviour(b) && k + 1 < |b|
    requires subject in b[k].table && b[k].table[subject].source == App
    requires !AppActs(b[k], b[k + 1], subject)
    requires forall p :: Land(b[k], b[k + 1], p) ==> !OverridesApp(p)
    ensures subject in b[k + 1].table && b[k + 1].table[subject] == b[k].table[subject]
  {
    PlansAreWellFormed(b, k);
    assert Next(b[k], b[k + 1]);
    var s, u := b[k], b[k + 1];
    if p :| Land(s, u, p) {
      assert WellPlanned(p);
      match p
      case TreeWrite(_, _) =>
      case ConnectWrite(_, _, _) =>
      case CorrectionWrite(_, _, read, allow) => assert !OverridesApp(p);
    }
  }

  /** The tree never turns an inviter other than the subject itself into null, whenever its write lands. */
  lemma TreeNeverNulls(b: seq<State>, k: nat, p: Pending)
    requires Behaviour(b) && k + 1 < |b| && Land(b[k], b[k + 1], p) && p.TreeWrite?
    ensures forall x :: x in b[k].table && b[k].table[x].inviter.Some? && b[k].table[x].inviter != Some(x) ==>
      x in b[k + 1].table && b[k + 1].table[x].inviter.Some?
  {
    PlansAreWellFormed(b, k);
    assert WellPlanned(p);
  }

  /** The connect pass clears an inviter only if the row still holds the inviter it decided on. */
  lemma ConnectClearsOnlyWhatItRead(s: State, u: State, p: Pending, x: Id)
    requires Land(s, u, p) && p.ConnectWrite? && x in s.table
    requires u.table[x].inviter.None? && s.table[x].inviter.Some?
    ensures x == p.subject && s.table[x].inviter == p.readInviter && OwnedSource(s.table[x].source)
  {
  }
}
