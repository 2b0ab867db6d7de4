/**
 * Lazy member creation with calls under way at once (ensure-member.ts): each call looks up, decides and
 * writes in steps, with any steps of other calls and of the app in between. One call per legacy id is
 * under way at a time, which is what the map of pending calls is for.
 */
module EnsureRuns {
  import opened Prelude
  import opened IdentityRules
  import opened Redirects
  import opened MemberTables
  import opened EnsureMember

  /** Where a call is. A row is held as the query returned it, whatever has become of it since. */
  datatype Phase =
    | Looking
    | Found(id: Uuid, m: Member)
    | Inserting(p: Profile)
    | Joining(p: Profile)                                             // the insert clashed
    | Joined(id: Uuid, m: Member)                                     // a strong holder, found after a clash
    | Adopting(id: Uuid, read: Profile, dropped: Option<Field>)
    | Landed(id: Uuid)                                                // written, the map does not say so yet

  datatype State = State(run: Run, calls: map<int, Phase>)

  function Ended(calls: map<int, Phase>, l: int): map<int, Phase> { calls - {l} }

  // ---- steps ----

  ghost predicate Begin(s: State, t: State, legacy: map<int, LegacyMember>, l: int) {
    l !in s.calls && Creatable(legacy, l) && l !in s.run.memberByLegacy && l !in s.run.redirect &&
    t == s.(calls := s.calls[l := Looking])
  }

  /** The two lookups; when both find nothing, at their own moments, an insert is sent. */
  ghost predicate Look(s: State, t: State, legacy: map<int, LegacyMember>, l: int) {
    l in s.calls && s.calls[l].Looking? && Creatable(legacy, l) &&
    (t == s.(calls := s.calls[l := Inserting(legacy[l].profile)]) ||
     exists id :: id in s.run.rows && Matches(legacy[l].profile.keys, s.run.rows[id]) &&
       t == s.(calls := s.calls[l := Found(id, s.run.rows[id])]))
  }

  function AfterDecision(s: State, legacy: map<int, LegacyMember>, l: int, id: Uuid, m: Member): State
    requires Creatable(legacy, l)
  {
    var p := legacy[l].profile;
    match DecideIdentityMatch(l, p.keys, Some(m.profile.keys), m.legacyId)
    case Redirect =>
      if m.legacyId.Some? then
        State(s.run.(redirect := s.run.redirect[l := m.legacyId.value]), Ended(s.calls, l))
      else s
    case Map => State(s.run.(memberByLegacy := s.run.memberByLegacy[l := id]), Ended(s.calls, l))
    case Adopt => s.(calls := s.calls[l := Adopting(id, m.profile, None)])
    case SeparateWithoutPhone => s.(calls := s.calls[l := Inserting(WithoutPhone(p))])
    case Create => s.(calls := s.calls[l := Inserting(p)])
  }

  ghost predicate Decide(s: State, t: State, legacy: map<int, LegacyMember>, l: int) {
    l in s.calls && s.calls[l].Found? && Creatable(legacy, l) &&
    t == AfterDecision(s, legacy, l, s.calls[l].id, s.calls[l].m)
  }

  /** The adopt's update is unconditional: it does not ask whether the row still is a placeholder. */
  ghost predicate AdoptLands(s: State, t: State, legacy: map<int, LegacyMember>, l: int) {
    l in s.calls && s.calls[l].Adopting? && Creatable(legacy, l) && s.calls[l].id in s.run.rows &&
    var id, read, dropped := s.calls[l].id, s.calls[l].read, s.calls[l].dropped;
    var row := TakenRow(legacy, l, s.run.rows[id].profile, read, dropped);
    if Fits(s.run.rows, id, row) then
      t == State(s.run.(rows := s.run.rows[id := row]), s.calls[l := Landed(id)])
    else if dropped.None? then
      exists f :: Violates(s.run.rows, id, row, f) && t == s.(calls := s.calls[l := Adopting(id, read, Some(f))])
    else t == s.(calls := Ended(s.calls, l))
  }

  ghost predicate InsertLands(s: State, t: State, l: int) {
    l in s.calls && s.calls[l].Inserting? &&
    var p := s.calls[l].p;
    exists id :: id !in s.run.rows &&
      if Fits(s.run.rows, id, Member(Some(l), p)) then
        t == State(s.run.(rows := s.run.rows[id := Member(Some(l), p)]), s.calls[l := Landed(id)])
      else t == s.(calls := s.calls[l := Joining(p)])
  }

  ghost predicate JoinLook(s: State, t: State, l: int) {
    l in s.calls && s.calls[l].Joining? &&
    var p := s.calls[l].p;
    (exists id :: StrongHolder(s.run.rows, p.keys, id) &&
       t == s.(calls := s.calls[l := Joined(id, s.run.rows[id])])) ||
    (NoStrongHolder(s.run.rows, p.keys) &&
     t == s.(calls := if p.keys.phone.Some? then s.calls[l := Inserting(WithoutPhone(p))] else Ended(s.calls, l)))
  }

  ghost predicate JoinDecide(s: State, t: State, l: int) {
    l in s.calls && s.calls[l].Joined? &&
    var id, w := s.calls[l].id, s.calls[l].m.legacyId;
    t == State(if w.Some? && w.value != l then s.run.(redirect := s.run.redirect[l := w.value])
               else s.run.(memberByLegacy := s.run.memberByLegacy[l := id]),
               Ended(s.calls, l))
  }

  /** The call's continuation after its write. */
  ghost predicate SetMap(s: State, t: State, l: int) {
    l in s.calls && s.calls[l].Landed? &&
    t == State(s.run.(memberByLegacy := s.run.memberByLegacy[l := s.calls[l].id]), Ended(s.calls, l))
  }

  ghost predicate AppWrites(s: State, t: State) {
    AppMay(s.run.rows, t.run.rows) && t == s.(run := s.run.(rows := t.run.rows))
  }

  ghost predicate CallStep(s: State, t: State, legacy: map<int, LegacyMember>, l: int) {
    Begin(s, t, legacy, l) || Look(s, t, legacy, l) || Decide(s, t, legacy, l) || AdoptLands(s, t, legacy, l) ||
    InsertLands(s, t, l) || JoinLook(s, t, l) || JoinDecide(s, t, l) || SetMap(s, t, l)
  }

  ghost predicate Next(s: State, t: State, legacy: map<int, LegacyMember>) {
    AppWrites(s, t) || exists l :: CallStep(s, t, legacy, l)
  }

  // ---- what survives ----

  /** `x` resolves to `id`, or will as soon as the call that has written says so. */
  predicate Leads(s: State, x: int, id: Uuid) {
    (x in s.run.memberByLegacy && s.run.memberByLegacy[x] == id) || (x in s.calls && s.calls[x] == Landed(id))
  }

  /** What `l` stands for, counting writes that have landed. */
  function Stands(s: State, l: int): Option<Uuid> {
    var w := Resolve(s.run.redirect, l);
    if w in s.run.memberByLegacy then Some(s.run.memberByLegacy[w])
    else if w in s.calls && s.calls[w].Landed? then Some(s.calls[w].id)
    else None
  }

  /** A row as read by the call for `l`: its legacy id belongs to somebody else and leads to it. */
  ghost predicate ReadOk(s: State, l: int, id: Uuid, m: Member) {
    id in s.run.rows && (m.legacyId.Some? ==> m.legacyId.value != l && Leads(s, m.legacyId.value, id))
  }

  ghost predicate PhaseOk(s: State, legacy: map<int, LegacyMember>, l: int, ph: Phase) {
    match ph
    case Looking => true
    case Found(id, m) => ReadOk(s, l, id, m) && l in legacy && legacy[l].Real? && Matches(legacy[l].profile.keys, m)
    case Inserting(p) => IsProfileOf(legacy, l, p)
    case Joining(p) => IsProfileOf(legacy, l, p)
    case Joined(id, m) => ReadOk(s, l, id, m) && StrongEvidence(legacy, l, m.profile.keys)
    case Adopting(id, read, _) => id in s.run.rows && StrongEvidence(legacy, l, read.keys)
    case Landed(id) => id in s.run.rows
  }

  /** A call is under way only for an id that is neither mapped nor redirected. */
  ghost predicate CallsOk(s: State, legacy: map<int, LegacyMember>) {
    forall l :: l in s.calls ==>
      l !in s.run.memberByLegacy && l !in s.run.redirect && PhaseOk(s, legacy, l, s.calls[l])
  }

  ghost predicate RowsLead(s: State) {
    forall id :: id in s.run.rows && s.run.rows[id].legacyId.Some? ==> Leads(s, s.run.rows[id].legacyId.value, id)
  }

  ghost predicate MapsLead(s: State) {
    (forall l :: l in s.run.memberByLegacy ==> s.run.memberByLegacy[l] in s.run.rows) &&
    forall l :: l in s.run.redirect ==> Stands(s, l).Some?
  }

  ghost predicate RunInv(s: State, legacy: map<int, LegacyMember>) {
    Unique(s.run.rows) && RowsLead(s) && MapsLead(s) && CallsOk(s, legacy)
  }

  /** With no call under way this is the invariant between calls. */
  lemma QuietIsInv(s: State, legacy: map<int, LegacyMember>)
    requires s.calls == map[]
    ensures RunInv(s, legacy) <==> Inv(s.run)
    ensures forall l :: Stands(s, l) == Known(s.run, l)
  {
    if Inv(s.run) {
      forall l | l in s.run.redirect
        ensures Stands(s, l).Some?
      {
      }
    }
    if RunInv(s, legacy) {
      forall l | l in s.run.redirect
        ensures s.run.redirect[l] in s.run.memberByLegacy
      {
        assert Stands(s, l).Some?;
      }
    }
  }

  /** Whatever stood for a member goes on standing for it, and no member disappears. */
  ghost predicate Stable(s: State, t: State) {
    (forall x :: Stands(s, x).Some? ==> Stands(t, x) == Stands(s, x)) && s.run.rows.Keys <= t.run.rows.Keys
  }

  lemma StableTwice(s: State, t: State, u: State)
    requires Stable(s, t) && Stable(t, u)
    ensures Stable(s, u)
  {
  }

  /** A call moves on without having written. */
  lemma PhaseKeeps(s: State, legacy: map<int, LegacyMember>, l: int, ph: Phase)
    requires RunInv(s, legacy) && !ph.Landed? && (l in s.calls ==> !s.calls[l].Landed?)
    requires l !in s.run.memberByLegacy && l !in s.run.redirect && PhaseOk(s, legacy, l, ph)
    ensures var t := s.(calls := s.calls[l := ph]); RunInv(t, legacy) && Stable(s, t)
  {
    var t := s.(calls := s.calls[l := ph]);
    SameLeads(s, t);
    PhasesCarryOver(s, t, legacy);
  }

  /** A call gives up. */
  lemma EndKeeps(s: State, legacy: map<int, LegacyMember>, l: int)
    requires RunInv(s, legacy) && l in s.calls && !s.calls[l].Landed?
    ensures var t := s.(calls := Ended(s.calls, l)); RunInv(t, legacy) && Stable(s, t)
  {
    var t := s.(calls := Ended(s.calls, l));
    SameLeads(s, t);
    PhasesCarryOver(s, t, legacy);
  }

  /** What leads somewhere goes on leading there. */
  ghost predicate KeepsLeads(s: State, t: State) { forall x, id :: Leads(s, x, id) ==> Leads(t, x, id) }

  lemma SameLeads(s: State, t: State)
    requires s.run == t.run
    requires forall x :: x in s.calls && s.calls[x].Landed? ==> x in t.calls && t.calls[x] == s.calls[x]
    ensures KeepsLeads(s, t)
  {
  }

  lemma PhasesCarryOver(s: State, t: State, legacy: map<int, LegacyMember>)
    requires CallsOk(s, legacy) && KeepsLeads(s, t) && s.run.rows.Keys <= t.run.rows.Keys
    ensures forall l :: l in s.calls && l in t.calls && t.calls[l] == s.calls[l] ==> PhaseOk(t, legacy, l, t.calls[l])
    ensures forall l, ph :: PhaseOk(s, legacy, l, ph) ==> PhaseOk(t, legacy, l, ph)
  {
    forall l, ph | PhaseOk(s, legacy, l, ph)
      ensures PhaseOk(t, legacy, l, ph)
    {
    }
  }

  /** A write for `l` has landed on `id`: a new row, or one that may already carry another legacy id. */
  lemma LandingKeeps(s: State, legacy: map<int, LegacyMember>, l: int, id: Uuid, m: Member)
    requires RunInv(s, legacy) && l in s.calls && !s.calls[l].Landed?
    requires Fits(s.run.rows, id, m) && m.legacyId == Some(l)
    ensures var t := State(s.run.(rows := s.run.rows[id := m]), s.calls[l := Landed(id)]);
      RunInv(t, legacy) && Stable(s, t)
  {
    var t := State(s.run.(rows := s.run.rows[id := m]), s.calls[l := Landed(id)]);
    FittingRowKeepsUnique(s.run.rows, id, m);
    forall x, i | Leads(s, x, i)
      ensures Leads(t, x, i)
    {
    }
    PhasesCarryOver(s, t, legacy);
  }

  lemma MappingKeeps(s: State, legacy: map<int, LegacyMember>, l: int, id: Uuid)
    requires RunInv(s, legacy) && l in s.calls && id in s.run.rows
    requires s.calls[l].Landed? ==> s.calls[l] == Landed(id)
    ensures var t := State(s.run.(memberByLegacy := s.run.memberByLegacy[l := id]), Ended(s.calls, l));
      RunInv(t, legacy) && Stable(s, t) && Stands(t, l) == Some(id)
  {
    var t := State(s.run.(memberByLegacy := s.run.memberByLegacy[l := id]), Ended(s.calls, l));
    forall x, i | Leads(s, x, i)
      ensures Leads(t, x, i)
    {
    }
    PhasesCarryOver(s, t, legacy);
  }

  lemma RedirectingKeeps(s: State, legacy: map<int, LegacyMember>, l: int, w: int, id: Uuid)
    requires RunInv(s, legacy) && l in s.calls && !s.calls[l].Landed? && w != l && Leads(s, w, id)
    ensures var t := State(s.run.(redirect := s.run.redirect[l := w]), Ended(s.calls, l));
      RunInv(t, legacy) && Stable(s, t) && Stands(t, l) == Some(id)
  {
    var t := State(s.run.(redirect := s.run.redirect[l := w]), Ended(s.calls, l));
    forall x, i | Leads(s, x, i)
      ensures Leads(t, x, i)
    {
    }
    PhasesCarryOver(s, t, legacy);
  }

  lemma AppKeepsRun(s: State, t: State, legacy: map<int, LegacyMember>)
    requires RunInv(s, legacy) && AppWrites(s, t)
    ensures RunInv(t, legacy) && Stable(s, t)
  {
    forall x, i | Leads(s, x, i)
      ensures Leads(t, x, i)
    {
    }
    PhasesCarryOver(s, t, legacy);
    forall id | id in t.run.rows && t.run.rows[id].legacyId.Some?
      ensures Leads(t, t.run.rows[id].legacyId.value, id)
    {
      assert id in s.run.rows;
    }
  }

  // ---- each step ----

  lemma LookKeeps(s: State, t: State, legacy: map<int, LegacyMember>, l: int)
    requires RunInv(s, legacy) && Look(s, t, legacy, l)
    ensures RunInv(t, legacy) && Stable(s, t)
  {
    if t == s.(calls := s.calls[l := Inserting(legacy[l].profile)]) {
      PhaseKeeps(s, legacy, l, Inserting(legacy[l].profile));
    } else {
      var id :| id in s.run.rows && Matches(legacy[l].profile.keys, s.run.rows[id]) &&
        t == s.(calls := s.calls[l := Found(id, s.run.rows[id])]);
      PhaseKeeps(s, legacy, l, Found(id, s.run.rows[id]));
    }
  }

  lemma DecideKeeps(s: State, t: State, legacy: map<int, LegacyMember>, l: int)
    requires RunInv(s, legacy) && Decide(s, t, legacy, l)
    ensures RunInv(t, legacy) && Stable(s, t)
    ensures l !in t.calls ==>
      Stands(t, l) == Some(s.calls[l].id) && StrongEvidence(legacy, l, s.calls[l].m.profile.keys)
  {
    var id, m, p := s.calls[l].id, s.calls[l].m, legacy[l].profile;
    assert PhaseOk(s, legacy, l, s.calls[l]);
    match DecideIdentityMatch(l, p.keys, Some(m.profile.keys), m.legacyId)
    case Redirect => RedirectingKeeps(s, legacy, l, m.legacyId.value, id);
    case Map => assert false;
    case Adopt => PhaseKeeps(s, legacy, l, Adopting(id, m.profile, None));
    case SeparateWithoutPhone => PhaseKeeps(s, legacy, l, Inserting(WithoutPhone(p)));
    case Create => assert false;
  }

  lemma AdoptKeeps(s: State, t: State, legacy: map<int, LegacyMember>, l: int)
    requires RunInv(s, legacy) && AdoptLands(s, t, legacy, l)
    ensures RunInv(t, legacy) && Stable(s, t)
  {
    var id, read, dropped := s.calls[l].id, s.calls[l].read, s.calls[l].dropped;
    var row := TakenRow(legacy, l, s.run.rows[id].profile, read, dropped);
    assert PhaseOk(s, legacy, l, s.calls[l]);
    if Fits(s.run.rows, id, row) {
      LandingKeeps(s, legacy, l, id, row);
    } else if dropped.None? {
      var f :| Violates(s.run.rows, id, row, f) && t == s.(calls := s.calls[l := Adopting(id, read, Some(f))]);
      PhaseKeeps(s, legacy, l, Adopting(id, read, Some(f)));
    } else {
      EndKeeps(s, legacy, l);
    }
  }

  lemma InsertKeeps(s: State, t: State, legacy: map<int, LegacyMember>, l: int)
    requires RunInv(s, legacy) && InsertLands(s, t, l)
    ensures RunInv(t, legacy) && Stable(s, t)
  {
    var p := s.calls[l].p;
    assert PhaseOk(s, legacy, l, s.calls[l]);
    var id :| id !in s.run.rows &&
      if Fits(s.run.rows, id, Member(Some(l), p)) then
        t == State(s.run.(rows := s.run.rows[id := Member(Some(l), p)]), s.calls[l := Landed(id)])
      else t == s.(calls := s.calls[l := Joining(p)]);
    if Fits(s.run.rows, id, Member(Some(l), p)) {
      LandingKeeps(s, legacy, l, id, Member(Some(l), p));
    } else {
      PhaseKeeps(s, legacy, l, Joining(p));
    }
  }

  lemma JoinLookKeeps(s: State, t: State, legacy: map<int, LegacyMember>, l: int)
    requires RunInv(s, legacy) && JoinLook(s, t, l)
    ensures RunInv(t, legacy) && Stable(s, t)
  {
    var p := s.calls[l].p;
    assert PhaseOk(s, legacy, l, s.calls[l]);
    if id :| StrongHolder(s.run.rows, p.keys, id) && t == s.(calls := s.calls[l := Joined(id, s.run.rows[id])]) {
      PhaseKeeps(s, legacy, l, Joined(id, s.run.rows[id]));
    } else if p.keys.phone.Some? {
      PhaseKeeps(s, legacy, l, Inserting(WithoutPhone(p)));
    } else {
      EndKeeps(s, legacy, l);
    }
  }

  lemma JoinDecideKeeps(s: State, t: State, legacy: map<int, LegacyMember>, l: int)
    requires RunInv(s, legacy) && JoinDecide(s, t, l)
    ensures RunInv(t, legacy) && Stable(s, t)
    ensures Stands(t, l) == Some(s.calls[l].id) && StrongEvidence(legacy, l, s.calls[l].m.profile.keys)
  {
    var id, w := s.calls[l].id, s.calls[l].m.legacyId;
    assert PhaseOk(s, legacy, l, s.calls[l]);
    if w.Some? { RedirectingKeeps(s, legacy, l, w.value, id); } else { MappingKeeps(s, legacy, l, id); }
  }

  lemma CallStepKeeps(s: State, t: State, legacy: map<int, LegacyMember>, l: int)
    requires RunInv(s, legacy) && CallStep(s, t, legacy, l)
    ensures RunInv(t, legacy) && Stable(s, t)
  {
    if Begin(s, t, legacy, l) { PhaseKeeps(s, legacy, l, Looking); }
    else if Look(s, t, legacy, l) { LookKeeps(s, t, legacy, l); }
    else if Decide(s, t, legacy, l) { DecideKeeps(s, t, legacy, l); }
    else if AdoptLands(s, t, legacy, l) { AdoptKeeps(s, t, legacy, l); }
    else if InsertLands(s, t, l) { InsertKeeps(s, t, legacy, l); }
    else if JoinLook(s, t, l) { JoinLookKeeps(s, t, legacy, l); }
    else if JoinDecide(s, t, l) { JoinDecideKeeps(s, t, legacy, l); }
    else { MappingKeeps(s, legacy, l, s.calls[l].id); }
  }

  /** The row a call answers with: the one it found, joined or wrote. */
  function AnswerOf(ph: Phase): Option<Uuid> {
    match ph
    case Found(id, _) => Some(id)
    case Joined(id, _) => Some(id)
    case Landed(id) => Some(id)
    case _ => None
  }

  /** An answer stands from the moment it is given, and a merge was decided on a row sharing a strong key. */
  lemma AnswersStand(s: State, t: State, legacy: map<int, LegacyMember>, l: int)
    requires RunInv(s, legacy) && CallStep(s, t, legacy, l) && l in s.calls && l !in t.calls
    ensures Stands(t, l) == AnswerOf(s.calls[l])
    ensures s.calls[l].Found? || s.calls[l].Joined? ==> StrongEvidence(legacy, l, s.calls[l].m.profile.keys)
  {
    if Decide(s, t, legacy, l) { DecideKeeps(s, t, legacy, l); }
    else if JoinDecide(s, t, l) { JoinDecideKeeps(s, t, legacy, l); }
    else if SetMap(s, t, l) { MappingKeeps(s, legacy, l, s.calls[l].id); }
  }

  ghost predicate Behaviour(b: seq<State>, legacy: map<int, LegacyMember>) {
    b != [] && forall i, j :: 0 <= i < j < |b| && j == i + 1 ==> Next(b[i], b[j], legacy)
  }

  /**
   * What survives interleaved calls: unique columns stay unique, every row with a legacy id is found under
   * it, every redirect leads to a member, and whatever an id stands for it stands for from then on.
   */
  lemma {:induction false} PromisesSurvive(b: seq<State>, legacy: map<int, LegacyMember>, k: nat)
    requires Behaviour(b, legacy) && RunInv(b[0], legacy) && k < |b|
    ensures RunInv(b[k], legacy) && Stable(b[0], b[k])
  {
    if k > 0 {
      PromisesSurvive(b, legacy, k - 1);
      var s, t := b[k - 1], b[k];
      assert Next(s, b[k], legacy);
      if AppWrites(s, t) {
        AppKeepsRun(s, t, legacy);
      } else {
        var l :| CallStep(s, t, legacy, l);
        CallStepKeeps(s, t, legacy, l);
      }
      StableTwice(b[0], s, t);
    }
  }

  /** What does not survive: a legacy id stays on its row except when another adopt lands on it. */
  lemma StampsChangeByAdopt(s: State, t: State, legacy: map<int, LegacyMember>, id: Uuid)
    requires RunInv(s, legacy) && Next(s, t, legacy)
    requires id in s.run.rows && id in t.run.rows && s.run.rows[id].legacyId.Some?
    requires t.run.rows[id].legacyId != s.run.rows[id].legacyId
    ensures exists l :: l in s.calls && s.calls[l].Adopting? && s.calls[l].id == id &&
              t.run.rows[id].legacyId == Some(l) && l != s.run.rows[id].legacyId.value
    ensures Leads(t, s.run.rows[id].legacyId.value, id)
  {
    var l :| CallStep(s, t, legacy, l);
    assert AdoptLands(s, t, legacy, l);
    var x := s.run.rows[id].legacyId.value;
    assert Leads(s, x, id);
  }

  ghost function Last(b: seq<State>): State
    requires b != []
  {
    b[|b| - 1]
  }

  lemma Go(b: seq<State>, t: State, legacy: map<int, LegacyMember>, l: int)
    requires Behaviour(b, legacy) && CallStep(Last(b), t, legacy, l)
    ensures Behaviour(b + [t], legacy) && Last(b + [t]) == t && (b + [t])[0] == b[0]
  {
  }

  /** A call reads a placeholder and is about to adopt it. */
  lemma ReachesAdopt(b: seq<State>, legacy: map<int, LegacyMember>, l: int, id: Uuid) returns (c: seq<State>)
    requires Behaviour(b, legacy) && Creatable(legacy, l)
    requires var s := Last(b);
      l !in s.calls && l !in s.run.memberByLegacy && l !in s.run.redirect &&
      id in s.run.rows && s.run.rows[id].legacyId.None? && StrongEvidence(legacy, l, s.run.rows[id].profile.keys)
    ensures Behaviour(c, legacy) && c[0] == b[0]
    ensures var s := Last(b); Last(c) == s.(calls := s.calls[l := Adopting(id, s.run.rows[id].profile, None)])
  {
    var s := Last(b);
    var m := s.run.rows[id];
    var t := s.(calls := s.calls[l := Looking]);
    assert Begin(s, t, legacy, l);
    Go(b, t, legacy, l);
    var u := t.(calls := t.calls[l := Found(id, m)]);
    assert u.calls == s.calls[l := Found(id, m)];
    assert Look(t, u, legacy, l);
    Go(b + [t], u, legacy, l);
    var v := u.(calls := u.calls[l := Adopting(id, m.profile, None)]);
    assert Decide(u, v, legacy, l);
    Go(b + [t] + [u], v, legacy, l);
    c := b + [t] + [u] + [v];
    assert v.calls == s.calls[l := Adopting(id, m.profile, None)];
  }

  /** Its write lands, and then its continuation runs. */
  lemma AdoptsNow(b: seq<State>, legacy: map<int, LegacyMember>, l: int, id: Uuid, read: Profile)
    returns (c: seq<State>)
    requires Behaviour(b, legacy) && Creatable(legacy, l)
    requires var s := Last(b);
      l in s.calls && s.calls[l] == Adopting(id, read, None) && id in s.run.rows &&
      Fits(s.run.rows, id, TakenRow(legacy, l, s.run.rows[id].profile, read, None))
    ensures Behaviour(c, legacy) && b <= c
    ensures var s := Last(b);
      Last(c) == State(Run(s.run.rows[id := TakenRow(legacy, l, s.run.rows[id].profile, read, None)], s.run.redirect,
                           s.run.memberByLegacy[l := id]), Ended(s.calls, l))
  {
    var s := Last(b);
    var row := TakenRow(legacy, l, s.run.rows[id].profile, read, None);
    var t := State(s.run.(rows := s.run.rows[id := row]), s.calls[l := Landed(id)]);
    assert AdoptLands(s, t, legacy, l);
    Go(b, t, legacy, l);
    var u := State(t.run.(memberByLegacy := t.run.memberByLegacy[l := id]), Ended(t.calls, l));
    assert SetMap(t, u, l);
    Go(b + [t], u, legacy, l);
    c := b + [t] + [u];
    assert Ended(t.calls, l) == Ended(s.calls, l);
  }

  /**
   * That exception arises whenever two legacy ids match one placeholder and both calls read it before
   * either writes: the row ends with the second id, while in this run both ids stand for it.
   */
  lemma RivalAdoptsRestamp(s: State, legacy: map<int, LegacyMember>, id: Uuid, x: int, y: int)
    returns (b: seq<State>)
    requires s.calls == map[] && RunInv(s, legacy) && x != y && Creatable(legacy, x) && Creatable(legacy, y)
    requires x !in s.run.memberByLegacy && x !in s.run.redirect && y !in s.run.memberByLegacy && y !in s.run.redirect
    requires id in s.run.rows && s.run.rows[id].legacyId.None?
    requires StrongEvidence(legacy, x, s.run.rows[id].profile.keys)
    requires StrongEvidence(legacy, y, s.run.rows[id].profile.keys)
    requires var read := s.run.rows[id].profile;
      var first := TakenRow(legacy, x, read, read, None);
      Fits(s.run.rows, id, first) &&
      Fits(s.run.rows[id := first], id, TakenRow(legacy, y, first.profile, read, None))
    ensures Behaviour(b, legacy) && b[0] == s && Last(b).calls == map[]
    ensures exists k :: 0 <= k < |b| && id in b[k].run.rows && b[k].run.rows[id].legacyId == Some(x)
    ensures id in Last(b).run.rows && Last(b).run.rows[id].legacyId == Some(y)
    ensures Known(Last(b).run, x) == Some(id) == Known(Last(b).run, y)
  {
    var read := s.run.rows[id].profile;
    b := ReachesAdopt([s], legacy, x, id);
    b := ReachesAdopt(b, legacy, y, id);
    b := AdoptsNow(b, legacy, x, id, read);
    ghost var k := |b| - 1;
    b := AdoptsNow(b, legacy, y, id, read);
    assert b[k].run.rows[id].legacyId == Some(x);
    assert Last(b).calls == map[];
  }

  /** There are such ids: one shares the placeholder's email, the other its Google subject. */
  lemma RivalsExist() returns (b: seq<State>, legacy: map<int, LegacyMember>, id: Uuid, x: int, y: int)
    ensures Behaviour(b, legacy) && RunInv(b[0], legacy) && x != y
    ensures exists k :: 0 <= k < |b| && id in b[k].run.rows && b[k].run.rows[id].legacyId == Some(x)
    ensures id in Last(b).run.rows && Last(b).run.rows[id].legacyId == Some(y)
  {
    var bank := Bank(None, None, None);
    var nobody := Keys(None, None, None, None);
    var email, google := nobody.(email := Some("a@b.id")), nobody.(googleSub := Some("7"));
    var own := Profile(email.(googleSub := Some("7")), None, None, None, None, true, false, false, bank);
    id, x, y := 7, 1, 2;
    legacy := map[x := Real(own.(keys := email)), y := Real(own.(keys := google))];
    var s := State(Run(map[id := Member(None, own)], map[], map[]), map[]);
    AloneFits(s.run.rows, id, TakenRow(legacy, x, own, own, None));
    var first := TakenRow(legacy, x, own, own, None);
    AloneFits(s.run.rows[id := first], id, TakenRow(legacy, y, first.profile, own, None));
    b := RivalAdoptsRestamp(s, legacy, id, x, y);
  }

  lemma AloneFits(t: Table, id: Uuid, m: Member)
    requires t.Keys == {id}
    ensures Fits(t, id, m)
  {
    assert forall o :: o in t ==> o == id;
  }
}
