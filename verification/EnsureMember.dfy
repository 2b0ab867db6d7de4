/**
 * Lazy member creation (ensure-member.ts). Calls follow one another; the app goes on writing members
 * at every await in between. A call is described by its effect and by the table it was applied to.
 */
module EnsureMember {
  import opened Prelude
  import opened IdentityRules
  import opened Redirects
  import opened MemberTables

  // ---- what a run keeps ----

  /** The state of one run. */
  datatype Run = Run(rows: Table, redirect: map<int, int>, memberByLegacy: map<int, Uuid>)

  function Known(s: Run, l: int): Option<Uuid> {
    var winner := Resolve(s.redirect, l);
    if winner in s.memberByLegacy then Some(s.memberByLegacy[winner]) else None
  }

  ghost predicate StrongEvidence(legacy: map<int, LegacyMember>, l: int, keys: Keys) {
    l in legacy && legacy[l].Real? && IsStrongMatch(legacy[l].profile.keys, keys)
  }

  /** Every migrated row is in the map under its own id, and every redirect leads to a known member. */
  ghost predicate Inv(s: Run) {
    Unique(s.rows) &&
    (forall l :: l in s.memberByLegacy ==> s.memberByLegacy[l] in s.rows) &&
    (forall id :: id in s.rows && s.rows[id].legacyId.Some? ==>
       s.rows[id].legacyId.value in s.memberByLegacy && s.memberByLegacy[s.rows[id].legacyId.value] == id) &&
    forall l :: l in s.redirect ==> s.redirect[l] in s.memberByLegacy
  }

  /**
   * What one call for `l` with answer `r` may do to a run: whatever was resolved stays resolved, `l`
   * resolves to the answer, and nothing but `l` is redirected, mapped or stamped onto a placeholder.
   */
  ghost predicate Extends(s: Run, t: Run, l: int, r: Option<Uuid>) {
    (forall x :: Known(s, x).Some? ==> Known(t, x) == Known(s, x)) &&
    (r.Some? ==> Known(t, l) == r) &&
    (forall x :: x in t.redirect && x !in s.redirect ==> x == l) &&
    (forall x :: x in t.memberByLegacy && x !in s.memberByLegacy ==> x == l) &&
    s.rows.Keys <= t.rows.Keys &&
    forall id :: id in s.rows && t.rows[id].legacyId != s.rows[id].legacyId ==>
      s.rows[id].legacyId.None? && t.rows[id].legacyId == Some(l)
  }

  lemma AppKeeps(s: Run, u: Table)
    requires Inv(s) && AppMay(s.rows, u)
    ensures Inv(s.(rows := u))
  {
    var t := s.(rows := u);
    forall l | l in t.memberByLegacy
      ensures t.memberByLegacy[l] in t.rows
    {
      assert s.memberByLegacy[l] in s.rows;
    }
    forall id | id in u && u[id].legacyId.Some?
      ensures u[id].legacyId.value in t.memberByLegacy && t.memberByLegacy[u[id].legacyId.value] == id
    {
      assert id in s.rows;
    }
  }

  /** `l` is not resolved yet; by the invariant it is then neither redirected, mapped nor on any row. */
  lemma UnknownIsFree(s: Run, l: int)
    requires Inv(s) && Known(s, l).None?
    ensures l !in s.redirect && l !in s.memberByLegacy
    ensures forall id :: id in s.rows ==> s.rows[id].legacyId != Some(l)
  {
  }

  lemma RedirectKeeps(s: Run, l: int, id: Uuid)
    requires Inv(s) && Known(s, l).None? && id in s.rows && s.rows[id].legacyId.Some?
    ensures var t := s.(redirect := s.redirect[l := s.rows[id].legacyId.value]);
      Inv(t) && Extends(s, t, l, Some(id))
  {
    UnknownIsFree(s, l);
  }

  lemma MapKeeps(s: Run, l: int, id: Uuid)
    requires Inv(s) && Known(s, l).None? && id in s.rows
    ensures var t := s.(memberByLegacy := s.memberByLegacy[l := id]);
      Inv(t) && Extends(s, t, l, Some(id))
  {
    UnknownIsFree(s, l);
  }

  /** A row for `l` is written: a new one, or a placeholder taken on strong evidence. */
  lemma WriteKeeps(s: Run, l: int, id: Uuid, m: Member)
    requires Inv(s) && Known(s, l).None? && Fits(s.rows, id, m) && m.legacyId == Some(l)
    requires id in s.rows ==> s.rows[id].legacyId.None?
    ensures var t := Run(s.rows[id := m], s.redirect, s.memberByLegacy[l := id]);
      Inv(t) && Extends(s, t, l, Some(id))
  {
    UnknownIsFree(s, l);
    FittingRowKeepsUnique(s.rows, id, m);
  }

  lemma ExtendsAfterApp(s: Run, u: Table, t: Run, l: int, r: Option<Uuid>)
    requires AppMay(s.rows, u) && Extends(s.(rows := u), t, l, r)
    ensures Extends(s, t, l, r)
  {
    forall x | Known(s, x).Some?
      ensures Known(t, x) == Known(s, x)
    {
      assert Known(s.(rows := u), x) == Known(s, x);
    }
  }

  // ---- what one call does ----

  /** `read` is the row as it was when the adopt was planned, `dropped` a field left out after a conflict. */
  datatype Effect =
    | NoWrite
    | Redirected(id: Uuid)
    | Mapped(id: Uuid)
    | Taken(id: Uuid, read: Profile, dropped: Option<Field>)
    | Inserted(id: Uuid, profile: Profile)

  function Answer(e: Effect): Option<Uuid> { if e.NoWrite? then None else Some(e.id) }

  /** The row of a placeholder once its adopt has landed on `now`. */
  function TakenRow(legacy: map<int, LegacyMember>, l: int, now: Profile, read: Profile, dropped: Option<Field>): Member
    requires l in legacy && legacy[l].Real?
  {
    Member(Some(l), Apply(now, Sent(read, legacy[l].profile, dropped)))
  }

  /** The legacy row's profile, or that profile without the phone. */
  predicate IsProfileOf(legacy: map<int, LegacyMember>, l: int, p: Profile) {
    l in legacy && legacy[l].Real? && (p == legacy[l].profile || p == WithoutPhone(legacy[l].profile))
  }

  /** What holds of the table at the moment of the write. */
  ghost predicate Applies(t: Table, legacy: map<int, LegacyMember>, l: int, e: Effect) {
    match e
    case NoWrite => true
    case Redirected(id) =>
      id in t && t[id].legacyId.Some? && t[id].legacyId != Some(l) && StrongEvidence(legacy, l, t[id].profile.keys)
    case Mapped(id) => id in t && t[id].legacyId.None? && StrongEvidence(legacy, l, t[id].profile.keys)
    case Taken(id, read, dropped) =>
      id in t && t[id].legacyId.None? && StrongEvidence(legacy, l, read.keys) &&
      Fits(t, id, TakenRow(legacy, l, t[id].profile, read, dropped))
    case Inserted(id, p) => id !in t && Fits(t, id, Member(Some(l), p)) && IsProfileOf(legacy, l, p)
  }

  /** The run after the write. */
  ghost function After(s: Run, legacy: map<int, LegacyMember>, l: int, e: Effect): Run
    requires Applies(s.rows, legacy, l, e)
  {
    match e
    case NoWrite => s
    case Redirected(id) =>
      s.(redirect := s.redirect[l := s.rows[id].legacyId.value])
    case Mapped(id) =>
      s.(memberByLegacy := s.memberByLegacy[l := id])
    case Taken(id, read, dropped) =>
      Run(s.rows[id := TakenRow(legacy, l, s.rows[id].profile, read, dropped)], s.redirect,
          s.memberByLegacy[l := id])
    case Inserted(id, p) =>
      Run(s.rows[id := Member(Some(l), p)], s.redirect, s.memberByLegacy[l := id])
  }

  /** The app wrote first, making the table `at`; then the effect was applied to it, and nothing else. */
  ghost predicate Did(s: Run, at: Table, t: Run, legacy: map<int, LegacyMember>, l: int, e: Effect) {
    AppMay(s.rows, at) && Applies(at, legacy, l, e) && t == After(s.(rows := at), legacy, l, e)
  }

  lemma EffectKeeps(s: Run, legacy: map<int, LegacyMember>, l: int, e: Effect)
    requires Inv(s) && Known(s, l).None? && Applies(s.rows, legacy, l, e)
    ensures var t := After(s, legacy, l, e); Inv(t) && Extends(s, t, l, Answer(e))
  {
    match e
    case NoWrite =>
    case Redirected(id) => RedirectKeeps(s, l, id);
    case Mapped(id) => MapKeeps(s, l, id);
    case Taken(id, read, dropped) =>
      WriteKeeps(s, l, id, TakenRow(legacy, l, s.rows[id].profile, read, dropped));
    case Inserted(id, p) => WriteKeeps(s, l, id, Member(Some(l), p));
  }

  /** Whatever the app does meanwhile, a call keeps what the run has promised. */
  lemma CallKeeps(s: Run, at: Table, t: Run, legacy: map<int, LegacyMember>, l: int, e: Effect)
    requires Inv(s) && Known(s, l).None? && Did(s, at, t, legacy, l, e)
    ensures Inv(t) && Extends(s, t, l, Answer(e))
  {
    AppKeeps(s, at);
    EffectKeeps(s.(rows := at), legacy, l, e);
    ExtendsAfterApp(s, at, t, l, Answer(e));
  }

  /** A call writes at most the row it answers with; the others are as the app left them. */
  lemma OneRowWritten(s: Run, at: Table, t: Run, legacy: map<int, LegacyMember>, l: int, e: Effect, id: Uuid)
    requires Did(s, at, t, legacy, l, e) && id in at
    requires !(e.Taken? && e.id == id)
    ensures id in t.rows && t.rows[id] == at[id]
  {
  }

  /** A row of its own is made only for a person nobody else is by a strong key, whatever the app does. */
  lemma NoSecondRowForAPerson(s: Run, at: Table, t: Run, legacy: map<int, LegacyMember>, l: int, e: Effect)
    requires Did(s, at, t, legacy, l, e) && e.Inserted?
    ensures NoStrongHolder(at, legacy[l].profile.keys) && NoPhoneHolder(at, e.profile.keys.phone)
  {
    FittingHasNoHolder(at, e.id, l, e.profile);
    WithoutPhoneKeys(at, legacy[l].profile);
  }

  /** `q` is `p` without a phone number, and otherwise the same. */
  predicate IsPhoneless(p: Profile, q: Profile) {
    q.keys.phone == None && q.phoneCode == None && !q.isPhoneVerified &&
    q.keys.email == p.keys.email && q.keys.googleSub == p.keys.googleSub && q.keys.appleSub == p.keys.appleSub &&
    q.fullName == p.fullName && q.avatarUrl == p.avatarUrl && q.bio == p.bio && q.isActive == p.isActive &&
    q.isEmailVerified == p.isEmailVerified && q.bank == p.bank
  }

  /**
   * A row that was inserted is the legacy profile, or that without its phone; it is verified on no
   * channel it does not have.
   */
  lemma InsertedRow(s: Run, at: Table, t: Run, legacy: map<int, LegacyMember>, l: int, e: Effect)
    requires CleanSource(legacy) && Did(s, at, t, legacy, l, e) && e.Inserted?
    ensures e.id !in s.rows && e.id in t.rows && t.rows[e.id].legacyId == Some(l) && t.memberByLegacy[l] == e.id
    ensures var p, q := legacy[l].profile, t.rows[e.id].profile;
      && (q == p || IsPhoneless(p, q))
      && (q.isPhoneVerified ==> q.keys.phone != None) && (q.isEmailVerified ==> q.keys.email != None)
  {
  }

  /** On a quiet table the phone is left out exactly if somebody holds it. */
  lemma PhoneLeftOutIffHeld(s: Run, t: Run, legacy: map<int, LegacyMember>, l: int, e: Effect)
    requires Did(s, s.rows, t, legacy, l, e) && Outcome(s.rows, legacy, l, e) && e.Inserted?
    ensures var p := legacy[l].profile;
      if exists id :: id in s.rows && p.keys.phone != None && s.rows[id].profile.keys.phone == p.keys.phone
      then IsPhoneless(p, t.rows[e.id].profile) else t.rows[e.id].profile == p
  {
    var p := legacy[l].profile;
    if id :| id in s.rows && p.keys.phone != None && s.rows[id].profile.keys.phone == p.keys.phone {
      assert PhoneHolder(s.rows, p.keys.phone, id);
    }
  }

  /**
   * Adopting never downgrades, exactly as long as the app has not filled meanwhile, with another value,
   * what the plan fills.
   */
  lemma TakenRowPreservedIff(s: Run, at: Table, t: Run, legacy: map<int, LegacyMember>, l: int, e: Effect)
    requires Did(s, at, t, legacy, l, e) && e.Taken?
    ensures Preserves(at[e.id].profile, t.rows[e.id].profile)
            <==> UnracedProfile(e.read, at[e.id].profile, legacy[l].profile, e.dropped)
  {
    AdoptPreservesIff(e.read, at[e.id].profile, legacy[l].profile, e.dropped);
  }

  /** The same for verifications: only of keys the member still has as they were read, or has from legacy. */
  lemma TakenRowVerifiesOwnKeysIff(s: Run, at: Table, t: Run, legacy: map<int, LegacyMember>, l: int, e: Effect)
    requires Did(s, at, t, legacy, l, e) && e.Taken?
    ensures VerifiesOwnKeys(e.read, at[e.id].profile, legacy[l].profile, t.rows[e.id].profile)
            <==> KeysStayed(e.read, at[e.id].profile, legacy[l].profile, e.dropped)
  {
    VerifiesOwnKeysIff(e.read, at[e.id].profile, legacy[l].profile, e.dropped);
  }

  // ---- which effect, on a table the app leaves alone ----

  /** Some other column of the row is taken by another row. */
  ghost predicate OthersContested(t: Table, id: Uuid, m: Member, f: Field) {
    exists g :: g != f && Violates(t, id, m, g)
  }

  /** A strong placeholder: adopted in full, or without its only contested field; not if two are contested. */
  ghost predicate AdoptOutcome(t: Table, legacy: map<int, LegacyMember>, l: int, id: Uuid, e: Effect)
    requires id in t && l in legacy && legacy[l].Real?
  {
    var read := t[id].profile;
    var row := TakenRow(legacy, l, read, read, None);
    if Fits(t, id, row) then e == Taken(id, read, None)
    else
      match e
      case Taken(i, r, dropped) =>
        i == id && r == read && dropped.Some? && Violates(t, id, row, dropped.value) &&
        !OthersContested(t, id, row, dropped.value)
      case NoWrite => exists f :: Violates(t, id, row, f) && OthersContested(t, id, row, f)
      case _ => false
  }

  /** Nobody holds a strong key: a row of its own, without the phone if somebody holds that. */
  ghost predicate FreshOutcome(t: Table, p: Profile, e: Effect) {
    e.Inserted? &&
    if NoPhoneHolder(t, p.keys.phone) then e.profile == p else e.profile == WithoutPhone(p)
  }

  predicate Creatable(legacy: map<int, LegacyMember>, l: int) {
    l in legacy && legacy[l].Real? && legacy[l].profile.keys != Keys(None, None, None, None)
  }

  /**
   * A strong holder with a legacy id gets a redirect and one without is adopted, whoever holds the
   * phone; otherwise the legacy member gets a row of its own. Junk and rows without identity get none.
   */
  ghost predicate Outcome(t: Table, legacy: map<int, LegacyMember>, l: int, e: Effect) {
    if !Creatable(legacy, l) then e.NoWrite?
    else
      var p := legacy[l].profile;
      if NoStrongHolder(t, p.keys) then FreshOutcome(t, p, e)
      else
        exists id :: StrongHolder(t, p.keys, id) &&
          if t[id].legacyId.Some? then e == Redirected(id) else AdoptOutcome(t, legacy, l, id, e)
  }

  /** Dropping a column puts back the row's own value, which nobody else has. */
  lemma DroppedKeys(t: Table, legacy: map<int, LegacyMember>, l: int, id: Uuid, f: Field, g: Field)
    requires id in t && t[id].legacyId.None? && l in legacy && legacy[l].Real? && f != LegacyId
    ensures var read := t[id].profile;
      var full, row := TakenRow(legacy, l, read, read, None), TakenRow(legacy, l, read, read, Some(f));
      if g == f then SameKey(g, row, t[id]) else SameKey(g, row, full)
  {
    WithoutKeys(PlanOf(t[id].profile, legacy[l].profile), f, t[id].profile);
  }

  lemma DroppedFits(t: Table, legacy: map<int, LegacyMember>, l: int, id: Uuid, f: Field)
    requires Unique(t) && id in t && t[id].legacyId.None? && l in legacy && legacy[l].Real? && f != LegacyId
    ensures var read := t[id].profile;
      Fits(t, id, TakenRow(legacy, l, read, read, Some(f)))
      <==> !OthersContested(t, id, TakenRow(legacy, l, read, read, None), f)
  {
    var read := t[id].profile;
    var full, row := TakenRow(legacy, l, read, read, None), TakenRow(legacy, l, read, read, Some(f));
    forall g: Field
      ensures Violates(t, id, row, g) <==> g != f && Violates(t, id, full, g)
    {
      DroppedKeys(t, legacy, l, id, f, g);
      if g == f {
        OwnKeyFits(t, id, f);
        SameKeySameViolation(t, id, row, t[id], g);
      } else {
        SameKeySameViolation(t, id, row, full, g);
      }
    }
    FitsIffNothingViolated(t, id, row);
  }

  lemma DidAfterApp(s: Run, u: Table, at: Table, t: Run, legacy: map<int, LegacyMember>, l: int, e: Effect)
    requires AppMay(s.rows, u) && Did(s.(rows := u), at, t, legacy, l, e)
    ensures Did(s, at, t, legacy, l, e)
  {
    AppTwice(s.rows, u, at);
  }

  /** What the two lookups find, on a table that does not change in between. */
  ghost predicate FoundIn(t: Table, p: Profile, existing: Option<Uuid>) {
    if existing.None? then NoStrongHolder(t, p.keys) && NoPhoneHolder(t, p.keys.phone)
    else
      StrongHolder(t, p.keys, existing.value) ||
      (NoStrongHolder(t, p.keys) && PhoneHolder(t, p.keys.phone, existing.value))
  }

  /** If nobody is the same person, only the phone can have collided. */
  lemma OnlyPhoneCollided(t: Table, l: int, p: Profile)
    requires Free(t, l) && NoStrongHolder(t, p.keys) && Clashes(t, l, p)
    ensures p.keys.phone.Some? && !NoPhoneHolder(t, p.keys.phone)
  {
    var id: Uuid :| id !in t && !Fits(t, id, Member(Some(l), p));
    InsertOutcome(t, id, l, p);
  }

  /** On a quiet table: the retry of an adopt settles what the outcome is. */
  lemma RetryOutcome(t: Table, legacy: map<int, LegacyMember>, l: int, id: Uuid, f: Field, e: Effect)
    requires Unique(t) && Free(t, l) && id in t && t[id].legacyId.None? && l in legacy && legacy[l].Real?
    requires Violates(t, id, TakenRow(legacy, l, t[id].profile, t[id].profile, None), f)
    requires e == if Fits(t, id, TakenRow(legacy, l, t[id].profile, t[id].profile, Some(f)))
                  then Taken(id, t[id].profile, Some(f)) else NoWrite
    ensures AdoptOutcome(t, legacy, l, id, e)
  {
    var full := TakenRow(legacy, l, t[id].profile, t[id].profile, None);
    FreeLegacyId(t, id, full, l);
    DroppedFits(t, legacy, l, id, f);
    FitsIffNothingViolated(t, id, full);
  }

  /** The placeholder was read from this table. */
  ghost predicate ReadFrom(t: Table, e: Effect)
    requires e.Taken?
  {
    e.id in t && e.read == t[e.id].profile
  }

  /** Found by a key it shares with the legacy row. */
  predicate Matches(keys: Keys, m: Member) {
    IsStrongMatch(keys, m.profile.keys) || Same(keys.phone, m.profile.keys.phone)
  }

  /** On a row found by the lookups, the decision is one of three. */
  lemma FoundRowDecides(t: Table, l: int, keys: Keys, id: Uuid)
    requires id in t && Matches(keys, t[id]) && Free(t, l)
    ensures var d := DecideIdentityMatch(l, keys, Some(t[id].profile.keys), t[id].legacyId);
      && (d == Redirect <==> IsStrongMatch(keys, t[id].profile.keys) && t[id].legacyId.Some?)
      && (d == Adopt <==> IsStrongMatch(keys, t[id].profile.keys) && t[id].legacyId.None?)
      && (d == SeparateWithoutPhone <==> !IsStrongMatch(keys, t[id].profile.keys))
  {
  }

  lemma StrongOutcome(t: Table, legacy: map<int, LegacyMember>, l: int, id: Uuid, e: Effect)
    requires Creatable(legacy, l) && StrongHolder(t, legacy[l].profile.keys, id)
    requires if t[id].legacyId.Some? then e == Redirected(id) else AdoptOutcome(t, legacy, l, id, e)
    ensures Outcome(t, legacy, l, e)
  {
  }

  lemma SeparateOutcome(t: Table, legacy: map<int, LegacyMember>, l: int, id: Uuid, e: Effect)
    requires Creatable(legacy, l) && NoStrongHolder(t, legacy[l].profile.keys)
    requires PhoneHolder(t, legacy[l].profile.keys.phone, id) && FreshOutcome(t, WithoutPhone(legacy[l].profile), e)
    ensures Outcome(t, legacy, l, e)
  {
    WithoutPhoneKeys(t, legacy[l].profile);
  }

  /**
   * What any number of calls do to a run: whatever was resolved stays resolved, and a member keeps the
   * legacy id it has.
   */
  ghost predicate Grows(s: Run, t: Run) {
    (forall x :: Known(s, x).Some? ==> Known(t, x) == Known(s, x)) &&
    s.rows.Keys <= t.rows.Keys &&
    forall id :: id in s.rows && s.rows[id].legacyId.Some? ==> t.rows[id].legacyId == s.rows[id].legacyId
  }

  lemma ExtendsGrows(s: Run, t: Run, l: int, r: Option<Uuid>)
    requires Extends(s, t, l, r)
    ensures Grows(s, t)
  {
  }

  lemma GrowsTwice(s: Run, t: Run, u: Run)
    requires Grows(s, t) && Grows(t, u)
    ensures Grows(s, u)
  {
  }

  /** Every answer given is what its id resolves to. */
  ghost predicate AnswersHold(t: Run, ids: seq<int>, answers: seq<Option<Uuid>>) {
    |answers| <= |ids| &&
    forall i :: 0 <= i < |answers| && answers[i].Some? ==> Known(t, ids[i]) == answers[i]
  }

  lemma OneMoreAnswer(s: Run, t: Run, ids: seq<int>, answers: seq<Option<Uuid>>, r: Option<Uuid>)
    requires AnswersHold(s, ids, answers) && Grows(s, t) && |answers| < |ids|
    requires r.Some? ==> Known(t, ids[|answers|]) == r
    ensures AnswersHold(t, ids, answers + [r])
  {
    var all := answers + [r];
    forall i | 0 <= i < |all| && all[i].Some?
      ensures Known(t, ids[i]) == all[i]
    {
      if i < |answers| { assert Known(s, ids[i]) == answers[i]; }
    }
  }

  /** What one call did: the table it decided on, the table it wrote to, its effect, and the run after it. */
  datatype Call = Call(seen: Table, at: Table, e: Effect, after: Run)

  /** A call for a known or unresolvable id does nothing, any other has one effect. */
  ghost predicate IsCall(s: Run, legacy: map<int, LegacyMember>, l: int, c: Call) {
    (c.e.NoWrite? && c.after == s) ||
    (Known(s, l).None? && AppMay(s.rows, c.seen) && AppMay(c.seen, c.at) && Did(s, c.at, c.after, legacy, l, c.e) &&
     (c.e.Taken? ==> ReadFrom(c.seen, c.e)))
  }

  ghost function End(s: Run, calls: seq<Call>): Run { if calls == [] then s else calls[|calls| - 1].after }

  /** Each call starts where the one before it ended. */
  ghost predicate Chain(s: Run, legacy: map<int, LegacyMember>, ids: seq<int>, calls: seq<Call>) {
    |calls| <= |ids| &&
    (calls == [] ||
     var n := |calls| - 1;
     Chain(s, legacy, ids, calls[..n]) && IsCall(End(s, calls[..n]), legacy, ids[n], calls[n]))
  }

  lemma OneMoreCall(s: Run, legacy: map<int, LegacyMember>, ids: seq<int>, calls: seq<Call>, c: Call)
    requires Chain(s, legacy, ids, calls) && |calls| < |ids| && IsCall(End(s, calls), legacy, ids[|calls|], c)
    ensures Chain(s, legacy, ids, calls + [c]) && End(s, calls + [c]) == c.after
  {
    AppendPrefix(calls, c);
  }

  /** The member a call resolved its id to is a row of its own, or shares a strong key with the legacy row. */
  ghost predicate Earned(legacy: map<int, LegacyMember>, l: int, c: Call) {
    match c.e
    case NoWrite => false
    case Redirected(id) => id in c.at && StrongEvidence(legacy, l, c.at[id].profile.keys)
    case Mapped(id) => id in c.at && StrongEvidence(legacy, l, c.at[id].profile.keys)
    case Taken(id, read, _) => id in c.seen && read == c.seen[id].profile && StrongEvidence(legacy, l, read.keys)
    case Inserted(id, p) => id !in c.at && IsProfileOf(legacy, l, p)
  }

  lemma CallEarns(s: Run, legacy: map<int, LegacyMember>, l: int, c: Call)
    requires Inv(s) && IsCall(s, legacy, l, c)
    ensures Inv(c.after) && Extends(s, c.after, l, if c.e.NoWrite? then Known(s, l) else Answer(c.e))
    ensures !c.e.NoWrite? ==> Earned(legacy, l, c)
  {
    if !(c.e.NoWrite? && c.after == s) { CallKeeps(s, c.at, c.after, legacy, l, c.e); }
  }

  lemma {:induction false} ChainKeeps(s: Run, legacy: map<int, LegacyMember>, ids: seq<int>, calls: seq<Call>)
    requires Inv(s) && Chain(s, legacy, ids, calls)
    ensures Inv(End(s, calls))
  {
    if calls != [] {
      var n := |calls| - 1;
      ChainKeeps(s, legacy, ids, calls[..n]);
      CallEarns(End(s, calls[..n]), legacy, ids[n], calls[n]);
    }
  }

  /** Whoever a legacy id resolves to that did not resolve before: the call for it has earned that member. */
  lemma {:induction false} NewAnswersEarned(s: Run, legacy: map<int, LegacyMember>, ids: seq<int>, calls: seq<Call>,
                                            x: int)
    requires Inv(s) && Chain(s, legacy, ids, calls)
    requires Known(s, x).None? && Known(End(s, calls), x).Some?
    ensures exists i :: 0 <= i < |calls| && ids[i] == x && Earned(legacy, x, calls[i]) &&
              Answer(calls[i].e) == Known(End(s, calls), x)
  {
    if calls != [] {
      var n := |calls| - 1;
      var before := End(s, calls[..n]);
      ChainKeeps(s, legacy, ids, calls[..n]);
      CallEarns(before, legacy, ids[n], calls[n]);
      if Known(before, x).Some? {
        NewAnswersEarned(s, legacy, ids, calls[..n], x);
        var i :| 0 <= i < n && ids[i] == x && Earned(legacy, x, calls[..n][i]) &&
          Answer(calls[..n][i].e) == Known(before, x);
        assert Earned(legacy, x, calls[i]);
      } else {
        KnownByOwnCall(before, legacy, ids[n], calls[n], x);
      }
    }
  }

  /** Nobody else's call resolves an id. */
  lemma KnownByOwnCall(s: Run, legacy: map<int, LegacyMember>, l: int, c: Call, x: int)
    requires Inv(s) && IsCall(s, legacy, l, c) && Known(s, x).None? && Known(c.after, x).Some?
    ensures x == l && !c.e.NoWrite? && Known(c.after, x) == Answer(c.e)
  {
    CallEarns(s, legacy, l, c);
    UnknownIsFree(s, x);
  }

  /** The `i`-th call adopted the member and had earned it. */
  ghost predicate Stamped(legacy: map<int, LegacyMember>, ids: seq<int>, calls: seq<Call>, i: nat, id: Uuid) {
    i < |calls| && i < |ids| && calls[i].e.Taken? && calls[i].e.id == id && Earned(legacy, ids[i], calls[i])
  }

  /** Whoever carries a legacy id without having had one: an adopt on strong evidence has put it there. */
  lemma {:induction false} NewStampsEarned(s: Run, legacy: map<int, LegacyMember>, ids: seq<int>, calls: seq<Call>,
                                           id: Uuid)
    returns (i: nat)
    requires Inv(s) && Chain(s, legacy, ids, calls) && s.rows.Keys <= End(s, calls).rows.Keys
    requires id in s.rows && s.rows[id].legacyId.None? && End(s, calls).rows[id].legacyId.Some?
    ensures Stamped(legacy, ids, calls, i, id) && End(s, calls).rows[id].legacyId == Some(ids[i])
  {
    var n := |calls| - 1;
    var before := End(s, calls[..n]);
    RowsStay(s, legacy, ids, calls[..n]);
    ChainKeeps(s, legacy, ids, calls[..n]);
    if before.rows[id].legacyId.Some? {
      i := NewStampsEarned(s, legacy, ids, calls[..n], id);
      CallEarns(before, legacy, ids[n], calls[n]);
    } else {
      i := n;
      StampedByOwnCall(before, legacy, ids[n], calls[n], id);
    }
  }

  lemma StampedByOwnCall(s: Run, legacy: map<int, LegacyMember>, l: int, c: Call, id: Uuid)
    requires Inv(s) && IsCall(s, legacy, l, c) && id in s.rows && s.rows[id].legacyId.None?
    requires id in c.after.rows && c.after.rows[id].legacyId.Some?
    ensures c.e.Taken? && c.e.id == id && Earned(legacy, l, c) && c.after.rows[id].legacyId == Some(l)
  {
    CallEarns(s, legacy, l, c);
  }

  lemma {:induction false} RowsStay(s: Run, legacy: map<int, LegacyMember>, ids: seq<int>, calls: seq<Call>)
    requires Inv(s) && Chain(s, legacy, ids, calls)
    ensures s.rows.Keys <= End(s, calls).rows.Keys
  {
    if calls != [] {
      var n := |calls| - 1;
      RowsStay(s, legacy, ids, calls[..n]);
      ChainKeeps(s, legacy, ids, calls[..n]);
      CallEarns(End(s, calls[..n]), legacy, ids[n], calls[n]);
    }
  }

  /** The legacy id has no answer yet. */
  ghost predicate Pending(s: Run, unresolvable: set<int>, legacyId: Option<int>) {
    legacyId.Some? && Known(s, legacyId.value).None? && legacyId.value !in unresolvable
  }

  class Ensurer {
    var rows: Table
    var redirect: map<int, int>
    var memberByLegacy: map<int, Uuid>
    var unresolvable: set<int>
    var newLegacyIds: set<int>
    const legacy: map<int, LegacyMember>

    ghost function Now(): Run
      reads this
    {
      Run(rows, redirect, memberByLegacy)
    }

    ghost predicate Valid()
      reads this
    {
      Inv(Now())
    }

    /** `preload` maps every migrated member of the table. */
    constructor (rows: Table, redirect: map<int, int>, legacy: map<int, LegacyMember>, preload: map<int, Uuid>)
      requires Inv(Run(rows, redirect, preload))
      ensures Valid() && Now() == Run(rows, redirect, preload) && this.legacy == legacy
      ensures unresolvable == {} && newLegacyIds == {}
    {
      this.rows, this.redirect, this.legacy, this.memberByLegacy := rows, redirect, legacy, preload;
      this.unresolvable, this.newLegacyIds := {}, {};
    }

    /** Another await has passed. */
    method Await(db: Db, k: nat)
      requires GoodDb(db) && Unique(rows)
      modifies this`rows
      ensures AppMay(old(rows), rows)
      ensures Quiet(db) ==> rows == old(rows)
    {
      rows := db.app(k, rows);
    }

    /** The insert, sent after another await; `None` is a unique-constraint error. */
    method TryInsert(db: Db, k: nat, l: int, profile: Profile) returns (r: Option<Uuid>, ghost at: Table)
      requires GoodDb(db) && Unique(rows) && IsProfileOf(legacy, l, profile)
      modifies this`rows, this`memberByLegacy, this`newLegacyIds
      ensures Did(old(Now()), at, Now(), legacy, l, if r.Some? then Inserted(r.value, profile) else NoWrite)
      ensures Quiet(db) ==> at == old(rows)
      ensures if r.None? then Clashes(at, l, profile) else NoPhoneHolder(at, profile.keys.phone)
      ensures newLegacyIds == old(newLegacyIds) + if r.Some? then {l} else {}
    {
      Await(db, k);
      at := rows;
      var id := db.newId(rows);
      FreshId(db, at);
      if !Fits(rows, id, Member(Some(l), profile)) { return None, at; }
      rows := rows[id := Member(Some(l), profile)];
      memberByLegacy := memberByLegacy[l := id];
      newLegacyIds := newLegacyIds + {l};
      r := Some(id);
      FittingHasNoHolder(at, id, l, profile);
    }

    /** After a race, another await: a holder of a strong key is the same person. */
    method JoinStrongHolder(db: Db, k: nat, l: int, profile: Profile)
      returns (r: Option<Uuid>, ghost at: Table, ghost e: Effect)
      requires GoodDb(db) && Unique(rows) && Free(rows, l) && IsProfileOf(legacy, l, profile)
      modifies this`rows, this`redirect, this`memberByLegacy
      ensures Did(old(Now()), at, Now(), legacy, l, e) && r == Answer(e)
      ensures e.NoWrite? || e.Redirected? || e.Mapped?
      ensures if r.Some? then StrongHolder(at, profile.keys, r.value) else NoStrongHolder(at, profile.keys)
      ensures Quiet(db) ==> at == old(rows)
    {
      ghost var t := rows;
      Await(db, k);
      at := rows;
      AppKeepsFree(t, at, l);
      r := db.findStrong(rows, profile.keys);
      FoundStrong(db, at, profile.keys);
      if r.None? { return r, at, NoWrite; }
      var id := r.value;
      var w := rows[id].legacyId;
      if w.Some? && w.value != l {
        e := Redirected(id);
        redirect := redirect[l := w.value];
      } else {
        e := Mapped(id);
        memberByLegacy := memberByLegacy[l := id];
      }
    }

    /** One attempt: the insert, or whoever turns out to be the same person. */
    method InsertOrJoin(db: Db, k: nat, l: int, profile: Profile)
      returns (r: Option<Uuid>, ghost at: Table, ghost e: Effect)
      requires GoodDb(db) && Unique(rows) && Free(rows, l) && IsProfileOf(legacy, l, profile)
      modifies this`rows, this`redirect, this`memberByLegacy, this`newLegacyIds
      ensures Did(old(Now()), at, Now(), legacy, l, e) && r == Answer(e)
      ensures !e.Taken?
      ensures Quiet(db) ==> at == old(rows)
      ensures e.NoWrite? ==> NoStrongHolder(at, profile.keys) && (Quiet(db) ==> Clashes(at, l, profile))
      ensures e.Inserted? ==> e.profile == profile && NoPhoneHolder(at, profile.keys.phone)
      ensures e.Redirected? || e.Mapped? ==> StrongHolder(at, profile.keys, e.id)
      ensures newLegacyIds == old(newLegacyIds) + if e.Inserted? then {l} else {}
    {
      ghost var s0 := Now();
      r, at := TryInsert(db, k, l, profile);
      if r.Some? { return r, at, Inserted(r.value, profile); }
      ghost var u := at;
      AppKeepsFree(s0.rows, u, l);
      r, at, e := JoinStrongHolder(db, k + 1, l, profile);
      DidAfterApp(s0, u, at, Now(), legacy, l, e);
    }

    method InsertFresh(db: Db, k: nat, l: int, profile: Profile)
      returns (r: Option<Uuid>, ghost at: Table, ghost e: Effect)
      requires GoodDb(db) && Unique(rows) && Free(rows, l) && IsProfileOf(legacy, l, profile)
      modifies this
      ensures Did(old(Now()), at, Now(), legacy, l, e) && r == Answer(e) && !e.Taken?
      ensures Quiet(db) ==> at == old(rows) && (NoStrongHolder(at, profile.keys) ==> FreshOutcome(at, profile, e))
      ensures unresolvable == old(unresolvable) + if e.NoWrite? then {l} else {}
      ensures newLegacyIds == old(newLegacyIds) + if e.Inserted? then {l} else {}
      decreases profile.keys.phone.Some?
    {
      ghost var s0 := Now();
      r, at, e := InsertOrJoin(db, k, l, profile);
      if r.Some? { return; }
      if Quiet(db) { OnlyPhoneCollided(at, l, profile); }
      if profile.keys.phone.Some? {
        // only the phone collided
        ghost var u := at;
        AppKeepsFree(s0.rows, u, l);
        WithoutPhoneKeys(u, profile);
        r, at, e := InsertFresh(db, k + 2, l, WithoutPhone(profile));
        DidAfterApp(s0, u, at, Now(), legacy, l, e);
      } else {
        unresolvable := unresolvable + {l};
      }
    }

    /** The update of an adopt, sent after another await; false is a unique-constraint error. */
    method TryAdopt(db: Db, k: nat, l: int, id: Uuid, data: AdoptData, ghost read: Profile,
                    ghost dropped: Option<Field>)
      returns (done: bool, ghost at: Table)
      requires GoodDb(db) && Unique(rows) && id in rows && rows[id].legacyId.None?
      requires StrongEvidence(legacy, l, read.keys) && data == Sent(read, legacy[l].profile, dropped)
      modifies this`rows, this`memberByLegacy, this`newLegacyIds
      ensures Did(old(Now()), at, Now(), legacy, l, if done then Taken(id, read, dropped) else NoWrite)
      ensures id in at && (done <==> Fits(at, id, TakenRow(legacy, l, at[id].profile, read, dropped)))
      ensures Quiet(db) ==> at == old(rows)
      ensures newLegacyIds == old(newLegacyIds) + if done then {l} else {}
    {
      Await(db, k);
      at := rows;
      var m := Member(Some(l), Apply(rows[id].profile, data));
      if !Fits(rows, id, m) { return false, at; }
      rows := rows[id := m];
      memberByLegacy := memberByLegacy[l := id];
      newLegacyIds := newLegacyIds + {l};
      done := true;
    }

    /** The column named by the unique-constraint error. */
    method Contested(db: Db, l: int, id: Uuid, data: AdoptData) returns (f: Field)
      requires GoodDb(db) && id in rows && !Fits(rows, id, Member(Some(l), Apply(rows[id].profile, data)))
      ensures Violates(rows, id, Member(Some(l), Apply(rows[id].profile, data)), f)
    {
      var m := Member(Some(l), Apply(rows[id].profile, data));
      f := db.report(rows, id, m);
      Reported(db, rows, id, m);
    }

    /** Stamps the legacy id onto a placeholder; on a conflict drops the contested field and retries once. */
    method AdoptPlaceholder(db: Db, k: nat, l: int, id: Uuid)
      returns (r: Option<Uuid>, ghost at: Table, ghost e: Effect)
      requires GoodDb(db) && Unique(rows) && Free(rows, l) && id in rows && rows[id].legacyId.None?
      requires StrongEvidence(legacy, l, rows[id].profile.keys)
      modifies this
      ensures Did(old(Now()), at, Now(), legacy, l, e) && r == Answer(e)
      ensures e.NoWrite? || (e.Taken? && e.id == id && e.read == old(rows)[id].profile)
      ensures Quiet(db) ==> at == old(rows) && AdoptOutcome(at, legacy, l, id, e)
      ensures unresolvable == old(unresolvable) + if e.NoWrite? then {l} else {}
      ensures newLegacyIds == old(newLegacyIds) + if e.Taken? then {l} else {}
    {
      ghost var s0 := Now();
      var done;
      var read := rows[id].profile;
      var data := PlanAdopt(read, legacy[l].profile);
      done, at := TryAdopt(db, k, l, id, data, read, None);
      if done { return Some(id), at, Taken(id, read, None); }
      ghost var u := at;
      done, at, e := RetryAdopt(db, k + 1, l, id, data, read);
      DidAfterApp(s0, u, at, Now(), legacy, l, e);
      r := if done then Some(id) else None;
    }

    /** The contested column is dropped from the write, which is sent once more. */
    method RetryAdopt(db: Db, k: nat, l: int, id: Uuid, data: AdoptData, read: Profile)
      returns (done: bool, ghost at: Table, ghost e: Effect)
      requires GoodDb(db) && Unique(rows) && Free(rows, l) && id in rows && rows[id].legacyId.None?
      requires StrongEvidence(legacy, l, read.keys) && data == PlanOf(read, legacy[l].profile)
      requires !Fits(rows, id, TakenRow(legacy, l, rows[id].profile, read, None))
      modifies this
      ensures Did(old(Now()), at, Now(), legacy, l, e)
      ensures if done then e.Taken? && e.id == id && e.read == read else e.NoWrite?
      ensures Quiet(db) && read == old(rows)[id].profile ==> at == old(rows) && AdoptOutcome(at, legacy, l, id, e)
      ensures unresolvable == old(unresolvable) + if done then {} else {l}
      ensures newLegacyIds == old(newLegacyIds) + if done then {l} else {}
    {
      ghost var t := rows;
      var f := Contested(db, l, id, data);
      done, at := TryAdopt(db, k, l, id, Without(data, f, read), read, Some(f));
      e := if done then Taken(id, read, Some(f)) else NoWrite;
      if Quiet(db) && read == t[id].profile { RetryOutcome(t, legacy, l, id, f, e); }
      if !done { unresolvable := unresolvable + {l}; }
    }

    /** The lookups and the decision. `seen` is the table the decision was made on. */
    method Create(db: Db, l: int) returns (r: Option<Uuid>, ghost seen: Table, ghost at: Table, ghost e: Effect)
      requires GoodDb(db) && Unique(rows) && Free(rows, l)
      modifies this
      ensures AppMay(old(rows), seen) && AppMay(seen, at) && Did(old(Now()), at, Now(), legacy, l, e)
      ensures r == Answer(e) && (e.Taken? ==> ReadFrom(seen, e)) && (!Creatable(legacy, l) ==> e.NoWrite?)
      ensures Quiet(db) ==> at == old(rows) && Outcome(at, legacy, l, e)
      ensures unresolvable == old(unresolvable) + if e.NoWrite? then {l} else {}
      ensures newLegacyIds == old(newLegacyIds) + if e.Taken? || e.Inserted? then {l} else {}
    {
      if l !in legacy || legacy[l].Junk? || !HasIdentity(legacy[l].profile.keys) {
        unresolvable := unresolvable + {l};
        NoWriteIsAppMay(rows);
        return None, rows, rows, NoWrite;
      }
      ghost var s0 := Now();
      var existing := Lookup(db, l);
      seen := rows;
      AppKeepsFree(s0.rows, seen, l);
      r, at, e := Settle(db, l, existing);
      DidAfterApp(s0, seen, at, Now(), legacy, l, e);
    }

    /** A strong key first, so that the holder of the phone never shadows it; then the phone. */
    method Lookup(db: Db, l: int) returns (existing: Option<Uuid>)
      requires GoodDb(db) && Unique(rows) && Free(rows, l) && Creatable(legacy, l)
      modifies this`rows
      ensures AppMay(old(rows), rows) && (Quiet(db) ==> rows == old(rows) && FoundIn(rows, legacy[l].profile, existing))
      ensures existing.Some? ==> existing.value in rows && Matches(legacy[l].profile.keys, rows[existing.value])
    {
      ghost var t := rows;
      var profile := legacy[l].profile;
      Await(db, 0);
      existing := db.findStrong(rows, profile.keys);
      FoundStrong(db, rows, profile.keys);
      if existing.Some? { return; }
      ghost var u := rows;
      Await(db, 1);
      AppTwice(t, u, rows);
      existing := db.findPhone(rows, profile.keys.phone);
      FoundPhone(db, rows, profile.keys.phone);
    }

    /** Acts on the decision for the row found, if any. */
    method Settle(db: Db, l: int, existing: Option<Uuid>) returns (r: Option<Uuid>, ghost at: Table, ghost e: Effect)
      requires GoodDb(db) && Unique(rows) && Free(rows, l) && Creatable(legacy, l)
      requires existing.Some? ==> existing.value in rows && Matches(legacy[l].profile.keys, rows[existing.value])
      modifies this
      ensures Did(old(Now()), at, Now(), legacy, l, e) && r == Answer(e)
      ensures e.Taken? ==> ReadFrom(old(rows), e)
      ensures Quiet(db) && FoundIn(old(rows), legacy[l].profile, existing) ==>
        at == old(rows) && Outcome(at, legacy, l, e)
      ensures unresolvable == old(unresolvable) + if e.NoWrite? then {l} else {}
      ensures newLegacyIds == old(newLegacyIds) + if e.Taken? || e.Inserted? then {l} else {}
    {
      var profile := legacy[l].profile;
      ghost var t := rows;
      if existing.None? {
        r, at, e := InsertFresh(db, 2, l, profile);
        return;
      }
      var id := existing.value;
      var decision := DecideIdentityMatch(l, profile.keys, Some(rows[id].profile.keys), rows[id].legacyId);
      FoundRowDecides(t, l, profile.keys, id);
      ghost var quiet := Quiet(db) && FoundIn(t, profile, existing);
      match decision
      case Redirect =>
        NoWriteIsAppMay(rows);
        at, e := rows, Redirected(id);
        redirect := redirect[l := rows[id].legacyId.value];
          r := existing;
        if quiet { StrongOutcome(t, legacy, l, id, e); }
      case Adopt =>
        r, at, e := AdoptPlaceholder(db, 2, l, id);
        if quiet { StrongOutcome(t, legacy, l, id, e); }
      case SeparateWithoutPhone =>
        WithoutPhoneKeys(t, profile);
        r, at, e := InsertFresh(db, 2, l, WithoutPhone(profile));
        if quiet { SeparateOutcome(t, legacy, l, id, e); }
      case Map =>
        // no row carries `l` while no other process migrates
        assert false;
      case Create =>
        // the row was found by a key it shares
        assert false;
    }

    method EnsureMember(db: Db, legacyId: Option<int>)
      returns (r: Option<Uuid>, ghost seen: Table, ghost at: Table, ghost e: Effect)
      requires Valid() && GoodDb(db)
      modifies this
      ensures Valid() && Grows(old(Now()), Now())
      ensures legacyId.Some? && r.Some? ==> Known(Now(), legacyId.value) == r
      ensures !Pending(old(Now()), old(unresolvable), legacyId) ==>
        Now() == old(Now()) && e.NoWrite? && r == if legacyId.Some? then Known(old(Now()), legacyId.value) else None
      ensures Pending(old(Now()), old(unresolvable), legacyId) ==>
        Did(old(Now()), at, Now(), legacy, legacyId.value, e) && r == Answer(e) &&
        AppMay(old(rows), seen) && AppMay(seen, at) && (e.Taken? ==> ReadFrom(seen, e)) &&
        (Quiet(db) ==> at == old(rows) && Outcome(at, legacy, legacyId.value, e))
      ensures unresolvable == old(unresolvable) +
        if Pending(old(Now()), old(unresolvable), legacyId) && e.NoWrite? then {legacyId.value} else {}
    {
      seen, at, e := rows, rows, NoWrite;
      if legacyId.None? { return None, seen, at, e; }
      var l := legacyId.value;
      var winner := Resolve(redirect, l);
      if winner in memberByLegacy { return Some(memberByLegacy[winner]), seen, at, e; }
      if l in unresolvable { return None, seen, at, e; }
      ghost var s0 := Now();
      UnknownIsFree(s0, l);
      r, seen, at, e := Create(db, l);
      CallKeeps(s0, at, Now(), legacy, l, e);
      ExtendsGrows(s0, Now(), l, r);
    }

    /** Any sequence of calls: every answer still holds at the end. `calls` records what each did. */
    method EnsureAll(db: Db, ids: seq<int>) returns (answers: seq<Option<Uuid>>, ghost calls: seq<Call>)
      requires Valid() && GoodDb(db)
      modifies this
      ensures Valid() && Grows(old(Now()), Now())
      ensures |answers| == |ids| && AnswersHold(Now(), ids, answers)
      ensures |calls| == |ids| && Chain(old(Now()), legacy, ids, calls) && End(old(Now()), calls) == Now()
    {
      answers, calls := [], [];
      ghost var s0 := Now();
      for i := 0 to |ids|
        invariant Valid() && Grows(s0, Now())
        invariant |answers| == i && AnswersHold(Now(), ids, answers)
        invariant |calls| == i && Chain(s0, legacy, ids, calls) && End(s0, calls) == Now()
      {
        ghost var s := Now();
        var r, seen, at, e := EnsureMember(db, Some(ids[i]));
        ghost var c := Call(seen, at, e, Now());
        GrowsTwice(s0, s, Now());
        OneMoreAnswer(s, Now(), ids, answers, r);
        OneMoreCall(s0, legacy, ids, calls, c);
        answers := answers + [r];
        calls := calls + [c];
      }
    }
  }

  /** Adopting a row the app left alone gives the field-by-field reference. */
  lemma AdoptedInFull(s: Run, at: Table, t: Run, legacy: map<int, LegacyMember>, l: int, e: Effect)
    requires CleanSource(legacy) && Did(s, at, t, legacy, l, e)
    requires e.Taken? && e.dropped.None? && e.read == at[e.id].profile
    ensures t.rows[e.id] == Member(Some(l), Adopted(at[e.id].profile, legacy[l].profile))
  {
    PlanMeaning(e.read, legacy[l].profile);
  }

  /** The promise not to downgrade is broken by a run the app races: the name it filled in is replaced. */
  lemma AdoptCanReplaceName() returns (s: Run, at: Table, t: Run, legacy: map<int, LegacyMember>, l: int, e: Effect)
    ensures Inv(s) && CleanSource(legacy) && Known(s, l).None? && Did(s, at, t, legacy, l, e)
    ensures e.Taken? && ReadFrom(s.rows, e) && StrongHolder(s.rows, legacy[l].profile.keys, e.id)
    ensures !Preserves(at[e.id].profile, t.rows[e.id].profile)
  {
    var read, now, profile := RacedNameIsReplaced();
    var id := 7;
    l := 1;
    legacy := map[l := Real(profile)];
    s := Run(map[id := Member(None, read)], map[], map[]);
    at := map[id := Member(None, now)];
    e := Taken(id, read, None);
    var row := TakenRow(legacy, l, now, read, None);
    forall f
      ensures !Violates(at, id, row, f)
    {
    }
    t := After(s.(rows := at), legacy, l, e);
  }
}
