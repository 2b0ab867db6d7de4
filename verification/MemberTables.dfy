/**
 * The members table as lazy creation sees it (ensure-member.ts): its unique columns, the lookups, and
 * the app, which goes on writing members at every await. `Db` stands for everything the database and
 * the app decide.
 */
module MemberTables {
  import opened Prelude
  import opened IdentityRules

  type Uuid = int

  datatype Member = Member(legacyId: Option<int>, profile: Profile)

  type Table = map<Uuid, Member>

  /** A legacy row after junk filtering and normalisation. */
  datatype LegacyMember = Junk | Real(profile: Profile)

  // ---- the members table and its unique columns ----

  ghost predicate Unique(t: Table) {
    forall a, b :: a in t && b in t && a != b ==>
      !SameLegacyId(t[a], t[b]) && !Same(t[a].profile.keys.email, t[b].profile.keys.email) &&
      !Same(t[a].profile.keys.phone, t[b].profile.keys.phone) &&
      !Same(t[a].profile.keys.googleSub, t[b].profile.keys.googleSub) &&
      !Same(t[a].profile.keys.appleSub, t[b].profile.keys.appleSub)
  }

  predicate SameLegacyId(a: Member, b: Member) { a.legacyId.Some? && a.legacyId == b.legacyId }

  predicate ClashOn(f: Field, a: Member, b: Member) {
    match f
    case LegacyId => SameLegacyId(a, b)
    case Email => Same(a.profile.keys.email, b.profile.keys.email)
    case Phone => Same(a.profile.keys.phone, b.profile.keys.phone)
    case Google => Same(a.profile.keys.googleSub, b.profile.keys.googleSub)
    case Apple => Same(a.profile.keys.appleSub, b.profile.keys.appleSub)
  }

  /** Some other row already has the value of column `f`. */
  predicate Violates(t: Table, id: Uuid, m: Member, f: Field) {
    exists o :: o in t && o != id && ClashOn(f, t[o], m)
  }

  predicate Fits(t: Table, id: Uuid, m: Member) {
    !Violates(t, id, m, LegacyId) && !Violates(t, id, m, Email) && !Violates(t, id, m, Phone) &&
    !Violates(t, id, m, Google) && !Violates(t, id, m, Apple)
  }

  lemma FittingRowKeepsUnique(t: Table, id: Uuid, m: Member)
    requires Unique(t) && Fits(t, id, m)
    ensures Unique(t[id := m])
  {
    forall o | o in t && o != id
      ensures !ClashOn(LegacyId, t[o], m) && !ClashOn(Email, t[o], m) && !ClashOn(Phone, t[o], m) &&
              !ClashOn(Google, t[o], m) && !ClashOn(Apple, t[o], m)
    {
    }
  }

  /** Null columns clash with nothing: the app may always add a member without keys. */
  lemma BlankMemberFits(t: Table, id: Uuid, p: Profile)
    requires Unique(t) && id !in t && p.keys == Keys(None, None, None, None)
    ensures Unique(t[id := Member(None, p)]) && AppMay(t, t[id := Member(None, p)])
  {
  }

  // ---- what the code does not decide ----

  /**
   * `findStrong` and `findPhone` answer the two lookups (any matching row may come first), `report`
   * names one violated column, `newId` is a fresh uuid, `app` is what the app has written by the
   * k-th await.
   */
  datatype Db = Db(
    findStrong: (Table, Keys) -> Option<Uuid>,
    findPhone: (Table, Option<string>) -> Option<Uuid>,
    report: (Table, Uuid, Member) -> Field,
    newId: Table -> Uuid,
    app: (nat, Table) -> Table)

  /** The app may add members and change anything but `legacyId`; it deletes nobody. */
  ghost predicate AppMay(t: Table, u: Table) {
    Unique(u) && t.Keys <= u.Keys &&
    (forall id :: id in t ==> u[id].legacyId == t[id].legacyId) &&
    forall id :: id in u && id !in t ==> u[id].legacyId.None?
  }

  predicate StrongHolder(t: Table, keys: Keys, id: Uuid) { id in t && IsStrongMatch(keys, t[id].profile.keys) }

  predicate PhoneHolder(t: Table, phone: Option<string>, id: Uuid) { id in t && Same(phone, t[id].profile.keys.phone) }

  ghost predicate GoodDb(db: Db) {
    (forall t, k :: db.findStrong(t, k).Some? ==> StrongHolder(t, k, db.findStrong(t, k).value)) &&
    (forall t, k, id :: db.findStrong(t, k).None? ==> !StrongHolder(t, k, id)) &&
    (forall t, p :: db.findPhone(t, p).Some? ==> PhoneHolder(t, p, db.findPhone(t, p).value)) &&
    (forall t, p, id :: db.findPhone(t, p).None? ==> !PhoneHolder(t, p, id)) &&
    (forall t, id, m :: !Fits(t, id, m) ==> Violates(t, id, m, db.report(t, id, m))) &&
    (forall t :: db.newId(t) !in t) &&
    forall k, t :: Unique(t) ==> AppMay(t, db.app(k, t))
  }

  lemma AppTwice(t: Table, u: Table, v: Table)
    requires AppMay(t, u) && AppMay(u, v)
    ensures AppMay(t, v)
  {
  }

  lemma NoWriteIsAppMay(t: Table)
    requires Unique(t)
    ensures AppMay(t, t)
  {
  }

  /** No row carries the legacy id. */
  ghost predicate Free(t: Table, l: int) { forall id :: id in t ==> t[id].legacyId != Some(l) }

  lemma AppKeepsFree(t: Table, u: Table, l: int)
    requires AppMay(t, u) && Free(t, l)
    ensures Free(u, l)
  {
  }

  lemma FoundStrong(db: Db, t: Table, keys: Keys)
    requires GoodDb(db)
    ensures var r := db.findStrong(t, keys);
      if r.Some? then StrongHolder(t, keys, r.value) else NoStrongHolder(t, keys)
  {
  }

  lemma FoundPhone(db: Db, t: Table, phone: Option<string>)
    requires GoodDb(db)
    ensures var r := db.findPhone(t, phone);
      if r.Some? then PhoneHolder(t, phone, r.value) else NoPhoneHolder(t, phone)
  {
  }

  lemma Reported(db: Db, t: Table, id: Uuid, m: Member)
    requires GoodDb(db) && !Fits(t, id, m)
    ensures Violates(t, id, m, db.report(t, id, m))
  {
  }

  lemma FreshId(db: Db, t: Table)
    requires GoodDb(db)
    ensures db.newId(t) !in t
  {
  }

  ghost predicate NoStrongHolder(t: Table, keys: Keys) { forall id :: !StrongHolder(t, keys, id) }

  ghost predicate NoPhoneHolder(t: Table, phone: Option<string>) { forall id :: !PhoneHolder(t, phone, id) }

  /** The app leaves the table alone while a call is under way. */
  ghost predicate Quiet(db: Db) { forall k, t :: db.app(k, t) == t }

  /** Such a database exists, also with an app that never writes. */
  lemma QuietDbExists() returns (db: Db)
    ensures GoodDb(db) && Quiet(db)
  {
    db := Db((t, k) => AnyStrong(t, k), (t, p) => AnyPhone(t, p), (t, id, m) => FirstViolated(t, id, m),
             t => FreeId(t, 0), (k, t) => t);
  }

  ghost function AnyStrong(t: Table, k: Keys): Option<Uuid> {
    if exists id :: StrongHolder(t, k, id) then var id :| StrongHolder(t, k, id); Some(id) else None
  }

  ghost function AnyPhone(t: Table, p: Option<string>): Option<Uuid> {
    if exists id :: PhoneHolder(t, p, id) then var id :| PhoneHolder(t, p, id); Some(id) else None
  }

  ghost function FirstViolated(t: Table, id: Uuid, m: Member): Field {
    if Violates(t, id, m, LegacyId) then LegacyId
    else if Violates(t, id, m, Email) then Email
    else if Violates(t, id, m, Phone) then Phone
    else if Violates(t, id, m, Google) then Google
    else Apple
  }

  ghost function FreeId(t: Table, n: Uuid): (id: Uuid)
    ensures id >= n && id !in t
    decreases |t|
  {
    if n !in t then n
    else
      assert t == (t - {n})[n := t[n]];
      FreeId(t - {n}, n + 1)
  }

  function WithoutPhone(p: Profile): Profile {
    p.(keys := p.keys.(phone := None), phoneCode := None, isPhoneVerified := false)
  }

  predicate HasIdentity(k: Keys) { k.email.Some? || k.phone.Some? || k.googleSub.Some? || k.appleSub.Some? }

  ghost predicate CleanSource(legacy: map<int, LegacyMember>) {
    forall l :: l in legacy && legacy[l].Real? ==> CleanLegacy(legacy[l].profile)
  }

  // ---- which rows fit ----

  lemma FreshFits(t: Table, id: Uuid, l: int, p: Profile)
    requires Free(t, l) && NoStrongHolder(t, p.keys) && NoPhoneHolder(t, p.keys.phone)
    ensures Fits(t, id, Member(Some(l), p))
  {
    var m := Member(Some(l), p);
    forall o: Uuid, f: Field | o in t
      ensures !ClashOn(f, t[o], m)
    {
      assert !StrongHolder(t, p.keys, o) && !PhoneHolder(t, p.keys.phone, o);
    }
  }

  lemma HeldPhoneDoesNotFit(t: Table, id: Uuid, l: int, p: Profile)
    requires id !in t && !NoPhoneHolder(t, p.keys.phone)
    ensures !Fits(t, id, Member(Some(l), p))
  {
    var h :| PhoneHolder(t, p.keys.phone, h);
    assert ClashOn(Phone, t[h], Member(Some(l), p));
  }

  lemma FittingHasNoHolder(t: Table, id: Uuid, l: int, p: Profile)
    requires id !in t && Fits(t, id, Member(Some(l), p))
    ensures NoStrongHolder(t, p.keys) && NoPhoneHolder(t, p.keys.phone)
  {
    var m := Member(Some(l), p);
    forall h
      ensures !StrongHolder(t, p.keys, h) && !PhoneHolder(t, p.keys.phone, h)
    {
      if h in t {
        assert !ClashOn(Email, t[h], m) && !ClashOn(Google, t[h], m) && !ClashOn(Apple, t[h], m);
        assert !ClashOn(Phone, t[h], m);
      }
    }
  }

  /** Without the phone nobody else holds it, and the strong keys are the same. */
  lemma WithoutPhoneKeys(t: Table, p: Profile)
    ensures NoPhoneHolder(t, WithoutPhone(p).keys.phone)
    ensures NoStrongHolder(t, WithoutPhone(p).keys) <==> NoStrongHolder(t, p.keys)
  {
    forall id
      ensures StrongHolder(t, WithoutPhone(p).keys, id) <==> StrongHolder(t, p.keys, id)
    {
    }
  }

  predicate SameKey(f: Field, a: Member, b: Member) {
    match f
    case LegacyId => a.legacyId == b.legacyId
    case Email => a.profile.keys.email == b.profile.keys.email
    case Phone => a.profile.keys.phone == b.profile.keys.phone
    case Google => a.profile.keys.googleSub == b.profile.keys.googleSub
    case Apple => a.profile.keys.appleSub == b.profile.keys.appleSub
  }

  lemma SameKeySameViolation(t: Table, id: Uuid, a: Member, b: Member, f: Field)
    requires SameKey(f, a, b)
    ensures Violates(t, id, a, f) <==> Violates(t, id, b, f)
  {
    forall o | o in t
      ensures ClashOn(f, t[o], a) <==> ClashOn(f, t[o], b)
    {
    }
  }

  lemma OwnKeyFits(t: Table, id: Uuid, f: Field)
    requires Unique(t) && id in t
    ensures !Violates(t, id, t[id], f)
  {
    forall o | o in t && o != id
      ensures !ClashOn(f, t[o], t[id])
    {
    }
  }

  lemma FitsIffNothingViolated(t: Table, id: Uuid, m: Member)
    ensures Fits(t, id, m) <==> forall f :: !Violates(t, id, m, f)
  {
    if Fits(t, id, m) {
      forall f
        ensures !Violates(t, id, m, f)
      {
        match f { case LegacyId => case Email => case Phone => case Google => case Apple => }
      }
    }
  }

  lemma FreeLegacyId(t: Table, id: Uuid, m: Member, l: int)
    requires Free(t, l) && m.legacyId == Some(l)
    ensures !Violates(t, id, m, LegacyId)
  {
    forall o | o in t
      ensures !SameLegacyId(t[o], m)
    {
    }
  }

  /** On a quiet table a first insert succeeds unless the phone is held, and the second one succeeds. */
  lemma InsertOutcome(t: Table, id: Uuid, l: int, p: Profile)
    requires Free(t, l) && NoStrongHolder(t, p.keys) && id !in t
    ensures Fits(t, id, Member(Some(l), p)) <==> NoPhoneHolder(t, p.keys.phone)
  {
    if NoPhoneHolder(t, p.keys.phone) { FreshFits(t, id, l, p); } else { HeldPhoneDoesNotFit(t, id, l, p); }
  }

  /** A new row with these values is refused. */
  ghost predicate Clashes(t: Table, l: int, p: Profile) {
    exists id: Uuid :: id !in t && !Fits(t, id, Member(Some(l), p))
  }
}
