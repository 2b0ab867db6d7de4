/** Who is who: identity-rules.ts and adopt-rules.ts. Null and empty strings count as absent. */
module IdentityRules {
  import opened Prelude

  datatype Keys = Keys(email: Option<string>, phone: Option<string>, googleSub: Option<string>,
      appleSub: Option<string>)

  datatype Decision = Create | Map | Redirect | Adopt | SeparateWithoutPhone

  predicate Same(a: Option<string>, b: Option<string>) { a.Some? && b.Some? && a == b }

  /** The same email or the same provider subject: evidence of one person. A phone is not. */
  predicate IsStrongMatch(legacy: Keys, existing: Keys) {
    Same(legacy.email, existing.email) || Same(legacy.googleSub, existing.googleSub) ||
    Same(legacy.appleSub, existing.appleSub)
  }

  function DecideIdentityMatch(legacyId: int, legacy: Keys, existing: Option<Keys>,
      existingLegacyId: Option<int>): Decision {
    if existing.None? then Create
    else if existingLegacyId == Some(legacyId) then Map
    else if IsStrongMatch(legacy, existing.value) then (if existingLegacyId.None? then Adopt else Redirect)
    else if Same(legacy.phone, existing.value.phone) then SeparateWithoutPhone
    else Create
  }

  predicate Shared(a: Option<string>, b: Option<string>) { a != None && a == b }

  /** Each decision, by what the two share and by the legacy id of the row found. */
  lemma DecisionMeaning(legacyId: int, a: Keys, existing: Option<Keys>, id: Option<int>)
    ensures var d := DecideIdentityMatch(legacyId, a, existing, id);
      match existing
      case None => d == Create
      case Some(b) =>
        var strong := Shared(a.email, b.email) || Shared(a.googleSub, b.googleSub) || Shared(a.appleSub, b.appleSub);
        && (d == Map <==> id == Some(legacyId)) && (d == Adopt <==> strong && id == None)
        && (d == Redirect <==> strong && id != None && id != Some(legacyId))
        && (d == SeparateWithoutPhone <==> !strong && Shared(a.phone, b.phone) && id != Some(legacyId))
  {
  }

  // ---- adopting a placeholder ----

  datatype Bank = Bank(code: Option<string>, number: Option<string>, name: Option<string>)

  datatype Profile = Profile(
    keys: Keys,
    phoneCode: Option<string>,
    fullName: Option<string>,
    avatarUrl: Option<string>,
    bio: Option<string>,
    isActive: bool,
    isEmailVerified: bool,
    isPhoneVerified: bool,
    bank: Bank)

  predicate Present(s: Option<string>) { s.Some? && s.value != "" }

  /** A profile read from legacy: blank strings are null, and a flag needs its key. */
  predicate CleanLegacy(p: Profile) {
    p.keys.email != Some("") && p.keys.phone != Some("") &&
    p.keys.googleSub != Some("") && p.keys.appleSub != Some("") &&
    p.fullName != Some("") && p.avatarUrl != Some("") && p.bio != Some("") &&
    (p.isEmailVerified ==> p.keys.email.Some?) && (p.isPhoneVerified ==> p.keys.phone.Some?)
  }

  /** The fields an adopt writes; `None` leaves a field alone, `activate` is only ever set to true. */
  datatype AdoptData = AdoptData(
    email: Option<string>,
    emailVerified: Option<bool>,
    phone: Option<string>,
    phoneCode: Option<Option<string>>,
    phoneVerified: Option<bool>,
    googleSub: Option<string>,
    appleSub: Option<string>,
    fullName: Option<string>,
    avatarUrl: Option<string>,
    bio: Option<string>,
    activate: bool,
    bank: Option<Bank>)

  const NOTHING := AdoptData(None, None, None, None, None, None, None, None, None, None, false, None)

  function Put(current: Option<string>, value: Option<string>): Option<string> {
    if value.Some? then value else current
  }

  function Apply(p: Profile, d: AdoptData): Profile {
    Profile(
      Keys(Put(p.keys.email, d.email), Put(p.keys.phone, d.phone), Put(p.keys.googleSub, d.googleSub),
           Put(p.keys.appleSub, d.appleSub)),
      if d.phoneCode.Some? then d.phoneCode.value else p.phoneCode,
      Put(p.fullName, d.fullName), Put(p.avatarUrl, d.avatarUrl), Put(p.bio, d.bio),
      p.isActive || d.activate,
      if d.emailVerified.Some? then d.emailVerified.value else p.isEmailVerified,
      if d.phoneVerified.Some? then d.phoneVerified.value else p.isPhoneVerified,
      if d.bank.Some? then d.bank.value else p.bank)
  }

  // ---- what is planned ----

  /** The value to send for a field the member has not filled. */
  function Fill(own: Option<string>, legacy: Option<string>): Option<string> {
    if !Present(own) && Present(legacy) then legacy else None
  }

  /** A verification follows its key: sent with a filled key, or with one that agrees. */
  function Verify(own: Option<string>, legacy: Option<string>, ownFlag: bool, legacyFlag: bool): Option<bool> {
    if legacyFlag && (Fill(own, legacy).Some? || (own == legacy && !ownFlag)) then Some(true) else None
  }

  function PlanOf(own: Profile, legacy: Profile): AdoptData {
    AdoptData(
      Fill(own.keys.email, legacy.keys.email),
      Verify(own.keys.email, legacy.keys.email, own.isEmailVerified, legacy.isEmailVerified),
      Fill(own.keys.phone, legacy.keys.phone),
      if Fill(own.keys.phone, legacy.keys.phone).Some? then Some(legacy.phoneCode) else None,
      Verify(own.keys.phone, legacy.keys.phone, own.isPhoneVerified, legacy.isPhoneVerified),
      Fill(own.keys.googleSub, legacy.keys.googleSub),
      Fill(own.keys.appleSub, legacy.keys.appleSub),
      Fill(own.fullName, legacy.fullName), Fill(own.avatarUrl, legacy.avatarUrl), Fill(own.bio, legacy.bio),
      legacy.isActive && !own.isActive,
      if Present(legacy.bank.number) && own.bank.number.None? then Some(legacy.bank) else None)
  }

  /** Email: filled if absent; its verification follows an address that agrees. */
  method PlanEmail(existing: Profile, legacy: Profile) returns (data: AdoptData)
    ensures var all := PlanOf(existing, legacy);
      data == NOTHING.(email := all.email, emailVerified := all.emailVerified)
  {
    data := NOTHING;
    if !Present(existing.keys.email) && Present(legacy.keys.email) {
      data := data.(email := legacy.keys.email);
      if legacy.isEmailVerified { data := data.(emailVerified := Some(true)); }
    } else if existing.keys.email == legacy.keys.email && legacy.isEmailVerified && !existing.isEmailVerified {
      data := data.(emailVerified := Some(true));
    }
  }

  /** Phone: the same, with its code. */
  method PlanPhone(existing: Profile, legacy: Profile, before: AdoptData) returns (data: AdoptData)
    requires before.phone.None? && before.phoneCode.None? && before.phoneVerified.None?
    ensures var all := PlanOf(existing, legacy);
      data == before.(phone := all.phone, phoneCode := all.phoneCode, phoneVerified := all.phoneVerified)
  {
    data := before;
    if !Present(existing.keys.phone) && Present(legacy.keys.phone) {
      data := data.(phone := legacy.keys.phone, phoneCode := Some(legacy.phoneCode));
      if legacy.isPhoneVerified { data := data.(phoneVerified := Some(true)); }
    } else if existing.keys.phone == legacy.keys.phone && legacy.isPhoneVerified && !existing.isPhoneVerified {
      data := data.(phoneVerified := Some(true));
    }
  }

  method PlanProfile(existing: Profile, legacy: Profile, before: AdoptData) returns (data: AdoptData)
    requires before == NOTHING.(email := before.email, emailVerified := before.emailVerified, phone := before.phone,
                                phoneCode := before.phoneCode, phoneVerified := before.phoneVerified,
                                googleSub := before.googleSub, appleSub := before.appleSub)
    ensures var all := PlanOf(existing, legacy);
      data == before.(fullName := all.fullName, avatarUrl := all.avatarUrl, bio := all.bio,
                      activate := all.activate, bank := all.bank)
  {
    data := before;
    if !Present(existing.fullName) && Present(legacy.fullName) { data := data.(fullName := legacy.fullName); }
    if !Present(existing.avatarUrl) && Present(legacy.avatarUrl) { data := data.(avatarUrl := legacy.avatarUrl); }
    if !Present(existing.bio) && Present(legacy.bio) { data := data.(bio := legacy.bio); }
    if legacy.isActive && !existing.isActive { data := data.(activate := true); }
    if Present(legacy.bank.number) && existing.bank.number.None? { data := data.(bank := Some(legacy.bank)); }
  }

  /** Subjects and profile: filled if empty; activation only raised; bank only without an account. */
  method PlanAdopt(existing: Profile, legacy: Profile) returns (data: AdoptData)
    ensures data == PlanOf(existing, legacy)
  {
    data := PlanEmail(existing, legacy);
    data := PlanPhone(existing, legacy, data);
    if !Present(existing.keys.googleSub) && Present(legacy.keys.googleSub) {
      data := data.(googleSub := legacy.keys.googleSub);
    }
    if !Present(existing.keys.appleSub) && Present(legacy.keys.appleSub) {
      data := data.(appleSub := legacy.keys.appleSub);
    }
    data := PlanProfile(existing, legacy, data);
  }

  // ---- what it does to a row nobody touched ----

  /** The member's own value, or legacy's where it has none. */
  function Prefer(own: Option<string>, legacy: Option<string>): Option<string> {
    if Present(own) || !Present(legacy) then own else legacy
  }

  /**
   * An adopted placeholder, field by field: its own values win, flags are only raised, and a
   * verification counts only for the key it was given for.
   */
  function Adopted(own: Profile, legacy: Profile): Profile {
    var keys := Keys(Prefer(own.keys.email, legacy.keys.email), Prefer(own.keys.phone, legacy.keys.phone),
                     Prefer(own.keys.googleSub, legacy.keys.googleSub),
                     Prefer(own.keys.appleSub, legacy.keys.appleSub));
    Profile(
      keys,
      if keys.phone != own.keys.phone then legacy.phoneCode else own.phoneCode,
      Prefer(own.fullName, legacy.fullName), Prefer(own.avatarUrl, legacy.avatarUrl), Prefer(own.bio, legacy.bio),
      own.isActive || legacy.isActive,
      own.isEmailVerified || (legacy.isEmailVerified && keys.email == legacy.keys.email),
      own.isPhoneVerified || (legacy.isPhoneVerified && keys.phone == legacy.keys.phone),
      if own.bank.number.None? && Present(legacy.bank.number) then legacy.bank else own.bank)
  }

  lemma VerifyMeaning(own: Option<string>, legacy: Option<string>, ownFlag: bool, legacyFlag: bool)
    requires legacyFlag ==> Present(legacy)
    ensures Put(own, Fill(own, legacy)) == Prefer(own, legacy)
    ensures var v := Verify(own, legacy, ownFlag, legacyFlag);
      (if v.Some? then v.value else ownFlag) == (ownFlag || (legacyFlag && Prefer(own, legacy) == legacy))
  {
  }

  /** The planned fields turn the row they were planned for into its reference. */
  lemma PlanMeaning(own: Profile, legacy: Profile)
    requires CleanLegacy(legacy)
    ensures Apply(own, PlanOf(own, legacy)) == Adopted(own, legacy)
  {
    VerifyMeaning(own.keys.email, legacy.keys.email, own.isEmailVerified, legacy.isEmailVerified);
    VerifyMeaning(own.keys.phone, legacy.keys.phone, own.isPhoneVerified, legacy.isPhoneVerified);
  }

  /** Adopting twice is adopting once. */
  lemma AdoptIdempotent(own: Profile, legacy: Profile)
    requires CleanLegacy(legacy)
    ensures var once := Adopted(own, legacy);
      Adopted(once, legacy) == once && PlanOf(once, legacy) == NOTHING
  {
  }

  // ---- what it does to a row the app may have changed since it was read ----

  predicate Keeps(before: Option<string>, after: Option<string>) { Present(before) ==> after == before }

  predicate KeepsKeys(before: Keys, after: Keys) {
    Keeps(before.email, after.email) && Keeps(before.phone, after.phone) &&
    Keeps(before.googleSub, after.googleSub) && Keeps(before.appleSub, after.appleSub)
  }

  /** Nothing the member had is replaced and no flag is lowered. */
  predicate Preserves(before: Profile, after: Profile) {
    KeepsKeys(before.keys, after.keys) &&
    Keeps(before.fullName, after.fullName) && Keeps(before.avatarUrl, after.avatarUrl) &&
    Keeps(before.bio, after.bio) &&
    (before.isActive ==> after.isActive) && (before.isEmailVerified ==> after.isEmailVerified) &&
    (before.isPhoneVerified ==> after.isPhoneVerified) &&
    (before.bank.number.Some? ==> after.bank == before.bank)
  }

  datatype Field = LegacyId | Email | Phone | Google | Apple

  /** Drops a field another member owns from the write; its verification goes back to what was read. */
  function Without(d: AdoptData, f: Field, read: Profile): AdoptData {
    match f
    case Email => d.(email := None, emailVerified := Some(read.isEmailVerified))
    case Phone => d.(phone := None, phoneCode := None, phoneVerified := Some(read.isPhoneVerified))
    case Google => d.(googleSub := None)
    case Apple => d.(appleSub := None)
    case LegacyId => d
  }

  /** The fields sent: the plan for the row as it was read, without the field dropped on a conflict. */
  function Sent(read: Profile, legacy: Profile, dropped: Option<Field>): AdoptData {
    if dropped.None? then PlanOf(read, legacy) else Without(PlanOf(read, legacy), dropped.value, read)
  }

  /** A field that was empty when read and that legacy fills has not been filled differently meanwhile. */
  predicate Unraced(read: Option<string>, now: Option<string>, legacy: Option<string>) {
    !Present(read) && Present(legacy) && Present(now) ==> now == legacy
  }

  predicate UnracedKeys(read: Keys, now: Keys, legacy: Keys, dropped: Option<Field>) {
    (dropped != Some(Email) ==> Unraced(read.email, now.email, legacy.email)) &&
    (dropped != Some(Phone) ==> Unraced(read.phone, now.phone, legacy.phone)) &&
    (dropped != Some(Google) ==> Unraced(read.googleSub, now.googleSub, legacy.googleSub)) &&
    (dropped != Some(Apple) ==> Unraced(read.appleSub, now.appleSub, legacy.appleSub))
  }

  /** What the app filled in between read and write is nothing the write would replace or lower. */
  predicate UnracedProfile(read: Profile, now: Profile, legacy: Profile, dropped: Option<Field>) {
    UnracedKeys(read.keys, now.keys, legacy.keys, dropped) &&
    Unraced(read.fullName, now.fullName, legacy.fullName) &&
    Unraced(read.avatarUrl, now.avatarUrl, legacy.avatarUrl) && Unraced(read.bio, now.bio, legacy.bio) &&
    (dropped == Some(Email) && now.isEmailVerified ==> read.isEmailVerified) &&
    (dropped == Some(Phone) && now.isPhoneVerified ==> read.isPhoneVerified) &&
    (read.bank.number.None? && Present(legacy.bank.number) && now.bank.number.Some? ==> now.bank == legacy.bank)
  }

  lemma FieldKeptIff(read: Option<string>, now: Option<string>, legacy: Option<string>)
    ensures Keeps(now, Put(now, Fill(read, legacy))) <==> Unraced(read, now, legacy)
    ensures Keeps(now, Put(now, None))
  {
  }

  lemma WithoutKeys(d: AdoptData, f: Field, read: Profile)
    ensures var e := Without(d, f, read);
      && e.email == (if f == Email then None else d.email)
      && e.phone == (if f == Phone then None else d.phone)
      && e.googleSub == (if f == Google then None else d.googleSub)
      && e.appleSub == (if f == Apple then None else d.appleSub)
  {
    match f { case LegacyId => case Email => case Phone => case Google => case Apple => }
  }

  lemma WithoutRest(d: AdoptData, f: Field, read: Profile)
    ensures var e := Without(d, f, read);
      && e.fullName == d.fullName && e.avatarUrl == d.avatarUrl && e.bio == d.bio
      && e.bank == d.bank && e.activate == d.activate
      && e.emailVerified == (if f == Email then Some(read.isEmailVerified) else d.emailVerified)
      && e.phoneVerified == (if f == Phone then Some(read.isPhoneVerified) else d.phoneVerified)
  {
    match f { case LegacyId => case Email => case Phone => case Google => case Apple => }
  }

  lemma KeysKeptIff(read: Profile, now: Profile, legacy: Profile, dropped: Option<Field>)
    ensures KeepsKeys(now.keys, Apply(now, Sent(read, legacy, dropped)).keys)
            <==> UnracedKeys(read.keys, now.keys, legacy.keys, dropped)
  {
    var d := PlanOf(read, legacy);
    if dropped.Some? { WithoutKeys(d, dropped.value, read); }
    FieldKeptIff(read.keys.email, now.keys.email, legacy.keys.email);
    FieldKeptIff(read.keys.phone, now.keys.phone, legacy.keys.phone);
    FieldKeptIff(read.keys.googleSub, now.keys.googleSub, legacy.keys.googleSub);
    FieldKeptIff(read.keys.appleSub, now.keys.appleSub, legacy.keys.appleSub);
  }

  /**
   * Exactly when an adopt, planned on the row as read and applied to the row as it is now, replaces
   * nothing the member has and lowers no flag.
   */
  lemma AdoptPreservesIff(read: Profile, now: Profile, legacy: Profile, dropped: Option<Field>)
    ensures Preserves(now, Apply(now, Sent(read, legacy, dropped))) <==> UnracedProfile(read, now, legacy, dropped)
  {
    KeysKeptIff(read, now, legacy, dropped);
    if dropped.Some? { WithoutRest(PlanOf(read, legacy), dropped.value, read); }
    FieldKeptIff(read.fullName, now.fullName, legacy.fullName);
    FieldKeptIff(read.avatarUrl, now.avatarUrl, legacy.avatarUrl);
    FieldKeptIff(read.bio, now.bio, legacy.bio);
  }

  /** In particular if the row is as it was read, also after a contested field was dropped. */
  lemma AdoptPreserves(own: Profile, legacy: Profile, dropped: Option<Field>)
    ensures Preserves(own, Apply(own, Sent(own, legacy, dropped)))
  {
    AdoptPreservesIff(own, own, legacy, dropped);
  }

  /**
   * The promise fails when the app fills a field between read and write: a placeholder that matches on
   * the email sets its name meanwhile, and legacy's name replaces it.
   */
  lemma RacedNameIsReplaced() returns (read: Profile, now: Profile, legacy: Profile)
    ensures CleanLegacy(legacy) && IsStrongMatch(legacy.keys, read.keys)
    ensures now == read.(fullName := now.fullName) && Present(now.fullName)
    ensures Apply(now, PlanOf(read, legacy)).fullName == legacy.fullName != now.fullName
  {
    var keys := Keys(Some("a@b.id"), None, None, None);
    var bank := Bank(None, None, None);
    read := Profile(keys, None, None, None, None, true, true, false, bank);
    now := read.(fullName := Some("Ani"));
    legacy := read.(fullName := Some("Budi"));
    assert "Ani"[0] != "Budi"[0];
  }

  // ---- verifications ----

  /**
   * A verification the write sets was given for the key the row then has: by legacy for the legacy key,
   * or by the member for the key as it was read.
   */
  predicate Backed(nowFlag: bool, afterFlag: bool, afterKey: Option<string>, readFlag: bool, readKey: Option<string>,
      legacyFlag: bool, legacyKey: Option<string>) {
    afterFlag && !nowFlag ==> (legacyFlag && afterKey == legacyKey) || (readFlag && afterKey == readKey)
  }

  /** Every verification the write sets follows a key that matches. */
  predicate VerifiesOwnKeys(read: Profile, now: Profile, legacy: Profile, after: Profile) {
    Backed(now.isEmailVerified, after.isEmailVerified, after.keys.email, read.isEmailVerified, read.keys.email,
           legacy.isEmailVerified, legacy.keys.email) &&
    Backed(now.isPhoneVerified, after.isPhoneVerified, after.keys.phone, read.isPhoneVerified, read.keys.phone,
           legacy.isPhoneVerified, legacy.keys.phone)
  }

  /**
   * The member has not changed a key meanwhile that the write verifies without writing it: one that
   * agreed with a verified legacy key when read, or, if the key was dropped from the write, one that was
   * verified when read.
   */
  predicate KeyStayed(read: Option<string>, now: Option<string>, legacy: Option<string>, readFlag: bool, nowFlag: bool,
      legacyFlag: bool, dropped: bool) {
    if dropped then readFlag && !nowFlag ==> now == read || (legacyFlag && now == legacy)
    else read == legacy && legacyFlag && !readFlag && !nowFlag ==> now == read
  }

  predicate KeysStayed(read: Profile, now: Profile, legacy: Profile, dropped: Option<Field>) {
    KeyStayed(read.keys.email, now.keys.email, legacy.keys.email, read.isEmailVerified, now.isEmailVerified,
              legacy.isEmailVerified, dropped == Some(Email)) &&
    KeyStayed(read.keys.phone, now.keys.phone, legacy.keys.phone, read.isPhoneVerified, now.isPhoneVerified,
              legacy.isPhoneVerified, dropped == Some(Phone))
  }

  lemma BackedIff(read: Option<string>, now: Option<string>, legacy: Option<string>, readFlag: bool, nowFlag: bool,
                  legacyFlag: bool, dropped: bool)
    ensures var value := if dropped then None else Fill(read, legacy);
      var flag := if dropped then Some(readFlag) else Verify(read, legacy, readFlag, legacyFlag);
      Backed(nowFlag, if flag.Some? then flag.value else nowFlag, Put(now, value), readFlag, read, legacyFlag, legacy)
      <==> KeyStayed(read, now, legacy, readFlag, nowFlag, legacyFlag, dropped)
  {
  }

  /** Exactly when an adopt, planned on one version of a row and applied to another, verifies own keys only. */
  lemma VerifiesOwnKeysIff(read: Profile, now: Profile, legacy: Profile, dropped: Option<Field>)
    ensures VerifiesOwnKeys(read, now, legacy, Apply(now, Sent(read, legacy, dropped)))
            <==> KeysStayed(read, now, legacy, dropped)
  {
    if dropped.Some? {
      WithoutKeys(PlanOf(read, legacy), dropped.value, read);
      WithoutRest(PlanOf(read, legacy), dropped.value, read);
    }
    BackedIff(read.keys.email, now.keys.email, legacy.keys.email, read.isEmailVerified, now.isEmailVerified,
              legacy.isEmailVerified, dropped == Some(Email));
    BackedIff(read.keys.phone, now.keys.phone, legacy.keys.phone, read.isPhoneVerified, now.isPhoneVerified,
              legacy.isPhoneVerified, dropped == Some(Phone));
  }

  /** A row the app left alone only gets verifications of its own keys. */
  lemma UntouchedVerifiesOwnKeys(own: Profile, legacy: Profile, dropped: Option<Field>)
    ensures VerifiesOwnKeys(own, own, legacy, Apply(own, Sent(own, legacy, dropped)))
  {
    VerifiesOwnKeysIff(own, own, legacy, dropped);
  }

  /** The app changes an email between read and write; the new one comes out verified, though nothing is replaced. */
  lemma RacedEmailIsVerified() returns (read: Profile, now: Profile, legacy: Profile)
    ensures CleanLegacy(legacy) && IsStrongMatch(legacy.keys, read.keys)
    ensures now == read.(keys := now.keys) && now.keys == read.keys.(email := now.keys.email)
    ensures var after := Apply(now, PlanOf(read, legacy));
      && Preserves(now, after) && after.isEmailVerified && !now.isEmailVerified
      && after.keys.email == now.keys.email != legacy.keys.email
  {
    var bank := Bank(None, None, None);
    read := Profile(Keys(Some("a@b.id"), None, None, None), None, None, None, None, true, false, false, bank);
    now := read.(keys := Keys(Some("c@b.id"), None, None, None));
    legacy := read.(isEmailVerified := true);
    assert "a@b.id"[0] != "c@b.id"[0];
  }
}
