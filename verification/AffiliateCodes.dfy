/**
 * The namespace of affiliate codes (affiliate-code-sync.ts, code-aliases.ts): a code belongs to the
 * member holding it, otherwise to the member its alias points at. Each step reads and writes at once.
 */
module AffiliateCodes {
  import opened Prelude

  type MemberId = int
  type Code = string

  /** `own` is unique in the database: no two members hold the same code. */
  datatype Codes = Codes(members: set<MemberId>, own: map<MemberId, Code>, alias: map<Code, MemberId>)

  ghost predicate Valid(s: Codes) {
    (forall m :: m in s.own ==> m in s.members) &&
    (forall c :: c in s.alias ==> s.alias[c] in s.members) &&
    forall a, b :: a in s.own && b in s.own && s.own[a] == s.own[b] ==> a == b
  }

  ghost predicate Holds(s: Codes, m: MemberId, code: Code) { m in s.own && s.own[m] == code }

  /** Members first, then aliases. */
  ghost predicate ResolvesTo(s: Codes, code: Code, m: MemberId) {
    Holds(s, m, code) || ((forall x :: x in s.own ==> s.own[x] != code) && code in s.alias && s.alias[code] == m)
  }

  function Holder(s: Codes, code: Code): (h: Option<MemberId>)
    requires Valid(s)
    ensures h.Some? ==> Holds(s, h.value, code)
    ensures h.None? ==> forall m :: m in s.own ==> s.own[m] != code
  {
    if exists m :: m in s.own && s.own[m] == code then
      var m :| m in s.own && s.own[m] == code; Some(m)
    else None
  }

  function AliasOwner(s: Codes, code: Code): Option<MemberId> {
    if code in s.alias then Some(s.alias[code]) else None
  }

  // ---- the legacy code of one member ----

  datatype CodeAction = NoCode | Same | SetCode | AddAlias | Collision

  /** Null and empty codes are no codes. */
  predicate HasCode(code: Option<Code>) { code.Some? && code.value != "" }

  function DecideLegacyCode(legacyCode: Option<Code>, member: MemberId, memberCode: Option<Code>,
                            holder: Option<MemberId>, aliasOwner: Option<MemberId>): (action: CodeAction)
    ensures action == NoCode <==> legacyCode == None || legacyCode == Some("")
  {
    if !HasCode(legacyCode) then NoCode
    else if holder.Some? then (if holder.value == member then Same else Collision)
    else if aliasOwner.Some? then (if aliasOwner.value == member then Same else Collision)
    else if HasCode(memberCode) then AddAlias
    else SetCode
  }

  function OwnCode(s: Codes, m: MemberId): Option<Code> { if m in s.own then Some(s.own[m]) else None }

  /** A `set` is conditional on the member having no code, an alias is never overwritten. */
  function AfterSync(s: Codes, member: MemberId, legacyCode: Option<Code>): Codes
    requires Valid(s)
  {
    if !HasCode(legacyCode) || member !in s.members then s
    else
      var code := legacyCode.value;
      match DecideLegacyCode(legacyCode, member, OwnCode(s, member), Holder(s, code), AliasOwner(s, code))
      case SetCode => if member in s.own then s else s.(own := s.own[member := code])
      case AddAlias => s.(alias := s.alias[code := member])
      case _ => s
  }

  ghost predicate ResolvesToNobody(s: Codes, code: Code) { forall x :: !ResolvesTo(s, code, x) }

  /** What must become of the legacy code of a member. */
  ghost predicate CodeRight(s: Codes, t: Codes, member: MemberId, code: Code, action: CodeAction) {
    && (code == "" || member !in s.members ==> t == s && action == NoCode)
    && (code != "" && member in s.members ==>
          && (ResolvesTo(s, code, member) <==> action == Same)
          && ((exists x :: x != member && ResolvesTo(s, code, x)) <==> action == Collision)
          && (action == Same || action == Collision ==> t == s)
          && (ResolvesToNobody(s, code) && member !in s.own ==>
                action == SetCode && t == s.(own := s.own[member := code]))
          && (ResolvesToNobody(s, code) && member in s.own && s.own[member] != "" ==>
                action == AddAlias && t == s.(alias := s.alias[code := member]))
          && (ResolvesToNobody(s, code) && member in s.own && s.own[member] == "" ==> action == NoCode && t == s))
  }

  lemma LookupsResolve(s: Codes, code: Code)
    requires Valid(s)
    ensures var h, a := Holder(s, code), AliasOwner(s, code);
      && (h.Some? ==> ResolvesTo(s, code, h.value) && forall x :: ResolvesTo(s, code, x) ==> x == h.value)
      && (h.None? && a.Some? ==> ResolvesTo(s, code, a.value) && forall x :: ResolvesTo(s, code, x) ==> x == a.value)
      && (h.None? && a.None? ==> ResolvesToNobody(s, code))
  {
  }

  // ---- aliases of dedup losers ----

  datatype AliasDecision = CreateAlias | SkipAlias | AliasCollision

  function DecideCodeAlias(code: Option<Code>, winner: Option<MemberId>, codeMember: Option<MemberId>,
                           aliasMember: Option<MemberId>, samePerson: bool): AliasDecision {
    if !HasCode(code) then SkipAlias
    else if winner.None? then SkipAlias
    else if !samePerson then SkipAlias
    else if codeMember == winner then SkipAlias
    else if codeMember.Some? then AliasCollision
    else if aliasMember == winner then SkipAlias
    else if aliasMember.Some? then AliasCollision
    else CreateAlias
  }

  /** One entry of the flattened redirect, with what was looked up for it. */
  datatype Loser = Loser(code: Option<Code>, winner: Option<MemberId>, samePerson: bool)

  /** A loser of the same person as its winner, with a code. */
  predicate Eligible(l: Loser) { l.code != None && l.code != Some("") && l.winner != None && l.samePerson }

  /** Whom the code of a loser leads to once the plan is in the table. */
  ghost predicate LeadsTo(s: Codes, aliasMember: map<Code, MemberId>, code: Code, m: MemberId)
    requires Valid(s)
  {
    var h := Holder(s, code);
    if h.Some? then h.value == m else code in aliasMember && aliasMember[code] == m
  }

  /** The code of an eligible loser ends up with somebody, and a warning says that it is not the winner. */
  ghost predicate Led(s: Codes, l: Loser, warned: bool) {
    if Eligible(l) then exists m :: ResolvesTo(s, l.code.value, m) && (warned <==> l.winner != Some(m)) else !warned
  }

  /** The first `i` losers have been looked at; the ones in `warned` lost their code to somebody else. */
  ghost predicate Sorted(s: Codes, losers: seq<Loser>, i: nat, aliasMember: map<Code, MemberId>, warned: set<nat>)
    requires Valid(s)
  {
    i <= |losers| && (forall k :: k in warned ==> k < i) &&
    forall k: nat :: k < i ==>
      if Eligible(losers[k]) then
        exists m :: LeadsTo(s, aliasMember, losers[k].code.value, m) &&
          (k in warned <==> losers[k].winner != Some(m))
      else k !in warned
  }

  datatype Planned = Planned(code: Code, member: MemberId)

  /** The plan so far: distinct codes nobody resolves, each of a loser; the map is the table with the plan. */
  ghost predicate Planning(s: Codes, losers: seq<Loser>, toCreate: seq<Planned>, aliasMember: map<Code, MemberId>)
    requires Valid(s)
  {
    (forall a, b :: 0 <= a < b < |toCreate| ==> toCreate[a].code != toCreate[b].code) &&
    (forall p :: p in toCreate ==> p.code !in s.alias && Holder(s, p.code).None? && p.member in s.members) &&
    (forall p :: p in toCreate ==>
       exists l :: l in losers && l.code == Some(p.code) && l.winner == Some(p.member) && l.samePerson) &&
    (forall c :: c in aliasMember <==> c in s.alias || exists p :: p in toCreate && p.code == c) &&
    (forall p :: p in toCreate ==> aliasMember[p.code] == p.member) &&
    forall c :: c in s.alias ==> aliasMember[c] == s.alias[c]
  }

  lemma PlanOne(s: Codes, losers: seq<Loser>, toCreate: seq<Planned>, aliasMember: map<Code, MemberId>, l: Loser)
    requires Valid(s) && Planning(s, losers, toCreate, aliasMember) && l in losers
    requires HasCode(l.code) && l.winner.Some? && l.winner.value in s.members && l.samePerson
    requires Holder(s, l.code.value).None? && l.code.value !in aliasMember
    ensures Planning(s, losers, toCreate + [Planned(l.code.value, l.winner.value)],
                     aliasMember[l.code.value := l.winner.value])
  {
    var p := Planned(l.code.value, l.winner.value);
    assert forall q :: q in toCreate + [p] <==> q in toCreate || q == p;
    forall a | 0 <= a < |toCreate|
      ensures toCreate[a].code != p.code
    {
      assert toCreate[a] in toCreate;
    }
  }

  function Known(aliasMember: map<Code, MemberId>, code: Option<Code>): Option<MemberId> {
    if HasCode(code) && code.value in aliasMember then Some(aliasMember[code.value]) else None
  }

  /** What is decided about loser `i`. */
  function DecisionFor(s: Codes, aliasMember: map<Code, MemberId>, l: Loser): AliasDecision
    requires Valid(s)
  {
    DecideCodeAlias(l.code, l.winner, if HasCode(l.code) then Holder(s, l.code.value) else None,
                    Known(aliasMember, l.code), l.samePerson)
  }

  /** The decision about loser `i` says whom its code leads to, and no later one changes that. */
  lemma SortOne(s: Codes, losers: seq<Loser>, i: nat, aliasMember: map<Code, MemberId>, warned: set<nat>)
    requires Valid(s) && i < |losers| && Sorted(s, losers, i, aliasMember, warned)
    ensures var l, d := losers[i], DecisionFor(s, aliasMember, losers[i]);
      if d == CreateAlias then Sorted(s, losers, i + 1, aliasMember[l.code.value := l.winner.value], warned)
      else Sorted(s, losers, i + 1, aliasMember, if d == AliasCollision then warned + {i} else warned)
  {
    var l, d := losers[i], DecisionFor(s, aliasMember, losers[i]);
    var after := if d == CreateAlias then aliasMember[l.code.value := l.winner.value] else aliasMember;
    var warns := if d == AliasCollision then warned + {i} else warned;
    forall k: nat | k < i && Eligible(losers[k])
      ensures exists m :: LeadsTo(s, after, losers[k].code.value, m) && (k in warns <==> losers[k].winner != Some(m))
    {
      var m :| LeadsTo(s, aliasMember, losers[k].code.value, m) && (k in warned <==> losers[k].winner != Some(m));
      assert LeadsTo(s, after, losers[k].code.value, m);
    }
    if Eligible(l) {
      var code := l.code.value;
      var m := if Holder(s, code).Some? then Holder(s, code).value else after[code];
      assert LeadsTo(s, after, code, m) && (i in warns <==> l.winner != Some(m));
    }
  }

  /** The plan, inserted, is the table the planning worked with. */
  lemma PlanInserted(s: Codes, losers: seq<Loser>, toCreate: seq<Planned>, aliasMember: map<Code, MemberId>)
    requires Valid(s) && Planning(s, losers, toCreate, aliasMember)
    ensures InsertAll(s.alias, toCreate) == aliasMember
  {
    InsertAllSays(s.alias, toCreate);
    SameAliases(s.alias, toCreate, InsertAll(s.alias, toCreate), aliasMember);
  }

  /** Two tables of the old aliases and the planned ones, and of nothing else. */
  lemma SameAliases(alias: map<Code, MemberId>, toCreate: seq<Planned>, a: map<Code, MemberId>,
                    b: map<Code, MemberId>)
    requires forall c :: c in a <==> c in b
    requires forall c :: c in a ==> c in alias || exists p :: p in toCreate && p.code == c
    requires forall c :: c in alias ==> c in a && a[c] == b[c]
    requires forall p :: p in toCreate ==> p.code in a && a[p.code] == b[p.code]
    ensures a == b
  {
    forall c | c in a
      ensures a[c] == b[c]
    {
      if c !in alias {
        var p :| p in toCreate && p.code == c;
      }
    }
  }

  lemma PlanLeads(s: Codes, losers: seq<Loser>, aliasMember: map<Code, MemberId>, warned: set<nat>, k: nat)
    requires Valid(s) && Sorted(s, losers, |losers|, aliasMember, warned) && k < |losers|
    ensures Led(s.(alias := aliasMember), losers[k], k in warned)
  {
    if Eligible(losers[k]) {
      var m :| LeadsTo(s, aliasMember, losers[k].code.value, m) && (k in warned <==> losers[k].winner != Some(m));
      assert ResolvesTo(s.(alias := aliasMember), losers[k].code.value, m);
    }
  }

  /** Code sync and alias planning write through this state. */
  class CodeTables {
    var s: Codes

    constructor (s: Codes)
      ensures this.s == s
    {
      this.s := s;
    }

    method SyncLegacyAffiliateCode(member: MemberId, legacyCode: Option<Code>) returns (action: CodeAction)
      requires Valid(s)
      modifies this
      ensures s == AfterSync(old(s), member, legacyCode)
      ensures legacyCode.None? ==> s == old(s) && action == NoCode
      ensures legacyCode.Some? ==> CodeRight(old(s), s, member, legacyCode.value, action)
      ensures action == SetCode || action == AddAlias ==> ResolvesTo(s, legacyCode.value, member)
    {
      if !HasCode(legacyCode) || member !in s.members { return NoCode; }
      var code := legacyCode.value;
      LookupsResolve(s, code);
      action := DecideLegacyCode(legacyCode, member, OwnCode(s, member), Holder(s, code), AliasOwner(s, code));
      if action == SetCode {
        // an empty string in the column counts as no code for the decision but not for the update's guard
        if member in s.own { return NoCode; }
        s := s.(own := s.own[member := code]);
      } else if action == AddAlias {
        s := s.(alias := s.alias[code := member]);
      }
    }

    /** Plans over all losers, then inserts, skipping codes already aliased. */
    method SyncCodeAliases(losers: seq<Loser>) returns (toCreate: seq<Planned>, warned: set<nat>)
      requires Valid(s)
      requires forall l :: l in losers && l.winner.Some? ==> l.winner.value in s.members
      modifies this
      ensures Valid(s) && s.own == old(s).own && s.members == old(s).members
      ensures Planning(old(s), losers, toCreate, s.alias)
      ensures forall k: nat :: k < |losers| ==> Led(s, losers[k], k in warned)
      ensures forall k :: k in warned ==> k < |losers|
      ensures AliasStep(old(s), s)
    {
      toCreate, warned := [], {};
      var aliasMember := s.alias;
      for i := 0 to |losers|
        invariant s == old(s) && Planning(s, losers, toCreate, aliasMember)
        invariant Sorted(s, losers, i, aliasMember, warned)
      {
        var l := losers[i];
        var decision := DecideCodeAlias(l.code, l.winner, if HasCode(l.code) then Holder(s, l.code.value) else None,
                                        Known(aliasMember, l.code), l.samePerson);
        SortOne(s, losers, i, aliasMember, warned);
        if decision == CreateAlias {
          PlanOne(s, losers, toCreate, aliasMember, l);
          toCreate := toCreate + [Planned(l.code.value, l.winner.value)];
          aliasMember := aliasMember[l.code.value := l.winner.value];
        } else if decision == AliasCollision {
          warned := warned + {i};
        }
      }
      PlanInserted(s, losers, toCreate, aliasMember);
      forall k: nat | k < |losers|
        ensures Led(s.(alias := aliasMember), losers[k], k in warned)
      {
        PlanLeads(s, losers, aliasMember, warned, k);
      }
      s := s.(alias := InsertAll(s.alias, toCreate));
    }
  }

  /** `createMany` with `skipDuplicates`. */
  function InsertAll(alias: map<Code, MemberId>, planned: seq<Planned>): map<Code, MemberId> {
    if planned == [] then alias
    else
      var before := InsertAll(alias, planned[..|planned| - 1]);
      var p := planned[|planned| - 1];
      if p.code in before then before else before[p.code := p.member]
  }

  /** With distinct new codes nothing is skipped and nothing is overwritten. */
  lemma {:induction false} InsertAllSays(alias: map<Code, MemberId>, planned: seq<Planned>)
    requires forall a, b :: 0 <= a < b < |planned| ==> planned[a].code != planned[b].code
    requires forall p :: p in planned ==> p.code !in alias
    ensures var after := InsertAll(alias, planned);
      && (forall c :: c in after <==> c in alias || exists p :: p in planned && p.code == c)
      && (forall c :: c in alias ==> after[c] == alias[c])
      && forall p :: p in planned ==> after[p.code] == p.member
  {
    if planned != [] {
      var n := |planned| - 1;
      var rest, last := planned[..n], planned[n];
      assert forall q :: q in planned <==> q in rest || q == last;
      InsertAllSays(alias, rest);
      assert last.code !in InsertAll(alias, rest);
    }
  }

  // ---- stability ----

  /** One step of either kind, taken atomically. */
  ghost predicate Step(s: Codes, t: Codes) {
    (exists member, code :: Valid(s) && t == AfterSync(s, member, code)) || AliasStep(s, t)
  }

  /** What `SyncCodeAliases` promises about the tables. */
  ghost predicate AliasStep(s: Codes, t: Codes) {
    t.own == s.own && t.members == s.members && s.alias.Keys <= t.alias.Keys &&
    (forall c :: c in s.alias ==> t.alias[c] == s.alias[c]) &&
    forall c :: c in t.alias && c !in s.alias ==> t.alias[c] in s.members && forall m :: m in s.own ==> s.own[m] != c
  }

  lemma ResolutionUnique(s: Codes, code: Code, a: MemberId, b: MemberId)
    requires Valid(s) && ResolvesTo(s, code, a) && ResolvesTo(s, code, b)
    ensures a == b
  {
  }

  lemma StepKeeps(s: Codes, t: Codes)
    requires Valid(s) && Step(s, t)
    ensures Valid(t)
    ensures forall code, m :: ResolvesTo(s, code, m) ==> ResolvesTo(t, code, m)
  {
    if member, code :| t == AfterSync(s, member, code) {
      if t != s {
        assert Holder(s, code.value).None?;
      }
    }
  }

  /** A link in circulation keeps leading to the same member under any sequence of steps. */
  lemma {:induction false} CodesKeepResolving(b: seq<Codes>, i: nat, j: nat, code: Code, m: MemberId)
    requires i <= j < |b| && Valid(b[0])
    requires forall i, j :: 0 <= i < j < |b| && j == i + 1 ==> Step(b[i], b[j])
    requires ResolvesTo(b[i], code, m)
    ensures Valid(b[j]) && forall x :: ResolvesTo(b[j], code, x) <==> x == m
    decreases j
  {
    ValidEver(b, j);
    if i < j {
      CodesKeepResolving(b, i, j - 1, code, m);
      assert Step(b[j - 1], b[j]);
      StepKeeps(b[j - 1], b[j]);
      assert ResolvesTo(b[j], code, m);
    }
    forall x | ResolvesTo(b[j], code, x)
      ensures x == m
    {
      ResolutionUnique(b[j], code, x, m);
    }
  }

  lemma {:induction false} ValidEver(b: seq<Codes>, j: nat)
    requires j < |b| && Valid(b[0])
    requires forall i, j :: 0 <= i < j < |b| && j == i + 1 ==> Step(b[i], b[j])
    ensures Valid(b[j])
  {
    if j > 0 {
      ValidEver(b, j - 1);
      assert Step(b[j - 1], b[j]);
      StepKeeps(b[j - 1], b[j]);
    }
  }

  /** Disjointness of the two tables, which the app's allocators rely on, is kept too. */
  lemma TablesStayDisjoint(s: Codes, t: Codes)
    requires Valid(s) && Step(s, t)
    requires forall m :: m in s.own ==> s.own[m] !in s.alias
    ensures forall m :: m in t.own ==> t.own[m] !in t.alias
  {
    if member, code :| t == AfterSync(s, member, code) {
      if t != s {
        assert Holder(s, code.value).None? && code.value !in s.alias;
      }
    }
  }
}
