/**
 * The enrollments syncer (enrollments.ts): legacy rows arrive in any order, each is decided against
 * the in-run claim of its (member, course) pair and written. The reference is `FinalCanceled`, a
 * statement about the set of legacy rows of the pair.
 */
module Enrollments {
  import opened Prelude
  import opened Redirects
  import opened EnrollmentRules

  /** `None` is a null payment status, `Some(true)` is SUCCESS. */
  datatype LegacyRow = LegacyRow(
    id: int,
    member: int,
    course: int,
    status: int,
    coursePaid: Option<bool>,
    bundlePaid: Option<bool>,
    expired: Option<int>,
    progress: int)

  datatype Course = Course(id: int, product: int)

  /** What a run reads besides the scanned rows: the legacy table, the id maps, the new system's orders. */
  datatype World = World(
    table: seq<LegacyRow>,
    redirect: map<int, int>,
    memberByLegacy: map<int, int>,
    courseByLegacy: map<int, Course>,
    paidOrders: set<(int, int)>,   // (member, product) with a PAID order of a positive amount
    now: int)

  type Pair = (int, int)           // (member, course)

  predicate Paid(r: LegacyRow) { r.coursePaid == Some(true) || r.bundlePaid == Some(true) }

  predicate HasAccess(r: LegacyRow) { Paid(r) || (r.coursePaid.None? && r.bundlePaid.None?) }

  /** `status = 1 AND HAS_ACCESS_SQL` */
  predicate CountsAsActive(r: LegacyRow) { r.status == 1 && HasAccess(r) }

  /** What the row loop treats as a granted entitlement. */
  predicate Grants(r: LegacyRow) { r.status != 0 && HasAccess(r) }

  function MemberOf(w: World, legacyMember: int): Option<int> {
    var winner := Resolve(w.redirect, legacyMember);
    if winner in w.memberByLegacy then Some(w.memberByLegacy[winner]) else None
  }

  function PairOf(w: World, r: LegacyRow): Option<Pair> {
    var m := MemberOf(w, r.member);
    if m.Some? && r.course in w.courseByLegacy then Some((m.value, w.courseByLegacy[r.course].id)) else None
  }

  // ---- who else is entitled ----

  /** `invertRedirect`: the losers of each winner. */
  method InvertRedirect(redirect: map<int, int>, order: seq<int>) returns (losers: map<int, seq<int>>)
    requires forall x :: x in order <==> x in redirect
    ensures forall winner, x :: (winner in losers && x in losers[winner]) <==> x in redirect && redirect[x] == winner
  {
    losers := map[];
    for i := 0 to |order|
      invariant forall winner, x :: (winner in losers && x in losers[winner]) <==>
        x in order[..i] && x in redirect && redirect[x] == winner
    {
      var x := order[i];
      assert order[..i + 1] == order[..i] + [x];
      var winner := redirect[x];
      losers := losers[winner := (if winner in losers then losers[winner] else []) + [x]];
    }
    assert order[..|order|] == order;
  }

  /** Every legacy member id that resolves to the same winner, through the inverted map. */
  function SameMemberIds(redirect: map<int, int>, losers: map<int, seq<int>>, m: int): set<int> {
    var winner := Resolve(redirect, m);
    {m, winner} + if winner in losers then set x | x in losers[winner] else {}
  }

  function CountActive(table: seq<LegacyRow>, course: int, members: set<int>, except: int): nat {
    if table == [] then 0
    else
      (if table[0].course == course && table[0].member in members && table[0].id != except && CountsAsActive(table[0])
       then 1 else 0) + CountActive(table[1..], course, members, except)
  }

  lemma {:induction false} CountActiveZero(table: seq<LegacyRow>, course: int, members: set<int>, except: int)
    ensures CountActive(table, course, members, except) == 0 <==>
      forall x :: x in table && x.course == course && x.member in members && x.id != except ==> !CountsAsActive(x)
  {
    if table != [] {
      CountActiveZero(table[1..], course, members, except);
      assert forall x :: x in table <==> x == table[0] || x in table[1..];
    }
  }

  /** The redirect map is flat and the id maps are one to one, as their unique keys make them. */
  ghost predicate WellKeyed(w: World) {
    (forall x :: x in w.redirect ==> w.redirect[x] !in w.redirect) &&
    (forall a, b :: a in w.memberByLegacy && b in w.memberByLegacy && w.memberByLegacy[a] == w.memberByLegacy[b] ==>
       a == b) &&
    forall a, b :: a in w.courseByLegacy && b in w.courseByLegacy ==>
      w.courseByLegacy[a].id == w.courseByLegacy[b].id ==> a == b
  }

  ghost predicate Inverts(redirect: map<int, int>, losers: map<int, seq<int>>) {
    forall winner, x :: (winner in losers && x in losers[winner]) <==> x in redirect && redirect[x] == winner
  }

  /** Another row of the same pair still grants access. */
  ghost predicate OtherActive(w: World, k: Pair, except: int) {
    exists x :: x in w.table && PairOf(w, x) == Some(k) && x.id != except && CountsAsActive(x)
  }

  /** The count over aliases finds exactly the other active rows of the pair. */
  lemma CountFindsOthers(w: World, losers: map<int, seq<int>>, r: LegacyRow, k: Pair)
    requires WellKeyed(w) && Inverts(w.redirect, losers) && PairOf(w, r) == Some(k)
    ensures CountActive(w.table, r.course, SameMemberIds(w.redirect, losers, r.member), r.id) == 0
            <==> !OtherActive(w, k, r.id)
  {
    var ids := SameMemberIds(w.redirect, losers, r.member);
    CountActiveZero(w.table, r.course, ids, r.id);
    forall m
      ensures m in ids <==> Resolve(w.redirect, m) == Resolve(w.redirect, r.member)
    {
      AliasIds(w.redirect, losers, r.member, m);
    }
    forall x | x in w.table
      ensures PairOf(w, x) == Some(k) <==> x.course == r.course && x.member in ids
    {
    }
  }

  lemma AliasIds(redirect: map<int, int>, losers: map<int, seq<int>>, a: int, m: int)
    requires forall x :: x in redirect ==> redirect[x] !in redirect
    requires Inverts(redirect, losers)
    ensures m in SameMemberIds(redirect, losers, a) <==> Resolve(redirect, m) == Resolve(redirect, a)
  {
  }

  // ---- one pair, one row ----

  /** The in-run claim: what is believed to hold the pair. `inRun` is a create of this very run. */
  datatype Claim = Claim(inRun: bool, e: Enrollment)

  datatype Cell = Cell(row: Option<Enrollment>, claim: Option<Claim>)

  function Revived(e: Enrollment, r: LegacyRow): Enrollment {
    e.(legacyId := Some(r.id), isCanceled := false, reason := None, expired := r.expired)
  }

  function Created(r: LegacyRow): Enrollment {
    Enrollment(Some(r.id), false, None, r.expired, r.progress)
  }

  function Existing(c: Cell): Option<Enrollment> {
    if c.claim.Some? then Some(c.claim.value.e) else None
  }

  function ActionFor(c: Cell, r: LegacyRow, now: int): Write {
    if c.claim.Some? && c.claim.value.inRun then Skip
    else DecideEnrollmentWrite(Existing(c), r.id, now, r.expired, Paid(r))
  }

  /** The row after a granting row's write; `kept` is the progress of the claim it was decided on. */
  function RowAfter(row: Option<Enrollment>, r: LegacyRow, action: Write, kept: int): Option<Enrollment> {
    match action
    case Skip => row
    case Create => if row.None? then Some(Created(r)) else row
    case Repoint => if row.Some? then Some(Revived(row.value, r).(progress := Max(kept, r.progress))) else None
    case Uncancel =>
      if row.Some? then
        Some(row.value.(isCanceled := false, reason := None, expired := r.expired, progress := r.progress))
      else None
    case Refresh => if row.Some? then Some(row.value.(expired := r.expired, progress := r.progress)) else None
  }

  /** The claim, set before the write is sent. A refresh does not touch it. */
  function ClaimAfter(claim: Option<Claim>, r: LegacyRow, action: Write): Option<Claim> {
    if action == Create then Some(Claim(true, Created(r)))
    else if claim.Some? && (action == Repoint || action == Uncancel) then
      Some(Claim(claim.value.inRun, Revived(claim.value.e, r)))
    else claim
  }

  function Progress(c: Cell): int { if c.claim.Some? then c.claim.value.e.progress else 0 }

  /** The effect of a granting row. */
  function GrantStep(c: Cell, r: LegacyRow, now: int): Cell {
    var action := ActionFor(c, r, now);
    Cell(RowAfter(c.row, r, action, Progress(c)), ClaimAfter(c.claim, r, action))
  }

  function Canceled(e: Enrollment, reason: CancelReason): Enrollment {
    e.(isCanceled := true, reason := Some(reason))
  }

  /**
   * The effect of a lost entitlement. The guard of the update looks at the row itself, by its id, which
   * a claim of this run does not know yet.
   */
  function CancelStep(c: Cell, r: LegacyRow, others: nat, hasPaidOrder: bool, reason: CancelReason): Cell {
    if !MayCancelRemoved(Existing(c), r.id, others, hasPaidOrder) then c
    else if !c.claim.value.inRun && c.row.Some? && c.row.value.legacyId == Some(r.id) && !c.row.value.isCanceled then
      Cell(Some(Canceled(c.row.value, reason)), Some(c.claim.value.(e := Canceled(Existing(c).value, reason))))
    else c
  }

  /** A removal, or a payment that is no longer a success. */
  function ReasonOf(r: LegacyRow): CancelReason {
    if r.status == 0 then LegacyRemoved else PaymentRevoked
  }

  function HasPaidOrder(w: World, k: Pair, course: int): bool {
    course in w.courseByLegacy && (k.0, w.courseByLegacy[course].product) in w.paidOrders
  }

  function CellStep(w: World, losers: map<int, seq<int>>, k: Pair, c: Cell, r: LegacyRow): Cell {
    if PairOf(w, r) != Some(k) then c
    else if Grants(r) then GrantStep(c, r, w.now)
    else
      CancelStep(c, r, CountActive(w.table, r.course, SameMemberIds(w.redirect, losers, r.member), r.id),
                 HasPaidOrder(w, k, r.course), ReasonOf(r))
  }

  function CellScan(w: World, losers: map<int, seq<int>>, k: Pair, c: Cell, rows: seq<LegacyRow>): Cell {
    if rows == [] then c
    else CellStep(w, losers, k, CellScan(w, losers, k, c, rows[..|rows| - 1]), rows[|rows| - 1])
  }

  // ---- the code ----

  function CellAt(db: map<Pair, Enrollment>, byPair: map<Pair, Claim>, k: Pair): Cell {
    Cell(if k in db then Some(db[k]) else None, if k in byPair then Some(byPair[k]) else None)
  }

  function StartCell(start: Option<Enrollment>): Cell {
    Cell(start, if start.Some? then Some(Claim(false, start.value)) else None)
  }

  class EnrollmentsSyncer {
    var db: map<Pair, Enrollment>
    var byPair: map<Pair, Claim>

    /** The run preloads the claims from the table. */
    constructor (db: map<Pair, Enrollment>)
      ensures this.db == db
      ensures forall k :: CellAt(this.db, byPair, k) == StartCell(if k in db then Some(db[k]) else None)
    {
      this.db := db;
      this.byPair := map k | k in db :: Claim(false, db[k]);
    }

    method CancelEnrollment(w: World, losers: map<int, seq<int>>, r: LegacyRow, reason: CancelReason)
      requires !Grants(r) && reason == ReasonOf(r)
      modifies this
      ensures forall k :: CellAt(db, byPair, k) == CellStep(w, losers, k, CellAt(old(db), old(byPair), k), r)
    {
      var pair := PairOf(w, r);
      if pair.None? { return; }
      var k := pair.value;
      var existing := if k in byPair then Some(byPair[k].e) else None;
      // cheap check first
      if !MayCancelRemoved(existing, r.id, 0, false) { return; }
      var others := CountActive(w.table, r.course, SameMemberIds(w.redirect, losers, r.member), r.id);
      if !MayCancelRemoved(existing, r.id, others, HasPaidOrder(w, k, r.course)) { return; }
      if !byPair[k].inRun && k in db && db[k].legacyId == Some(r.id) && !db[k].isCanceled {
        db := db[k := Canceled(db[k], reason)];
        byPair := byPair[k := byPair[k].(e := Canceled(byPair[k].e, reason))];
      }
    }

    method GrantEnrollment(w: World, losers: map<int, seq<int>>, r: LegacyRow)
      requires Grants(r)
      modifies this
      ensures forall k :: CellAt(db, byPair, k) == CellStep(w, losers, k, CellAt(old(db), old(byPair), k), r)
    {
      var pair := PairOf(w, r);
      if pair.None? { return; }
      var k := pair.value;
      var existing := if k in byPair then Some(byPair[k].e) else None;
      var action := if k in byPair && byPair[k].inRun then Skip
        else DecideEnrollmentWrite(existing, r.id, w.now, r.expired, Paid(r));
      if action == Skip { return; }
      if action == Create {
        byPair := byPair[k := Claim(true, Created(r))];
        if k !in db { db := db[k := Created(r)]; }
        return;
      }
      if action == Repoint || action == Uncancel {
        byPair := byPair[k := byPair[k].(e := Revived(existing.value, r))];
      }
      if k !in db { return; }
      if action == Repoint {
        db := db[k := Revived(db[k], r).(progress := Max(existing.value.progress, r.progress))];
      } else {
        db := db[k := db[k].(expired := r.expired, progress := r.progress)];
        if action == Uncancel {
          db := db[k := db[k].(isCanceled := false, reason := None)];
        }
      }
    }

    /** The row loop. */
    method Scan(w: World, losers: map<int, seq<int>>, rows: seq<LegacyRow>)
      modifies this
      ensures forall k :: CellAt(db, byPair, k) == CellScan(w, losers, k, CellAt(old(db), old(byPair), k), rows)
    {
      for i := 0 to |rows|
        invariant forall k ::
          CellAt(db, byPair, k) == CellScan(w, losers, k, CellAt(old(db), old(byPair), k), rows[..i])
      {
        var r := rows[i];
        assert rows[..i + 1][..i] == rows[..i];
        if Grants(r) {
          GrantEnrollment(w, losers, r);
        } else {
          CancelEnrollment(w, losers, r, ReasonOf(r));
        }
      }
      assert rows[..|rows|] == rows;
    }
  }

  // ---- the reference ----

  predicate Bought(x: LegacyRow) { x.coursePaid == Some(true) || x.bundlePaid == Some(true) }

  /** Not removed, and bought or free. */
  predicate Entitles(x: LegacyRow) { x.status == 1 && (Bought(x) || (x.coursePaid == None && x.bundlePaid == None)) }

  ghost predicate Active(w: World, k: Pair) {
    exists x :: x in w.table && PairOf(w, x) == Some(k) && Entitles(x)
  }

  ghost predicate PaidUnderOtherId(w: World, k: Pair, holder: int) {
    exists x :: x in w.table && PairOf(w, x) == Some(k) && Entitles(x) && Bought(x) && x.id != holder
  }

  ghost predicate KnownToLegacy(w: World, k: Pair, holder: int) {
    exists x :: x in w.table && PairOf(w, x) == Some(k) && x.id == holder
  }

  ghost predicate OrderFor(w: World, k: Pair) {
    exists course :: course in w.courseByLegacy && w.courseByLegacy[course].id == k.1 &&
      (k.0, w.courseByLegacy[course].product) in w.paidOrders
  }

  /** Cancelled, and not for one of the two reasons this syncer writes. */
  predicate CanceledElsewhere(e: Enrollment) {
    e.isCanceled && e.reason != Some(LegacyRemoved) && e.reason != Some(PaymentRevoked)
  }

  /** Whether the pair's row is cancelled after a scan of all its legacy rows. */
  ghost function FinalCanceled(w: World, k: Pair, e: Enrollment): bool {
    if e.legacyId.None? then e.isCanceled
    else if CanceledElsewhere(e) then !PaidUnderOtherId(w, k, e.legacyId.value)
    else !Active(w, k) && (e.isCanceled || (!OrderFor(w, k) && KnownToLegacy(w, k, e.legacyId.value)))
  }

  /** Primary keys are unique and `status` is 0 or 1. */
  ghost predicate WellFormed(table: seq<LegacyRow>) {
    (forall x :: x in table ==> x.status == 0 || x.status == 1) &&
    forall x, y :: x in table && y in table && x.id == y.id ==> x == y
  }

  /** `rows` is a scan of all legacy rows of the pair, in any order, among rows of other pairs. */
  ghost predicate ScansPair(w: World, k: Pair, rows: seq<LegacyRow>) {
    (forall x :: x in rows ==> x in w.table) &&
    (forall x :: x in w.table && PairOf(w, x) == Some(k) ==> x in rows)
  }

  // what the rows seen so far contain

  ghost predicate SeenGrant(w: World, k: Pair, rows: seq<LegacyRow>) {
    exists x :: x in rows && PairOf(w, x) == Some(k) && Grants(x)
  }

  ghost predicate SeenPaidOther(w: World, k: Pair, rows: seq<LegacyRow>, holder: int) {
    exists x :: x in rows && PairOf(w, x) == Some(k) && Grants(x) && Paid(x) && x.id != holder
  }

  ghost predicate SeenHolder(w: World, k: Pair, rows: seq<LegacyRow>, holder: int) {
    exists x :: x in rows && PairOf(w, x) == Some(k) && x.id == holder
  }

  lemma SeenOneMore(w: World, k: Pair, rows: seq<LegacyRow>, r: LegacyRow, holder: int)
    ensures var more := rows + [r]; var here := PairOf(w, r) == Some(k);
      && (SeenGrant(w, k, more) <==> SeenGrant(w, k, rows) || (here && Grants(r)))
      && (SeenPaidOther(w, k, more, holder) <==>
          SeenPaidOther(w, k, rows, holder) || (here && Grants(r) && Paid(r) && r.id != holder))
      && (SeenHolder(w, k, more, holder) <==> SeenHolder(w, k, rows, holder) || (here && r.id == holder))
  {
    var more := rows + [r];
    assert r in more;
    assert forall x :: x in more <==> x in rows || x == r;
  }

  /** The pair is held by an active legacy row, so no removal can cancel it. */
  ghost predicate HeldByActive(w: World, k: Pair, e: Enrollment) {
    exists x :: x in w.table && PairOf(w, x) == Some(k) && CountsAsActive(x) && e.legacyId == Some(x.id)
  }

  ghost predicate Mirrors(c: Cell) {
    (c.row.None? <==> c.claim.None?) &&
    (c.row.Some? ==>
       c.row.value.legacyId == c.claim.value.e.legacyId && c.row.value.isCanceled == c.claim.value.e.isCanceled &&
       c.row.value.reason == c.claim.value.e.reason)
  }

  /** A pair that nothing held: created by its first granting row. */
  ghost predicate NewInv(w: World, k: Pair, rows: seq<LegacyRow>, c: Cell) {
    if SeenGrant(w, k, rows) then
      c.row.Some? && c.claim.Some? && c.claim.value.inRun && !c.row.value.isCanceled &&
      HeldByActive(w, k, c.row.value)
    else c.row.None?
  }

  ghost predicate RefundedInv(w: World, k: Pair, holder: int, rows: seq<LegacyRow>, c: Cell) {
    c.row.Some? && c.claim.Some? && !c.claim.value.inRun &&
    if SeenPaidOther(w, k, rows, holder) then !c.row.value.isCanceled && c.row.value.legacyId.Some? && Active(w, k)
    else c.row.value.legacyId == Some(holder) && Refunded(c.row.value)
  }

  ghost predicate LegacyInv(w: World, k: Pair, holder: int, canceled: bool, rows: seq<LegacyRow>, c: Cell) {
    c.row.Some? && c.claim.Some? && !c.claim.value.inRun && c.row.value.legacyId.Some? && !Refunded(c.row.value) &&
    if Active(w, k) then (SeenGrant(w, k, rows) || !canceled ==> !c.row.value.isCanceled) &&
      (!SeenGrant(w, k, rows) ==> c.row.value.legacyId == Some(holder))
    else
      c.row.value.legacyId == Some(holder) &&
      (c.row.value.isCanceled <==> canceled || (!OrderFor(w, k) && SeenHolder(w, k, rows, holder)))
  }

  lemma OrderLookup(w: World, k: Pair, r: LegacyRow)
    requires WellKeyed(w) && PairOf(w, r) == Some(k)
    ensures HasPaidOrder(w, k, r.course) <==> OrderFor(w, k)
  {
    if OrderFor(w, k) {
      var course :| course in w.courseByLegacy && w.courseByLegacy[course].id == k.1 &&
        (k.0, w.courseByLegacy[course].product) in w.paidOrders;
      assert course == r.course;
    }
  }

  /** One row of the pair, with the count and the order lookup replaced by what they mean. */
  lemma RowMeaning(w: World, losers: map<int, seq<int>>, k: Pair, c: Cell, r: LegacyRow)
    requires WellKeyed(w) && Inverts(w.redirect, losers) && WellFormed(w.table)
    requires r in w.table && PairOf(w, r) == Some(k)
    ensures Grants(r) <==> CountsAsActive(r)
    ensures Grants(r) ==> Active(w, k) && CellStep(w, losers, k, c, r) == GrantStep(c, r, w.now)
    ensures !Grants(r) ==>
      CellStep(w, losers, k, c, r) == CancelStep(c, r, if Active(w, k) then 1 else 0, OrderFor(w, k), ReasonOf(r))
  {
    if !Grants(r) {
      CountFindsOthers(w, losers, r, k);
      OrderLookup(w, k, r);
      assert OtherActive(w, k, r.id) <==> Active(w, k);
    }
  }

  lemma NewStep(w: World, losers: map<int, seq<int>>, k: Pair, rows: seq<LegacyRow>, c: Cell, r: LegacyRow)
    requires WellKeyed(w) && Inverts(w.redirect, losers) && WellFormed(w.table) && r in w.table
    requires Mirrors(c) && NewInv(w, k, rows, c)
    ensures var d := CellStep(w, losers, k, c, r); Mirrors(d) && NewInv(w, k, rows + [r], d)
  {
    SeenOneMore(w, k, rows, r, 0);
    if PairOf(w, r) == Some(k) { RowMeaning(w, losers, k, c, r); }
  }

  lemma RefundedStep(w: World, losers: map<int, seq<int>>, k: Pair, holder: int, rows: seq<LegacyRow>, c: Cell,
      r: LegacyRow)
    requires WellKeyed(w) && Inverts(w.redirect, losers) && WellFormed(w.table) && r in w.table
    requires Mirrors(c) && RefundedInv(w, k, holder, rows, c)
    ensures var d := CellStep(w, losers, k, c, r); Mirrors(d) && RefundedInv(w, k, holder, rows + [r], d)
  {
    SeenOneMore(w, k, rows, r, holder);
    if PairOf(w, r) == Some(k) { RowMeaning(w, losers, k, c, r); }
  }

  lemma LegacyStep(w: World, losers: map<int, seq<int>>, k: Pair, holder: int, canceled: bool,
                   rows: seq<LegacyRow>, c: Cell, r: LegacyRow)
    requires WellKeyed(w) && Inverts(w.redirect, losers) && WellFormed(w.table) && r in w.table
    requires Mirrors(c) && LegacyInv(w, k, holder, canceled, rows, c)
    ensures var d := CellStep(w, losers, k, c, r); Mirrors(d) && LegacyInv(w, k, holder, canceled, rows + [r], d)
  {
    SeenOneMore(w, k, rows, r, holder);
    if PairOf(w, r) == Some(k) { RowMeaning(w, losers, k, c, r); }
  }

  /** What the scan of any rows of the table leaves, by what held the pair at the start. */
  ghost predicate CellInv(w: World, k: Pair, start: Option<Enrollment>, rows: seq<LegacyRow>, c: Cell) {
    Mirrors(c) &&
    match start
    case None => NewInv(w, k, rows, c)
    case Some(e) =>
      if e.legacyId.None? then c.row == start && c.claim.Some? && !c.claim.value.inRun
      else if Refunded(e) then RefundedInv(w, k, e.legacyId.value, rows, c)
      else LegacyInv(w, k, e.legacyId.value, e.isCanceled, rows, c)
  }

  lemma {:induction false} ScanKeepsInv(w: World, losers: map<int, seq<int>>, k: Pair, start: Option<Enrollment>,
      rows: seq<LegacyRow>)
    requires WellKeyed(w) && Inverts(w.redirect, losers) && WellFormed(w.table)
    requires forall x :: x in rows ==> x in w.table
    ensures CellInv(w, k, start, rows, CellScan(w, losers, k, StartCell(start), rows))
  {
    if rows != [] {
      var n := |rows| - 1;
      var before, r := rows[..n], rows[n];
      ScanKeepsInv(w, losers, k, start, before);
      var c := CellScan(w, losers, k, StartCell(start), before);
      assert before + [r] == rows;
      if start.None? {
        NewStep(w, losers, k, before, c, r);
      } else if start.value.legacyId.Some? {
        if Refunded(start.value) {
          RefundedStep(w, losers, k, start.value.legacyId.value, before, c, r);
        } else {
          LegacyStep(w, losers, k, start.value.legacyId.value, start.value.isCanceled, before, c, r);
        }
      }
    }
  }

  /**
   * Whatever the order of the rows, the pair ends cancelled exactly if the reference says so; a pair
   * nobody held exists afterwards exactly if a legacy row is active; new-system rows are untouched.
   */
  lemma ScanEntitles(w: World, losers: map<int, seq<int>>, k: Pair, start: Option<Enrollment>, rows: seq<LegacyRow>)
    requires WellKeyed(w) && Inverts(w.redirect, losers) && WellFormed(w.table)
    requires ScansPair(w, k, rows)
    ensures var row := CellScan(w, losers, k, StartCell(start), rows).row;
      && (start.None? ==> (row.Some? <==> Active(w, k)) && (row.Some? ==> !row.value.isCanceled))
      && (start.Some? ==> row.Some? && (row.value.isCanceled <==> FinalCanceled(w, k, start.value)))
      && (start.Some? && start.value.legacyId.None? ==> row == start)
  {
    ScanKeepsInv(w, losers, k, start, rows);
    assert SeenGrant(w, k, rows) <==> Active(w, k);
    if start.Some? && start.value.legacyId.Some? {
      var holder := start.value.legacyId.value;
      assert SeenPaidOther(w, k, rows, holder) <==> PaidUnderOtherId(w, k, holder);
      assert SeenHolder(w, k, rows, holder) <==> KnownToLegacy(w, k, holder);
    }
  }

  /** No single row lifts a refund unless it is paid and has another legacy id. */
  lemma RefundLiftedOnlyByPurchase(w: World, losers: map<int, seq<int>>, k: Pair, c: Cell, r: LegacyRow)
    requires Mirrors(c) && c.row.Some? && Refunded(c.row.value)
    ensures var d := CellStep(w, losers, k, c, r);
      d.row.Some? && (!d.row.value.isCanceled ==>
        PairOf(w, r) == Some(k) && Grants(r) && Paid(r) && c.row.value.legacyId.Some? &&
        c.row.value.legacyId != Some(r.id))
  {
  }
}
