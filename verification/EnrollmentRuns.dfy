/**
 * The enrollments run with its rows interleaved (enrollments.ts): up to `writeConcurrency` rows are
 * under way at once. A row decides and sets its claim in one go; its queries and its write come later,
 * with any steps of other rows in between. Every write succeeds.
 */
module EnrollmentRuns {
  import opened Prelude
  import opened EnrollmentRules
  import opened Enrollments

  /** Where a row is. `kept` and `inRun` are what it read of the claim when it decided. */
  datatype Task =
    | Waiting
    | Writing(action: Write, kept: int)   // the claim is set, the write is on its way
    | Checking(inRun: bool)               // counting the other rows and looking for an order
    | Updating(inRun: bool)               // the guarded cancel is on its way
    | Updated                             // the cancel landed, the claim does not say so yet
    | Done

  datatype Run = Run(cell: Cell, tasks: seq<Task>)

  function Others(w: World, losers: map<int, seq<int>>, r: LegacyRow): nat {
    CountActive(w.table, r.course, SameMemberIds(w.redirect, losers, r.member), r.id)
  }

  /** What the row does next to the cell of pair `k`, and where it is then. */
  function TaskStep(w: World, losers: map<int, seq<int>>, k: Pair, r: LegacyRow, c: Cell, t: Task): (Cell, Task) {
    match t
    case Waiting =>
      if PairOf(w, r) != Some(k) then (c, Done)
      else if Grants(r) then
        var action := ActionFor(c, r, w.now);
        (c.(claim := ClaimAfter(c.claim, r, action)), if action == Skip then Done else Writing(action, Progress(c)))
      else if MayCancelRemoved(Existing(c), r.id, 0, false) then (c, Checking(c.claim.value.inRun))
      else (c, Done)
    case Writing(action, kept) => (c.(row := RowAfter(c.row, r, action, kept)), Done)
    case Checking(inRun) =>
      (c, if MayCancelRemoved(Existing(c), r.id, Others(w, losers, r), HasPaidOrder(w, k, r.course))
          then Updating(inRun) else Done)
    case Updating(inRun) =>
      if !inRun && c.row.Some? && c.row.value.legacyId == Some(r.id) && !c.row.value.isCanceled
      then (c.(row := Some(Canceled(c.row.value, ReasonOf(r)))), Updated)
      else (c, Done)
    case Updated =>
      (if c.claim.Some? && c.claim.value.e.legacyId == Some(r.id)
       then c.(claim := Some(c.claim.value.(e := Canceled(c.claim.value.e, ReasonOf(r))))) else c, Done)
    case Done => (c, Done)
  }

  /** A row nobody interrupts does exactly what it does in the sequential scan. */
  lemma AloneIsCellStep(w: World, losers: map<int, seq<int>>, k: Pair, r: LegacyRow, c: Cell)
    ensures var (c1, t1) := TaskStep(w, losers, k, r, c, Waiting);
      var (c2, t2) := TaskStep(w, losers, k, r, c1, t1);
      var (c3, t3) := TaskStep(w, losers, k, r, c2, t2);
      var (c4, t4) := TaskStep(w, losers, k, r, c3, t3);
      c4 == CellStep(w, losers, k, c, r) && t4 == Done
  {
  }

  function StepOf(w: World, losers: map<int, seq<int>>, k: Pair, rows: seq<LegacyRow>, s: Run, i: nat): Run
    requires |s.tasks| == |rows| && i < |rows|
  {
    var (c, t) := TaskStep(w, losers, k, rows[i], s.cell, s.tasks[i]);
    Run(c, s.tasks[i := t])
  }

  ghost predicate Next(w: World, losers: map<int, seq<int>>, k: Pair, rows: seq<LegacyRow>, s: Run, t: Run) {
    exists i :: 0 <= i < |rows| && |s.tasks| == |rows| && t == StepOf(w, losers, k, rows, s, i)
  }

  ghost predicate Behaviour(w: World, losers: map<int, seq<int>>, k: Pair, start: Option<Enrollment>,
      rows: seq<LegacyRow>, b: seq<Run>) {
    b != [] && b[0] == Run(StartCell(start), seq(|rows|, _ => Waiting)) &&
    forall n, j :: 0 <= n < j < |b| && j == n + 1 ==> Next(w, losers, k, rows, b[n], b[j])
  }

  ghost predicate AllTasksDone(tasks: seq<Task>) { forall i :: 0 <= i < |tasks| ==> tasks[i] == Done }

  ghost predicate AllDone(s: Run) { AllTasksDone(s.tasks) }

  // ---- what the rows under way have in common ----

  predicate Here(w: World, k: Pair, r: LegacyRow) { PairOf(w, r) == Some(k) }

  /** A granting row of the pair has decided. */
  ghost predicate GrantBegun(w: World, k: Pair, rows: seq<LegacyRow>, s: Run)
    requires |s.tasks| == |rows|
  {
    exists i :: 0 <= i < |rows| && Here(w, k, rows[i]) && Grants(rows[i]) && s.tasks[i] != Waiting
  }

  /** A write that ends a cancel, or creates the row, is on its way. */
  predicate Lifts(t: Task) { t.Writing? && (t.action == Create || t.action == Repoint || t.action == Uncancel) }

  ghost predicate Lifting(s: Run) { exists i :: 0 <= i < |s.tasks| && Lifts(s.tasks[i]) }

  ghost predicate OnlyCreates(s: Run) {
    forall i :: 0 <= i < |s.tasks| && s.tasks[i].Writing? ==> s.tasks[i].action == Create
  }

  ghost predicate NoCreate(s: Run) {
    forall i :: 0 <= i < |s.tasks| && s.tasks[i].Writing? ==> s.tasks[i].action != Create
  }

  predicate Cancels(t: Task) { t.Checking? || t.Updating? || t.Updated? }

  ghost predicate NoUpdateUnderWay(s: Run) {
    forall i :: 0 <= i < |s.tasks| ==> !s.tasks[i].Updating? && !s.tasks[i].Updated?
  }

  /** A row writes only if it grants and cancels only if it does not; either only for its own pair. */
  predicate TaskFits(w: World, k: Pair, r: LegacyRow, t: Task) {
    (t.Writing? ==> Here(w, k, r) && Grants(r)) && (Cancels(t) ==> Here(w, k, r) && !Grants(r))
  }

  ghost predicate TasksFit(w: World, k: Pair, rows: seq<LegacyRow>, s: Run) {
    |s.tasks| == |rows| && forall i :: 0 <= i < |rows| ==> TaskFits(w, k, rows[i], s.tasks[i])
  }

  ghost predicate NoCancelUnderWay(s: Run) { forall i :: 0 <= i < |s.tasks| ==> !Cancels(s.tasks[i]) }

  ghost predicate Reads(w: World, losers: map<int, seq<int>>, rows: seq<LegacyRow>) {
    WellKeyed(w) && Inverts(w.redirect, losers) && WellFormed(w.table) && forall x :: x in rows ==> x in w.table
  }

  // ---- one step of one row ----

  lemma TasksFitStep(w: World, losers: map<int, seq<int>>, k: Pair, rows: seq<LegacyRow>, s: Run, i: nat)
    requires TasksFit(w, k, rows, s) && i < |rows|
    ensures TasksFit(w, k, rows, StepOf(w, losers, k, rows, s, i))
  {
    assert TaskFits(w, k, rows[i], s.tasks[i]);
  }

  lemma BegunStep(w: World, losers: map<int, seq<int>>, k: Pair, rows: seq<LegacyRow>, s: Run, i: nat)
    requires |s.tasks| == |rows| && i < |rows|
    ensures GrantBegun(w, k, rows, StepOf(w, losers, k, rows, s, i))
            <==> GrantBegun(w, k, rows, s) || (Here(w, k, rows[i]) && Grants(rows[i]))
  {
    var t := StepOf(w, losers, k, rows, s, i);
    assert t.tasks[i] != Waiting;
    if j :| 0 <= j < |rows| && Here(w, k, rows[j]) && Grants(rows[j]) && s.tasks[j] != Waiting {
      assert t.tasks[j] != Waiting;
    }
  }

  lemma LiftingStep(w: World, losers: map<int, seq<int>>, k: Pair, rows: seq<LegacyRow>, s: Run, i: nat)
    requires |s.tasks| == |rows| && i < |rows|
    ensures var t := StepOf(w, losers, k, rows, s, i);
      (Lifts(t.tasks[i]) || (Lifting(s) && !Lifts(s.tasks[i])) ==> Lifting(t))
      && (Lifting(t) ==> Lifting(s) || Lifts(t.tasks[i]))
  {
    var t := StepOf(w, losers, k, rows, s, i);
    if j :| 0 <= j < |rows| && Lifts(s.tasks[j]) && j != i { assert Lifts(t.tasks[j]); }
  }

  /** What the rows and the two queries of a cancel say about the pair. */
  lemma RowFacts(w: World, losers: map<int, seq<int>>, k: Pair, rows: seq<LegacyRow>, r: LegacyRow)
    requires Reads(w, losers, rows) && r in rows && Here(w, k, r)
    ensures Grants(r) ==> Active(w, k)
    ensures !Grants(r) ==> (Others(w, losers, r) == 0 <==> !Active(w, k))
    ensures HasPaidOrder(w, k, r.course) <==> OrderFor(w, k)
  {
    OrderLookup(w, k, r);
    if !Grants(r) {
      CountFindsOthers(w, losers, r, k);
      assert OtherActive(w, k, r.id) <==> Active(w, k);
    }
  }

  /** The holder of a claim held by an active row is not a row that lost its entitlement. */
  lemma ActiveHolder(w: World, losers: map<int, seq<int>>, k: Pair, rows: seq<LegacyRow>, e: Enrollment, r: LegacyRow)
    requires Reads(w, losers, rows) && r in rows && HeldByActive(w, k, e) && !Grants(r)
    ensures e.legacyId != Some(r.id)
  {
  }

  // ---- a pair nothing held ----

  ghost predicate NewHolds(w: World, k: Pair, rows: seq<LegacyRow>, s: Run) {
    |s.tasks| == |rows| && NoCancelUnderWay(s) && OnlyCreates(s) &&
    (s.cell.row.Some? ==> !s.cell.row.value.isCanceled) &&
    if s.cell.claim.None? then s.cell.row.None? && !GrantBegun(w, k, rows, s) && !Lifting(s)
    else
      s.cell.claim.value.inRun && HeldByActive(w, k, s.cell.claim.value.e) && GrantBegun(w, k, rows, s) &&
      (s.cell.row.None? ==> Lifting(s))
  }

  lemma NewTask(w: World, losers: map<int, seq<int>>, k: Pair, rows: seq<LegacyRow>, r: LegacyRow, c: Cell, t: Task)
    requires Reads(w, losers, rows) && r in rows && TaskFits(w, k, r, t) && !Cancels(t)
    requires t.Writing? ==> t.action == Create
    requires c.claim.Some? ==> c.claim.value.inRun && HeldByActive(w, k, c.claim.value.e)
    requires c.row.Some? ==> !c.row.value.isCanceled
    ensures var (d, u) := TaskStep(w, losers, k, r, c, t);
      && !Cancels(u) && (u.Writing? ==> u.action == Create)
      && (d.claim.Some? <==> c.claim.Some? || (Here(w, k, r) && Grants(r) && t == Waiting))
      && (d.claim.Some? ==> d.claim.value.inRun && HeldByActive(w, k, d.claim.value.e))
      && (d.row.Some? ==> !d.row.value.isCanceled) && (d.row.Some? <==> c.row.Some? || Lifts(t))
      && (Lifts(u) <==> c.claim.None? && d.claim.Some?)
  {
    if Here(w, k, r) {
      RowFacts(w, losers, k, rows, r);
      if !Grants(r) && c.claim.Some? { ActiveHolder(w, losers, k, rows, c.claim.value.e, r); }
    }
  }

  lemma NewHoldsStep(w: World, losers: map<int, seq<int>>, k: Pair, rows: seq<LegacyRow>, s: Run, i: nat)
    requires Reads(w, losers, rows) && i < |rows| && NewHolds(w, k, rows, s) && TasksFit(w, k, rows, s)
    ensures NewHolds(w, k, rows, StepOf(w, losers, k, rows, s, i))
  {
    assert TaskFits(w, k, rows[i], s.tasks[i]);
    NewTask(w, losers, k, rows, rows[i], s.cell, s.tasks[i]);
    BegunStep(w, losers, k, rows, s, i);
    LiftingStep(w, losers, k, rows, s, i);
  }

  // ---- a pair held by the new system ----

  ghost predicate AppHolds(start: Option<Enrollment>, s: Run) {
    s.cell == StartCell(start) && forall i :: 0 <= i < |s.tasks| ==> s.tasks[i] == Waiting || s.tasks[i] == Done
  }

  lemma AppHoldsStep(w: World, losers: map<int, seq<int>>, k: Pair, rows: seq<LegacyRow>, start: Option<Enrollment>,
                     s: Run, i: nat)
    requires |s.tasks| == |rows| && i < |rows| && AppHolds(start, s) && start.Some? && start.value.legacyId.None?
    ensures AppHolds(start, StepOf(w, losers, k, rows, s, i))
  {
  }

  // ---- a pair with a refund cancel ----

  ghost predicate RefundHolds(w: World, k: Pair, holder: int, rows: seq<LegacyRow>, s: Run) {
    |s.tasks| == |rows| && NoCancelUnderWay(s) && NoCreate(s) &&
    s.cell.row.Some? && s.cell.claim.Some? && !s.cell.claim.value.inRun &&
    var e := s.cell.claim.value.e;
    if e.isCanceled then
      Refunded(e) && e.legacyId == Some(holder) && s.cell.row.value.isCanceled && !Lifting(s) &&
      forall i :: 0 <= i < |rows| && Here(w, k, rows[i]) && Grants(rows[i]) && Paid(rows[i]) && rows[i].id != holder ==>
        s.tasks[i] == Waiting
    else
      HeldByActive(w, k, e) && PaidUnderOtherId(w, k, holder) && (s.cell.row.value.isCanceled ==> Lifting(s))
  }

  lemma RefundTask(w: World, losers: map<int, seq<int>>, k: Pair, holder: int, rows: seq<LegacyRow>, r: LegacyRow,
                   c: Cell, t: Task)
    requires Reads(w, losers, rows) && r in rows && TaskFits(w, k, r, t) && !Cancels(t)
    requires t.Writing? ==> t.action != Create
    requires c.row.Some? && c.claim.Some? && !c.claim.value.inRun
    requires var e := c.claim.value.e;
      if e.isCanceled then Refunded(e) && e.legacyId == Some(holder)
      else HeldByActive(w, k, e) && PaidUnderOtherId(w, k, holder)
    ensures var (d, u) := TaskStep(w, losers, k, r, c, t);
      && !Cancels(u) && (u.Writing? ==> u.action != Create)
      && d.row.Some? && d.claim.Some? && !d.claim.value.inRun
      && (d.claim == c.claim || !d.claim.value.e.isCanceled)
      && (!d.claim.value.e.isCanceled ==> HeldByActive(w, k, d.claim.value.e) && PaidUnderOtherId(w, k, holder))
      && (t == Waiting && Here(w, k, r) && Grants(r) && Paid(r) && r.id != holder ==> !d.claim.value.e.isCanceled)
      && (Lifts(u) ==> !d.claim.value.e.isCanceled)
      && (c.claim.value.e.isCanceled && !d.claim.value.e.isCanceled ==> Lifts(u))
      && d.row.value.isCanceled == (c.row.value.isCanceled && !Lifts(t))
  {
    if Here(w, k, r) {
      RowFacts(w, losers, k, rows, r);
      if !Grants(r) && !c.claim.value.e.isCanceled { ActiveHolder(w, losers, k, rows, c.claim.value.e, r); }
    }
  }

  lemma RefundHoldsStep(w: World, losers: map<int, seq<int>>, k: Pair, holder: int, rows: seq<LegacyRow>, s: Run,
                        i: nat)
    requires Reads(w, losers, rows) && i < |rows| && RefundHolds(w, k, holder, rows, s) && TasksFit(w, k, rows, s)
    ensures RefundHolds(w, k, holder, rows, StepOf(w, losers, k, rows, s, i))
  {
    assert TaskFits(w, k, rows[i], s.tasks[i]);
    RefundTask(w, losers, k, holder, rows, rows[i], s.cell, s.tasks[i]);
    LiftingStep(w, losers, k, rows, s, i);
  }

  // ---- a pair held by a legacy row, some row being active ----

  ghost predicate ActiveHolds(w: World, k: Pair, rows: seq<LegacyRow>, s: Run) {
    |s.tasks| == |rows| && NoCreate(s) && NoUpdateUnderWay(s) &&
    s.cell.row.Some? && s.cell.claim.Some? && !s.cell.claim.value.inRun &&
    var e := s.cell.claim.value.e;
    e.legacyId.Some? && !Refunded(e) && (e.isCanceled ==> !GrantBegun(w, k, rows, s)) &&
    (s.cell.row.value.isCanceled ==> e.isCanceled || Lifting(s))
  }

  lemma ActiveTask(w: World, losers: map<int, seq<int>>, k: Pair, rows: seq<LegacyRow>, r: LegacyRow, c: Cell, t: Task)
    requires Reads(w, losers, rows) && r in rows && Active(w, k) && TaskFits(w, k, r, t)
    requires !t.Updating? && !t.Updated? && (t.Writing? ==> t.action != Create)
    requires c.row.Some? && c.claim.Some? && !c.claim.value.inRun
    requires c.claim.value.e.legacyId.Some? && !Refunded(c.claim.value.e)
    ensures var (d, u) := TaskStep(w, losers, k, r, c, t);
      && !u.Updating? && !u.Updated? && (u.Writing? ==> u.action != Create)
      && d.row.Some? && d.claim.Some? && !d.claim.value.inRun
      && d.claim.value.e.legacyId.Some? && !Refunded(d.claim.value.e)
      && (d.claim.value.e.isCanceled ==>
            c.claim.value.e.isCanceled && !(Here(w, k, r) && Grants(r) && t == Waiting))
      && (c.claim.value.e.isCanceled && !d.claim.value.e.isCanceled ==> Lifts(u))
      && d.row.value.isCanceled == (c.row.value.isCanceled && !Lifts(t))
  {
    if Here(w, k, r) { RowFacts(w, losers, k, rows, r); }
  }

  lemma ActiveHoldsStep(w: World, losers: map<int, seq<int>>, k: Pair, rows: seq<LegacyRow>, s: Run, i: nat)
    requires Reads(w, losers, rows) && i < |rows| && Active(w, k)
    requires ActiveHolds(w, k, rows, s) && TasksFit(w, k, rows, s)
    ensures ActiveHolds(w, k, rows, StepOf(w, losers, k, rows, s, i))
  {
    assert TaskFits(w, k, rows[i], s.tasks[i]);
    ActiveTask(w, losers, k, rows, rows[i], s.cell, s.tasks[i]);
    BegunStep(w, losers, k, rows, s, i);
    LiftingStep(w, losers, k, rows, s, i);
  }

  // ---- a pair held by a legacy row, no row being active ----

  /** `mayCancel`: a cancel of this pair is due if its holder is among the rows. */
  ghost predicate IdleTask(holder: int, mayCancel: bool, canceled: bool, r: LegacyRow, t: Task) {
    match t
    case Waiting => true
    case Writing(_, _) => false
    case Checking(inRun) => !inRun && r.id == holder
    case Updating(inRun) => !inRun && r.id == holder && mayCancel
    case Updated => r.id == holder && mayCancel && canceled
    case Done => r.id == holder && mayCancel ==> canceled
  }

  ghost predicate IdleHolds(w: World, k: Pair, start: Enrollment, rows: seq<LegacyRow>, s: Run)
    requires start.legacyId.Some?
  {
    var holder := start.legacyId.value;
    |s.tasks| == |rows| && s.cell.row.Some? && s.cell.claim.Some? && !s.cell.claim.value.inRun &&
    s.cell.row.value.legacyId == start.legacyId == s.cell.claim.value.e.legacyId &&
    (s.cell.claim.value.e.isCanceled ==> s.cell.row.value.isCanceled) &&
    (start.isCanceled ==> s.cell.row.value.isCanceled) &&
    (s.cell.row.value.isCanceled ==> start.isCanceled || (!OrderFor(w, k) && KnownToLegacy(w, k, holder))) &&
    forall i :: 0 <= i < |rows| && Here(w, k, rows[i]) ==>
      IdleTask(holder, !OrderFor(w, k), s.cell.row.value.isCanceled, rows[i], s.tasks[i])
  }

  lemma IdleHoldsStep(w: World, losers: map<int, seq<int>>, k: Pair, start: Enrollment, rows: seq<LegacyRow>,
                      s: Run, i: nat)
    requires Reads(w, losers, rows) && i < |rows| && !Active(w, k) && start.legacyId.Some?
    requires IdleHolds(w, k, start, rows, s) && TasksFit(w, k, rows, s)
    ensures IdleHolds(w, k, start, rows, StepOf(w, losers, k, rows, s, i))
  {
    assert TaskFits(w, k, rows[i], s.tasks[i]);
    var t := StepOf(w, losers, k, rows, s, i);
    if Here(w, k, rows[i]) {
      RowFacts(w, losers, k, rows, rows[i]);
      assert IdleTask(start.legacyId.value, !OrderFor(w, k), s.cell.row.value.isCanceled, rows[i], s.tasks[i]);
    }
  }

  // ---- every interleaving ----

  ghost predicate Holds(w: World, k: Pair, start: Option<Enrollment>, rows: seq<LegacyRow>, s: Run) {
    TasksFit(w, k, rows, s) &&
    match start
    case None => NewHolds(w, k, rows, s)
    case Some(e) =>
      if e.legacyId.None? then AppHolds(start, s)
      else if Refunded(e) then RefundHolds(w, k, e.legacyId.value, rows, s)
      else if Active(w, k) then ActiveHolds(w, k, rows, s)
      else IdleHolds(w, k, e, rows, s)
  }

  lemma HoldsAtFirst(w: World, k: Pair, start: Option<Enrollment>, rows: seq<LegacyRow>)
    ensures Holds(w, k, start, rows, Run(StartCell(start), seq(|rows|, _ => Waiting)))
  {
  }

  lemma HoldsStep(w: World, losers: map<int, seq<int>>, k: Pair, start: Option<Enrollment>, rows: seq<LegacyRow>,
                  s: Run, i: nat)
    requires Reads(w, losers, rows) && i < |rows| && Holds(w, k, start, rows, s)
    ensures Holds(w, k, start, rows, StepOf(w, losers, k, rows, s, i))
  {
    TasksFitStep(w, losers, k, rows, s, i);
    if start.None? {
      NewHoldsStep(w, losers, k, rows, s, i);
    } else if start.value.legacyId.None? {
      AppHoldsStep(w, losers, k, rows, start, s, i);
    } else if Refunded(start.value) {
      RefundHoldsStep(w, losers, k, start.value.legacyId.value, rows, s, i);
    } else if Active(w, k) {
      ActiveHoldsStep(w, losers, k, rows, s, i);
    } else {
      IdleHoldsStep(w, losers, k, start.value, rows, s, i);
    }
  }

  lemma {:induction false} BehaviourHolds(w: World, losers: map<int, seq<int>>, k: Pair, start: Option<Enrollment>,
                                          rows: seq<LegacyRow>, b: seq<Run>, n: nat)
    requires Reads(w, losers, rows) && Behaviour(w, losers, k, start, rows, b) && n < |b|
    ensures Holds(w, k, start, rows, b[n])
  {
    if n == 0 {
      HoldsAtFirst(w, k, start, rows);
    } else {
      BehaviourHolds(w, losers, k, start, rows, b, n - 1);
      assert Next(w, losers, k, rows, b[n - 1], b[n]);
      var i :| 0 <= i < |rows| && b[n] == StepOf(w, losers, k, rows, b[n - 1], i);
      HoldsStep(w, losers, k, start, rows, b[n - 1], i);
    }
  }

  /** A scan of all rows of the pair in which every row is done. */
  lemma DoneSaysBegun(w: World, losers: map<int, seq<int>>, k: Pair, rows: seq<LegacyRow>, s: Run)
    requires Reads(w, losers, rows) && ScansPair(w, k, rows) && |s.tasks| == |rows| && AllDone(s)
    ensures GrantBegun(w, k, rows, s) <==> Active(w, k)
    ensures !Lifting(s)
  {
    if Active(w, k) {
      var x :| x in w.table && PairOf(w, x) == Some(k) && CountsAsActive(x);
      var i :| 0 <= i < |rows| && rows[i] == x;
      assert s.tasks[i] == Done;
    }
    if i :| 0 <= i < |rows| && Here(w, k, rows[i]) && Grants(rows[i]) {
      RowFacts(w, losers, k, rows, rows[i]);
    }
  }

  lemma RefundDone(w: World, losers: map<int, seq<int>>, k: Pair, holder: int, rows: seq<LegacyRow>, s: Run)
    requires Reads(w, losers, rows) && ScansPair(w, k, rows) && AllDone(s) && RefundHolds(w, k, holder, rows, s)
    ensures s.cell.row.value.isCanceled <==> !PaidUnderOtherId(w, k, holder)
  {
    DoneSaysBegun(w, losers, k, rows, s);
    if x :| x in w.table && PairOf(w, x) == Some(k) && CountsAsActive(x) && Paid(x) && x.id != holder {
      var i :| 0 <= i < |rows| && rows[i] == x;
      assert s.tasks[i] == Done;
    }
  }

  lemma IdleDone(w: World, k: Pair, start: Enrollment, rows: seq<LegacyRow>, s: Run)
    requires ScansPair(w, k, rows) && AllDone(s) && start.legacyId.Some? && !Refunded(start) && !Active(w, k)
    requires IdleHolds(w, k, start, rows, s)
    ensures s.cell.row.value.isCanceled <==> FinalCanceled(w, k, start)
  {
    var holder := start.legacyId.value;
    if x :| x in w.table && PairOf(w, x) == Some(k) && x.id == holder {
      var i :| 0 <= i < |rows| && rows[i] == x;
      assert s.tasks[i] == Done;
      assert IdleTask(holder, !OrderFor(w, k), s.cell.row.value.isCanceled, rows[i], s.tasks[i]);
    }
  }

  /**
   * However the queries and writes of the rows interleave, once all of them are done the pair is
   * cancelled exactly if the entitlement statement says so; a pair nobody held exists exactly if a
   * legacy row is active; a row of the new system is untouched.
   */
  lemma InterleavedScanEntitles(w: World, losers: map<int, seq<int>>, k: Pair, start: Option<Enrollment>,
                                rows: seq<LegacyRow>, b: seq<Run>)
    requires Reads(w, losers, rows) && ScansPair(w, k, rows)
    requires Behaviour(w, losers, k, start, rows, b) && AllDone(b[|b| - 1])
    ensures var row := b[|b| - 1].cell.row;
      && (start.None? ==> (row.Some? <==> Active(w, k)) && (row.Some? ==> !row.value.isCanceled))
      && (start.Some? ==> row.Some? && (row.value.isCanceled <==> FinalCanceled(w, k, start.value)))
      && (start.Some? && start.value.legacyId.None? ==> row == start)
  {
    var s := b[|b| - 1];
    BehaviourHolds(w, losers, k, start, rows, b, |b| - 1);
    DoneSaysBegun(w, losers, k, rows, s);
    if start.Some? && start.value.legacyId.Some? {
      if Refunded(start.value) {
        RefundDone(w, losers, k, start.value.legacyId.value, rows, s);
      } else if !Active(w, k) {
        IdleDone(w, k, start.value, rows, s);
      }
    }
  }

  // ---- the whole table of pairs ----

  datatype Global = Global(cells: map<Pair, Cell>, tasks: seq<Task>)

  function CellOf(g: Global, k: Pair): Cell { if k in g.cells then g.cells[k] else Cell(None, None) }

  function GlobalStep(w: World, losers: map<int, seq<int>>, rows: seq<LegacyRow>, g: Global, i: nat): Global
    requires |g.tasks| == |rows| && i < |rows|
  {
    var pair := PairOf(w, rows[i]);
    if pair.None? then g.(tasks := g.tasks[i := Done])
    else
      var (c, t) := TaskStep(w, losers, pair.value, rows[i], CellOf(g, pair.value), g.tasks[i]);
      Global(g.cells[pair.value := c], g.tasks[i := t])
  }

  ghost predicate GlobalBehaviour(w: World, losers: map<int, seq<int>>, before: map<Pair, Enrollment>,
      rows: seq<LegacyRow>, b: seq<Global>) {
    b != [] && b[0] == Global(map k | k in before :: StartCell(Some(before[k])), seq(|rows|, _ => Waiting)) &&
    (forall n :: 0 <= n < |b| ==> |b[n].tasks| == |rows|) &&
    forall n, j :: 0 <= n < j < |b| && j == n + 1 ==>
      exists i :: 0 <= i < |rows| && b[j] == GlobalStep(w, losers, rows, b[n], i)
  }

  function Seen(w: World, k: Pair, r: LegacyRow, t: Task): Task {
    if Here(w, k, r) || t == Waiting then t else Done
  }

  /** The run as pair `k` sees it: rows of other pairs are done as soon as they have begun. */
  function Projection(w: World, k: Pair, rows: seq<LegacyRow>, g: Global): Run
    requires |g.tasks| == |rows|
  {
    Run(CellOf(g, k), seq(|rows|, i requires 0 <= i < |rows| => Seen(w, k, rows[i], g.tasks[i])))
  }

  lemma StepProjects(w: World, losers: map<int, seq<int>>, k: Pair, rows: seq<LegacyRow>, g: Global, i: nat)
    requires |g.tasks| == |rows| && i < |rows|
    ensures Projection(w, k, rows, GlobalStep(w, losers, rows, g, i))
         == StepOf(w, losers, k, rows, Projection(w, k, rows, g), i)
  {
    var h := GlobalStep(w, losers, rows, g, i);
    var p := Projection(w, k, rows, g);
    assert h.tasks[i] != Waiting;
    assert StepOf(w, losers, k, rows, p, i).cell == CellOf(h, k);
    assert StepOf(w, losers, k, rows, p, i).tasks == Projection(w, k, rows, h).tasks;
  }

  lemma BehaviourProjects(w: World, losers: map<int, seq<int>>, before: map<Pair, Enrollment>, k: Pair,
                          rows: seq<LegacyRow>, b: seq<Global>) returns (p: seq<Run>)
    requires GlobalBehaviour(w, losers, before, rows, b)
    ensures |p| == |b| && Behaviour(w, losers, k, if k in before then Some(before[k]) else None, rows, p)
    ensures p[|p| - 1] == Projection(w, k, rows, b[|b| - 1])
  {
    p := seq(|b|, n requires 0 <= n < |b| => Projection(w, k, rows, b[n]));
    forall n, j | 0 <= n < j < |p| && j == n + 1
      ensures Next(w, losers, k, rows, p[n], p[j])
    {
      var i :| 0 <= i < |rows| && b[j] == GlobalStep(w, losers, rows, b[n], i);
      StepProjects(w, losers, k, rows, b[n], i);
      assert p[j] == StepOf(w, losers, k, rows, p[n], i);
    }
    assert p[0].tasks == seq(|rows|, _ => Waiting);
  }

  /** A whole run, its rows interleaved in any way, entitles every pair whose rows it scanned. */
  lemma InterleavedRunEntitles(w: World, losers: map<int, seq<int>>, before: map<Pair, Enrollment>, k: Pair,
                               rows: seq<LegacyRow>, b: seq<Global>)
    requires Reads(w, losers, rows) && ScansPair(w, k, rows)
    requires GlobalBehaviour(w, losers, before, rows, b) && AllTasksDone(b[|b| - 1].tasks)
    ensures var row := CellOf(b[|b| - 1], k).row;
      && (k in before ==> row.Some? && (row.value.isCanceled <==> FinalCanceled(w, k, before[k])))
      && (k !in before ==> (row.Some? <==> Active(w, k)))
      && (k in before && before[k].legacyId.None? ==> row == Some(before[k]))
  {
    var p := BehaviourProjects(w, losers, before, k, rows, b);
    InterleavedScanEntitles(w, losers, k, if k in before then Some(before[k]) else None, rows, p);
  }
}
