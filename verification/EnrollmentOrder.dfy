/**
 * When the terms of a pair survive interleaving (enrollments.ts): they do as long as no two writes of
 * the pair are under way at once. Two that overlap can land in the other order than they were decided.
 */
module EnrollmentOrder {
  import opened Prelude
  import opened EnrollmentRules
  import opened Enrollments
  import opened EnrollmentTerms
  import opened EnrollmentRuns

  ghost predicate OneWrite(s: Run) {
    forall i, j :: 0 <= i < |s.tasks| && 0 <= j < |s.tasks| && s.tasks[i].Writing? && s.tasks[j].Writing? ==> i == j
  }

  ghost predicate WritesApart(b: seq<Run>) { forall n :: 0 <= n < |b| ==> OneWrite(b[n]) }

  /** The cell once the write of a row has landed. */
  function Landed(c: Cell, r: LegacyRow, t: Task): Cell
    requires t.Writing?
  {
    c.(row := RowAfter(c.row, r, t.action, t.kept))
  }

  /** The active rows that have decided, in that order. */
  ghost predicate Decided(w: World, k: Pair, rows: seq<LegacyRow>, s: Run, seen: seq<LegacyRow>)
    requires |s.tasks| == |rows|
  {
    (forall x :: x in seen ==> exists i :: 0 <= i < |rows| && rows[i] == x && s.tasks[i] != Waiting) &&
    (forall i :: 0 <= i < |rows| && s.tasks[i] != Waiting && Here(w, k, rows[i]) && Grants(rows[i]) ==>
       rows[i] in seen) &&
    (Distinct(rows) ==> Distinct(seen))
  }

  /** The terms are as after a scan of the decided rows, the write under way having landed. */
  ghost predicate OrderHolds(w: World, k: Pair, e: Enrollment, rows: seq<LegacyRow>, s: Run, seen: seq<LegacyRow>) {
    |s.tasks| == |rows| && NoUpdateUnderWay(s) && Decided(w, k, rows, s, seen) && LandsOn(w, k, e, rows, s, seen)
  }

  ghost predicate NoneWriting(s: Run) { forall i :: 0 <= i < |s.tasks| ==> !s.tasks[i].Writing? }

  ghost predicate LandsOn(w: World, k: Pair, e: Enrollment, rows: seq<LegacyRow>, s: Run, seen: seq<LegacyRow>)
    requires |s.tasks| == |rows|
  {
    if NoneWriting(s) then TermsInv(w, k, e, seen, s.cell)
    else
      forall i :: 0 <= i < |rows| && s.tasks[i].Writing? ==>
        TermsInv(w, k, e, seen, Landed(s.cell, rows[i], s.tasks[i]))
  }

  lemma DecidedMore(w: World, losers: map<int, seq<int>>, k: Pair, rows: seq<LegacyRow>, s: Run,
                    seen: seq<LegacyRow>, i: nat)
    requires |s.tasks| == |rows| && i < |rows| && Decided(w, k, rows, s, seen)
    ensures var t := StepOf(w, losers, k, rows, s, i);
      && (s.tasks[i] == Waiting ==> Decided(w, k, rows, t, seen + [rows[i]]))
      && (s.tasks[i] != Waiting || !Here(w, k, rows[i]) || !Grants(rows[i]) ==> Decided(w, k, rows, t, seen))
  {
    var t := StepOf(w, losers, k, rows, s, i);
    assert t.tasks[i] != Waiting;
    forall x | x in seen
      ensures exists j :: 0 <= j < |rows| && rows[j] == x && t.tasks[j] != Waiting
    {
      var j :| 0 <= j < |rows| && rows[j] == x && s.tasks[j] != Waiting;
      assert t.tasks[j] != Waiting;
    }
    OneMore(w, k, seen, rows[i]);
  }

  /** A granting row decides as in the scan, and its write will have the scan's effect. */
  lemma DecideValue(w: World, losers: map<int, seq<int>>, k: Pair, e: Enrollment, rows: seq<LegacyRow>,
                    seen: seq<LegacyRow>, c: Cell, r: LegacyRow)
    requires Reads(w, losers, rows) && Active(w, k) && e.legacyId.Some? && r in rows && Here(w, k, r) && Grants(r)
    requires (forall x :: x in seen ==> x in rows) && TermsInv(w, k, e, seen, c)
    ensures var (d, u) := TaskStep(w, losers, k, r, c, Waiting);
      if u.Writing? then TermsInv(w, k, e, seen + [r], Landed(d, r, u))
      else u == Done && d == c && TermsInv(w, k, e, seen + [r], c)
  {
    TermsStep(w, losers, k, e, seen, c, r);
    RowMeaning(w, losers, k, c, r);
    assert Landed(Cell(c.row, ClaimAfter(c.claim, r, ActionFor(c, r, w.now))), r,
                  Writing(ActionFor(c, r, w.now), Progress(c))) == GrantStep(c, r, w.now);
  }

  lemma DecideStep(w: World, losers: map<int, seq<int>>, k: Pair, e: Enrollment, rows: seq<LegacyRow>, s: Run,
                   seen: seq<LegacyRow>, i: nat)
    requires Reads(w, losers, rows) && Active(w, k) && e.legacyId.Some? && i < |rows| && |s.tasks| == |rows|
    requires LandsOn(w, k, e, rows, s, seen) && (forall x :: x in seen ==> x in rows)
    requires OneWrite(StepOf(w, losers, k, rows, s, i))
    requires s.tasks[i] == Waiting && Here(w, k, rows[i]) && Grants(rows[i])
    ensures LandsOn(w, k, e, rows, StepOf(w, losers, k, rows, s, i), seen + [rows[i]])
  {
    var t, r := StepOf(w, losers, k, rows, s, i), rows[i];
    assert r in rows;
    if NoneWriting(s) {
      DecideValue(w, losers, k, e, rows, seen, s.cell, r);
      assert t.tasks[i].Writing? || NoneWriting(t);
    } else {
      var j :| 0 <= j < |rows| && s.tasks[j].Writing?;
      assert t.tasks[j].Writing?;
      var c := Landed(s.cell, rows[j], s.tasks[j]);
      DecideValue(w, losers, k, e, rows, seen, c, r);
      assert TaskStep(w, losers, k, r, c, Waiting).1 == t.tasks[i];
      assert t.cell == s.cell;
    }
  }

  /** Any other step writes what was to land, or leaves the cell alone. */
  lemma OtherStep(w: World, losers: map<int, seq<int>>, k: Pair, e: Enrollment, rows: seq<LegacyRow>, s: Run,
                  seen: seq<LegacyRow>, i: nat)
    requires Reads(w, losers, rows) && Active(w, k) && i < |rows| && |s.tasks| == |rows|
    requires TaskFits(w, k, rows[i], s.tasks[i]) && OneWrite(s) && NoUpdateUnderWay(s)
    requires LandsOn(w, k, e, rows, s, seen)
    requires s.tasks[i] != Waiting || !Here(w, k, rows[i]) || !Grants(rows[i])
    ensures LandsOn(w, k, e, rows, StepOf(w, losers, k, rows, s, i), seen)
  {
    var t := StepOf(w, losers, k, rows, s, i);
    if s.tasks[i].Writing? {
      assert NoneWriting(t) && t.cell == Landed(s.cell, rows[i], s.tasks[i]);
    } else {
      assert t.cell == s.cell && !t.tasks[i].Writing?;
      if !NoneWriting(s) {
        var j :| 0 <= j < |rows| && s.tasks[j].Writing?;
        assert t.tasks[j].Writing?;
      }
    }
  }

  /** Nothing is cancelled while some row is active. */
  lemma NoUpdateStep(w: World, losers: map<int, seq<int>>, k: Pair, rows: seq<LegacyRow>, s: Run, i: nat)
    requires Reads(w, losers, rows) && Active(w, k) && i < |rows| && |s.tasks| == |rows|
    requires TaskFits(w, k, rows[i], s.tasks[i]) && NoUpdateUnderWay(s)
    ensures NoUpdateUnderWay(StepOf(w, losers, k, rows, s, i))
  {
    if Here(w, k, rows[i]) { RowFacts(w, losers, k, rows, rows[i]); }
  }

  lemma OrderStep(w: World, losers: map<int, seq<int>>, k: Pair, e: Enrollment, rows: seq<LegacyRow>, s: Run,
                  seen: seq<LegacyRow>, i: nat) returns (more: seq<LegacyRow>)
    requires Reads(w, losers, rows) && Active(w, k) && e.legacyId.Some? && i < |rows|
    requires OrderHolds(w, k, e, rows, s, seen) && TasksFit(w, k, rows, s)
    requires OneWrite(s) && OneWrite(StepOf(w, losers, k, rows, s, i))
    ensures OrderHolds(w, k, e, rows, StepOf(w, losers, k, rows, s, i), more)
  {
    var t, r := StepOf(w, losers, k, rows, s, i), rows[i];
    assert TaskFits(w, k, r, s.tasks[i]);
    DecidedMore(w, losers, k, rows, s, seen, i);
    NoUpdateStep(w, losers, k, rows, s, i);
    if s.tasks[i] == Waiting && Here(w, k, r) && Grants(r) {
      more := seen + [r];
      DecideStep(w, losers, k, e, rows, s, seen, i);
    } else {
      more := seen;
      OtherStep(w, losers, k, e, rows, s, seen, i);
    }
  }

  lemma {:induction false} RunKeepsOrder(w: World, losers: map<int, seq<int>>, k: Pair, e: Enrollment,
                                         rows: seq<LegacyRow>, b: seq<Run>, n: nat) returns (seen: seq<LegacyRow>)
    requires Reads(w, losers, rows) && Active(w, k) && e.legacyId.Some?
    requires Behaviour(w, losers, k, Some(e), rows, b) && WritesApart(b) && n < |b|
    ensures TasksFit(w, k, rows, b[n]) && OrderHolds(w, k, e, rows, b[n], seen)
  {
    if n == 0 {
      seen := [];
      assert Unmoved(w, k, e, seen, b[0].cell);
    } else {
      var before := RunKeepsOrder(w, losers, k, e, rows, b, n - 1);
      assert Next(w, losers, k, rows, b[n - 1], b[n]);
      var i :| 0 <= i < |rows| && b[n] == StepOf(w, losers, k, rows, b[n - 1], i);
      assert OneWrite(b[n - 1]) && OneWrite(b[n]);
      TasksFitStep(w, losers, k, rows, b[n - 1], i);
      seen := OrderStep(w, losers, k, e, rows, b[n - 1], before, i);
    }
  }

  /**
   * However else its rows interleave, a pair whose writes do not overlap ends as after a scan: on the
   * terms of the row the reference names.
   */
  lemma InterleavedTerms(w: World, losers: map<int, seq<int>>, k: Pair, e: Enrollment, rows: seq<LegacyRow>,
                         b: seq<Run>)
    requires Reads(w, losers, rows) && ScansPair(w, k, rows) && Active(w, k) && e.legacyId != None
    requires Behaviour(w, losers, k, Some(e), rows, b) && WritesApart(b) && AllDone(b[|b| - 1])
    ensures var row := b[|b| - 1].cell.row;
      row != None && Settled(w, k, e, rows, row.value) && CarriesHolder(w, k, row.value) &&
      PurchaseWins(w, k, e, row.value) && ActiveTakesOver(w, k, e, row.value) && RunningStays(w, k, e, row.value)
  {
    var s := b[|b| - 1];
    var seen := RunKeepsOrder(w, losers, k, e, rows, b, |b| - 1);
    AllSeen(w, losers, k, e, rows, s, seen);
    SettledMeans(w, k, e, rows, s.cell.row.value);
  }

  lemma AllSeen(w: World, losers: map<int, seq<int>>, k: Pair, e: Enrollment, rows: seq<LegacyRow>, s: Run,
                seen: seq<LegacyRow>)
    requires Reads(w, losers, rows) && Active(w, k) && e.legacyId != None
    requires OrderHolds(w, k, e, rows, s, seen) && AllDone(s)
    ensures s.cell.row != None && Settled(w, k, e, rows, s.cell.row.value)
  {
    forall x
      ensures ActiveIn(w, k, seen, x) <==> ActiveIn(w, k, rows, x)
    {
      if ActiveIn(w, k, rows, x) {
        var i :| 0 <= i < |rows| && rows[i] == x;
        assert s.tasks[i] == Done;
      }
    }
    if Displaced(w, k, e, seen) {
      var x :| Moved(w, k, e, seen, s.cell, x);
      assert OnTermsOf(w, k, e, rows, x, s.cell.row.value);
    }
  }

  const TRIAL := LegacyRow(2, 7, 8, 1, Some(true), None, Some(2000), 0)
  const PURCHASE := LegacyRow(3, 7, 8, 1, Some(true), None, None, 0)

  lemma TwoPurchases() returns (w: World, k: Pair)
    ensures WellKeyed(w) && WellFormed(w.table) && w.table == [TRIAL, PURCHASE] && w.now == 1000
    ensures Here(w, k, TRIAL) && Here(w, k, PURCHASE)
  {
    w := World([TRIAL, PURCHASE], map[], map[7 := 7], map[8 := Course(8, 9)], {}, 1000);
    k := (7, 8);
  }

  /**
   * Without that the terms can be wrong: two writes that move one pair land in the other order than they
   * were decided in, and the row whose claim was replaced ends holding the pair.
   */
  lemma LateWriteKeepsTrial(losers: map<int, seq<int>>)
      returns (w: World, k: Pair, e: Enrollment, rows: seq<LegacyRow>, b: seq<Run>)
    ensures WellKeyed(w) && WellFormed(w.table) && ScansPair(w, k, rows)
    ensures Behaviour(w, losers, k, Some(e), rows, b) && AllDone(b[|b| - 1])
    ensures var row := b[|b| - 1].cell.row; row.Some? && !PurchaseWins(w, k, e, row.value)
  {
    w, k := TwoPurchases();
    rows := [TRIAL, PURCHASE];
    e := Enrollment(Some(1), false, None, Some(500), 0);
    var s0 := Run(StartCell(Some(e)), seq(|rows|, _ => Waiting));
    var s1 := StepOf(w, losers, k, rows, s0, 0);
    var s2 := StepOf(w, losers, k, rows, s1, 1);
    var s3 := StepOf(w, losers, k, rows, s2, 1);
    var s4 := StepOf(w, losers, k, rows, s3, 0);
    b := [s0, s1, s2, s3, s4];
    assert s1.tasks == [Writing(Repoint, 0), Waiting];
    assert s2.tasks == [Writing(Repoint, 0), Writing(Repoint, 0)];
    assert s4.tasks == [Done, Done];
    assert ActiveRow(w, k, PURCHASE) && s4.cell.row == Some(Enrollment(Some(2), false, None, Some(2000), 0));
  }
}
