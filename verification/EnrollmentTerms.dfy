/**
 * Which legacy row holds a pair after a scan of its rows, and until when (enrollments.ts,
 * enrollment-rules.ts). The reference speaks of the set of active rows and of what held the pair at
 * the start; the order of the rows decides only where it leaves a choice.
 */
module EnrollmentTerms {
  import opened Prelude
  import opened EnrollmentRules
  import opened Enrollments

  // ---- the reference ----

  ghost predicate ActiveIn(w: World, k: Pair, rows: seq<LegacyRow>, x: LegacyRow) {
    x in rows && PairOf(w, x) == Some(k) && Entitles(x)
  }

  /** 0 is over, 1 runs to a date, 2 has no end. */
  function Standing(expired: Option<int>, now: int): int {
    match expired
    case None => 2
    case Some(at) => if at < now then 0 else 1
  }

  /** An active row that what held the pair at the start has to give way to. */
  predicate Displaces(w: World, e: Enrollment, y: LegacyRow) {
    if CanceledElsewhere(e) then e.legacyId != Some(y.id) && Bought(y)
    else if e.isCanceled then true
    else
      e.legacyId != Some(y.id) &&
      (Standing(e.expired, w.now) == 0 || (Standing(e.expired, w.now) == 1 && y.expired == None))
  }

  ghost predicate Displaced(w: World, k: Pair, e: Enrollment, rows: seq<LegacyRow>) {
    exists y :: ActiveIn(w, k, rows, y) && Displaces(w, e, y)
  }

  /** No row the start gives way to has better terms than `x`. */
  ghost predicate BestTerms(w: World, k: Pair, e: Enrollment, rows: seq<LegacyRow>, x: LegacyRow) {
    forall y :: ActiveIn(w, k, rows, y) && Displaces(w, e, y) ==>
      Standing(x.expired, w.now) >= Standing(y.expired, w.now)
  }

  /** Progress is never lost to the row that takes over, unless the pair's own row says so. */
  predicate ProgressOf(e: Enrollment, x: LegacyRow, once: bool, progress: int) {
    (progress == x.progress || progress == Max(e.progress, x.progress)) &&
    (once && e.legacyId != Some(x.id) ==> progress == Max(e.progress, x.progress))
  }

  /** The pair is on the terms of the active row `x`. */
  ghost predicate OnTermsOf(w: World, k: Pair, e: Enrollment, rows: seq<LegacyRow>, x: LegacyRow, f: Enrollment) {
    ActiveIn(w, k, rows, x) && BestTerms(w, k, e, rows, x) &&
    f.legacyId == Some(x.id) && !f.isCanceled && f.reason == None && f.expired == x.expired &&
    ProgressOf(e, x, Distinct(rows), f.progress) &&
    ((forall y :: ActiveIn(w, k, rows, y) ==> e.legacyId == Some(y.id)) ==> f.progress == x.progress)
  }

  /** The pair is as it was, up to the expiry and progress of its own row if that is active. */
  ghost predicate Kept(w: World, k: Pair, e: Enrollment, rows: seq<LegacyRow>, f: Enrollment) {
    (forall x :: ActiveIn(w, k, rows, x) && e.legacyId == Some(x.id) ==>
       f == e.(expired := x.expired, progress := x.progress)) &&
    ((forall x :: ActiveIn(w, k, rows, x) ==> e.legacyId != Some(x.id)) ==> f == e)
  }

  ghost predicate CancelOf(w: World, k: Pair, e: Enrollment, rows: seq<LegacyRow>, x: LegacyRow, f: Enrollment) {
    x in rows && PairOf(w, x) == Some(k) && e.legacyId == Some(x.id) &&
    f.reason == Some(if x.status == 0 then LegacyRemoved else PaymentRevoked)
  }

  /** Without any active row nothing moves; a cancel says what became of the pair's own row. */
  ghost predicate Idle(w: World, k: Pair, e: Enrollment, rows: seq<LegacyRow>, f: Enrollment) {
    (f.isCanceled == e.isCanceled ==> f == e) &&
    (f.isCanceled != e.isCanceled ==>
       f == e.(isCanceled := true, reason := f.reason) &&
       exists x :: CancelOf(w, k, e, rows, x, f))
  }

  /** What a scan of `rows` leaves of a pair that a legacy row held. */
  ghost predicate Settled(w: World, k: Pair, e: Enrollment, rows: seq<LegacyRow>, f: Enrollment) {
    if !Active(w, k) then Idle(w, k, e, rows, f)
    else if Displaced(w, k, e, rows) then exists x :: OnTermsOf(w, k, e, rows, x, f)
    else Kept(w, k, e, rows, f)
  }

  function Fresh(x: LegacyRow): Enrollment { Enrollment(Some(x.id), false, None, x.expired, x.progress) }

  ghost predicate FirstActive(w: World, k: Pair, rows: seq<LegacyRow>, i: nat) {
    i < |rows| && ActiveIn(w, k, rows, rows[i]) && forall j :: 0 <= j < i ==> !ActiveIn(w, k, rows, rows[j])
  }

  /** A pair nothing held is created by the first active row. */
  ghost predicate Opened(w: World, k: Pair, rows: seq<LegacyRow>, row: Option<Enrollment>) {
    (row == None ==> forall x :: !ActiveIn(w, k, rows, x)) &&
    (row != None ==> exists i: nat :: FirstActive(w, k, rows, i) && row == Some(Fresh(rows[i])))
  }

  // ---- one row ----

  lemma OneMore(w: World, k: Pair, rows: seq<LegacyRow>, r: LegacyRow)
    ensures forall x :: ActiveIn(w, k, rows + [r], x) <==>
      ActiveIn(w, k, rows, x) || (x == r && PairOf(w, r) == Some(k) && Entitles(r))
    ensures Distinct(rows + [r]) <==> Distinct(rows) && r !in rows
  {
    var more := rows + [r];
    AppendPrefix(rows, r);
    if Distinct(more) {
      forall i | 0 <= i < |rows|
        ensures rows[i] != r
      {
        assert more[i] != more[|rows|];
      }
      forall i, j | 0 <= i < j < |rows|
        ensures rows[i] != rows[j]
      {
        assert more[i] != more[j];
      }
    }
  }

  // ---- a pair held by a legacy row, some row being active ----

  /** The claim of a pair that moved to `x`. */
  ghost predicate ClaimOn(e: Enrollment, x: LegacyRow, claim: Enrollment) {
    claim == Enrollment(Some(x.id), false, None, x.expired, e.progress)
  }

  ghost predicate Moved(w: World, k: Pair, e: Enrollment, rows: seq<LegacyRow>, c: Cell, x: LegacyRow) {
    c.row.Some? && c.claim.Some? && !c.claim.value.inRun &&
    OnTermsOf(w, k, e, rows, x, c.row.value) && ClaimOn(e, x, c.claim.value.e)
  }

  ghost predicate Unmoved(w: World, k: Pair, e: Enrollment, rows: seq<LegacyRow>, c: Cell) {
    c.row.Some? && c.claim == Some(Claim(false, e)) && Kept(w, k, e, rows, c.row.value)
  }

  ghost predicate TermsInv(w: World, k: Pair, e: Enrollment, rows: seq<LegacyRow>, c: Cell) {
    if Displaced(w, k, e, rows) then exists x :: Moved(w, k, e, rows, c, x) else Unmoved(w, k, e, rows, c)
  }

  lemma UnmovedStep(w: World, k: Pair, e: Enrollment, rows: seq<LegacyRow>, c: Cell, r: LegacyRow)
    requires WellFormed(w.table) && (forall x :: x in rows + [r] ==> x in w.table)
    requires PairOf(w, r) == Some(k) && Entitles(r) && Grants(r) && e.legacyId.Some?
    requires !Displaced(w, k, e, rows) && Unmoved(w, k, e, rows, c)
    ensures var d := GrantStep(c, r, w.now);
      if Displaces(w, e, r) then Moved(w, k, e, rows + [r], d, r) else Unmoved(w, k, e, rows + [r], d)
  {
    OneMore(w, k, rows, r);
    assert ActiveIn(w, k, rows + [r], r);
    assert r in w.table;
  }

  lemma MovedStep(w: World, k: Pair, e: Enrollment, rows: seq<LegacyRow>, c: Cell, r: LegacyRow, x: LegacyRow)
    requires WellFormed(w.table) && (forall x :: x in rows + [r] ==> x in w.table)
    requires PairOf(w, r) == Some(k) && Entitles(r) && Grants(r) && e.legacyId.Some?
    requires Moved(w, k, e, rows, c, x)
    ensures var d := GrantStep(c, r, w.now); exists y :: Moved(w, k, e, rows + [r], d, y)
  {
    OneMore(w, k, rows, r);
    var d := GrantStep(c, r, w.now);
    assert r in w.table && x in w.table;
    if x.id != r.id && (Standing(x.expired, w.now) == 0 || (Standing(x.expired, w.now) == 1 && r.expired == None)) {
      assert Moved(w, k, e, rows + [r], d, r);
    } else {
      assert Moved(w, k, e, rows + [r], d, x);
    }
  }

  lemma TermsStep(w: World, losers: map<int, seq<int>>, k: Pair, e: Enrollment, rows: seq<LegacyRow>, c: Cell,
      r: LegacyRow)
    requires WellKeyed(w) && Inverts(w.redirect, losers) && WellFormed(w.table) && Active(w, k)
    requires (forall x :: x in rows + [r] ==> x in w.table) && e.legacyId.Some?
    requires TermsInv(w, k, e, rows, c)
    ensures TermsInv(w, k, e, rows + [r], CellStep(w, losers, k, c, r))
  {
    OneMore(w, k, rows, r);
    var d := CellStep(w, losers, k, c, r);
    assert r in rows + [r];
    if PairOf(w, r) == Some(k) { RowMeaning(w, losers, k, c, r); }
    if Displaced(w, k, e, rows) {
      var x :| Moved(w, k, e, rows, c, x);
      if PairOf(w, r) == Some(k) && Grants(r) {
        MovedStep(w, k, e, rows, c, r, x);
      } else {
        assert Moved(w, k, e, rows + [r], d, x);
      }
    } else if PairOf(w, r) == Some(k) && Grants(r) {
      UnmovedStep(w, k, e, rows, c, r);
    }
  }

  // ---- a pair no legacy row is active for, and a pair nothing held ----

  ghost predicate IdleInv(w: World, k: Pair, e: Enrollment, rows: seq<LegacyRow>, c: Cell) {
    c.row.Some? && c.claim == Some(Claim(false, c.row.value)) && Idle(w, k, e, rows, c.row.value)
  }

  lemma IdleStep(w: World, losers: map<int, seq<int>>, k: Pair, e: Enrollment, rows: seq<LegacyRow>, c: Cell,
      r: LegacyRow)
    requires WellKeyed(w) && Inverts(w.redirect, losers) && WellFormed(w.table) && !Active(w, k)
    requires r in w.table && IdleInv(w, k, e, rows, c)
    ensures IdleInv(w, k, e, rows + [r], CellStep(w, losers, k, c, r))
  {
    var d := CellStep(w, losers, k, c, r);
    assert forall x :: CancelOf(w, k, e, rows, x, c.row.value) ==> CancelOf(w, k, e, rows + [r], x, c.row.value);
    if PairOf(w, r) == Some(k) {
      RowMeaning(w, losers, k, c, r);
      if d != c {
        assert CancelOf(w, k, e, rows + [r], r, d.row.value);
      }
    }
  }

  ghost predicate OpenedInv(w: World, k: Pair, rows: seq<LegacyRow>, c: Cell) {
    Opened(w, k, rows, c.row) && if c.row == None then c.claim.None? else c.claim.Some? && c.claim.value.inRun
  }

  lemma OpenedStep(w: World, losers: map<int, seq<int>>, k: Pair, rows: seq<LegacyRow>, c: Cell, r: LegacyRow)
    requires WellKeyed(w) && Inverts(w.redirect, losers) && WellFormed(w.table)
    requires r in w.table && OpenedInv(w, k, rows, c)
    ensures OpenedInv(w, k, rows + [r], CellStep(w, losers, k, c, r))
  {
    OneMore(w, k, rows, r);
    AppendPrefix(rows, r);
    var more, d := rows + [r], CellStep(w, losers, k, c, r);
    if PairOf(w, r) == Some(k) { RowMeaning(w, losers, k, c, r); }
    if c.row.Some? {
      var i: nat :| FirstActive(w, k, rows, i) && c.row == Some(Fresh(rows[i]));
      assert FirstActive(w, k, more, i);
    } else if d.row.Some? {
      forall j | 0 <= j < |rows|
        ensures !ActiveIn(w, k, more, more[j])
      {
        assert more[j] == rows[j] && !ActiveIn(w, k, rows, rows[j]) && rows[j] in rows;
      }
      assert FirstActive(w, k, more, |rows|);
    }
  }

  // ---- the scan ----

  ghost predicate ScanInv(w: World, k: Pair, start: Option<Enrollment>, rows: seq<LegacyRow>, c: Cell) {
    if start.None? then OpenedInv(w, k, rows, c)
    else if start.value.legacyId.None? then true
    else if Active(w, k) then TermsInv(w, k, start.value, rows, c)
    else IdleInv(w, k, start.value, rows, c)
  }

  lemma {:induction false} ScanKeepsTerms(w: World, losers: map<int, seq<int>>, k: Pair, start: Option<Enrollment>,
      rows: seq<LegacyRow>)
    requires WellKeyed(w) && Inverts(w.redirect, losers) && WellFormed(w.table)
    requires forall x :: x in rows ==> x in w.table
    ensures ScanInv(w, k, start, rows, CellScan(w, losers, k, StartCell(start), rows))
  {
    if rows != [] {
      var n := |rows| - 1;
      var before, r := rows[..n], rows[n];
      ScanKeepsTerms(w, losers, k, start, before);
      var c := CellScan(w, losers, k, StartCell(start), before);
      assert before + [r] == rows;
      if start.None? {
        OpenedStep(w, losers, k, before, c, r);
      } else if start.value.legacyId.Some? {
        if Active(w, k) {
          TermsStep(w, losers, k, start.value, before, c, r);
        } else {
          IdleStep(w, losers, k, start.value, before, c, r);
        }
      }
    }
  }

  /** Whatever the order of the rows, a pair that a legacy row held ends on the terms the reference says. */
  lemma ScanSettles(w: World, losers: map<int, seq<int>>, k: Pair, start: Option<Enrollment>, rows: seq<LegacyRow>)
    requires WellKeyed(w) && Inverts(w.redirect, losers) && WellFormed(w.table)
    requires ScansPair(w, k, rows)
    ensures var row := CellScan(w, losers, k, StartCell(start), rows).row;
      && (start == None ==> Opened(w, k, rows, row))
      && (start != None && start.value.legacyId != None ==>
            row != None && Settled(w, k, start.value, rows, row.value))
  {
    ScanKeepsTerms(w, losers, k, start, rows);
  }

  // ---- what it means for the holder and the expiry ----

  ghost predicate ActiveRow(w: World, k: Pair, x: LegacyRow) {
    x in w.table && PairOf(w, x) == Some(k) && Entitles(x)
  }

  /** Held by a live legacy row until a date. */
  predicate Trial(e: Enrollment) { e.legacyId != None && !e.isCanceled && e.expired != None }

  /** The legacy row a pair names, if active, is the one whose expiry the pair carries. */
  ghost predicate CarriesHolder(w: World, k: Pair, f: Enrollment) {
    forall x :: ActiveRow(w, k, x) && f.legacyId == Some(x.id) ==> f.expired == x.expired
  }

  /** A trial becomes the purchase: an active row under another id without expiry ends the pair's expiry. */
  ghost predicate PurchaseWins(w: World, k: Pair, e: Enrollment, f: Enrollment) {
    forall y :: Trial(e) && ActiveRow(w, k, y) && e.legacyId != Some(y.id) && y.expired == None ==> f.expired == None
  }

  /** A trial that is over gives way to an active row. */
  ghost predicate ActiveTakesOver(w: World, k: Pair, e: Enrollment, f: Enrollment) {
    Trial(e) && e.expired.value < w.now && Active(w, k) ==>
      exists x :: ActiveRow(w, k, x) && f.legacyId == Some(x.id) && !f.isCanceled
  }

  /** A live holding that is not over moves to nothing but a row without expiry. */
  ghost predicate RunningStays(w: World, k: Pair, e: Enrollment, f: Enrollment) {
    e.legacyId != None && !e.isCanceled && (e.expired == None || e.expired.value >= w.now) ==>
      f.legacyId == e.legacyId || (e.expired != None && f.expired == None)
  }

  lemma SettledMeans(w: World, k: Pair, e: Enrollment, rows: seq<LegacyRow>, f: Enrollment)
    requires WellFormed(w.table) && ScansPair(w, k, rows) && e.legacyId != None && Settled(w, k, e, rows, f)
    ensures CarriesHolder(w, k, f) && PurchaseWins(w, k, e, f)
    ensures ActiveTakesOver(w, k, e, f) && RunningStays(w, k, e, f)
  {
    assert forall x :: ActiveRow(w, k, x) <==> ActiveIn(w, k, rows, x);
    if Active(w, k) && !Displaced(w, k, e, rows) {
      forall y | ActiveRow(w, k, y)
        ensures !Displaces(w, e, y)
      {
        assert ActiveIn(w, k, rows, y);
      }
      var y :| y in w.table && PairOf(w, y) == Some(k) && Entitles(y);
      assert ActiveRow(w, k, y);
    }
  }

  /** What a scan of all rows of a pair leaves of what held it before. */
  ghost predicate Entitled(w: World, k: Pair, e: Enrollment, rows: seq<LegacyRow>, f: Enrollment) {
    (f.isCanceled <==> FinalCanceled(w, k, e)) && (e.legacyId == None ==> f == e) &&
    (e.legacyId != None ==>
       && Settled(w, k, e, rows, f) && CarriesHolder(w, k, f) && PurchaseWins(w, k, e, f)
       && ActiveTakesOver(w, k, e, f) && RunningStays(w, k, e, f))
  }

  /** The syncer's run on the whole table of pairs. */
  method SyncAll(w: World, order: seq<int>, syncer: EnrollmentsSyncer, ghost before: map<Pair, Enrollment>,
      rows: seq<LegacyRow>)
    requires WellKeyed(w) && WellFormed(w.table) && (forall x :: x in order <==> x in w.redirect)
    requires forall k :: CellAt(syncer.db, syncer.byPair, k) == StartCell(if k in before then Some(before[k]) else None)
    modifies syncer
    ensures forall k :: k in before && ScansPair(w, k, rows) ==>
      k in syncer.db && Entitled(w, k, before[k], rows, syncer.db[k])
    ensures forall k :: k !in before && ScansPair(w, k, rows) ==>
      (k in syncer.db <==> Active(w, k)) && (k in syncer.db ==> Opened(w, k, rows, Some(syncer.db[k])))
  {
    var losers := InvertRedirect(w.redirect, order);
    syncer.Scan(w, losers, rows);
    forall k | ScansPair(w, k, rows)
      ensures k in before ==> k in syncer.db && Entitled(w, k, before[k], rows, syncer.db[k])
      ensures k !in before ==> (k in syncer.db <==> Active(w, k))
      ensures k !in before && k in syncer.db ==> Opened(w, k, rows, Some(syncer.db[k]))
    {
      var start := if k in before then Some(before[k]) else None;
      assert CellAt(syncer.db, syncer.byPair, k).row.Some? <==> k in syncer.db;
      ScanEntitles(w, losers, k, start, rows);
      ScanSettles(w, losers, k, start, rows);
      if k in before && before[k].legacyId.Some? { SettledMeans(w, k, before[k], rows, syncer.db[k]); }
    }
  }
}
