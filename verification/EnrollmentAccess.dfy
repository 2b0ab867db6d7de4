/**
 * Whether a live pair ends on terms as good as any of its active rows offers (enrollments.ts,
 * enrollment-rules.ts). A refresh writes the row's expiry but not the claim (enrollments.ts:214-218), so
 * later rows are decided against the expiry the pair had at the start.
 */
module EnrollmentAccess {
  import opened Prelude
  import opened EnrollmentRules
  import opened Enrollments
  import opened EnrollmentTerms

  /** No active row of the pair has a better expiry. */
  ghost predicate AsGoodAsAny(w: World, k: Pair, f: Enrollment) {
    forall y :: ActiveRow(w, k, y) ==> Standing(f.expired, w.now) >= Standing(y.expired, w.now)
  }

  ghost predicate OtherRow(w: World, k: Pair, e: Enrollment, y: LegacyRow) {
    ActiveRow(w, k, y) && e.legacyId != Some(y.id)
  }

  /**
   * The pair's own active row `x` changed terms in a way the rows after it do not get to see: it was
   * prolonged beyond every other row, or cut short while another row would have been better.
   */
  ghost predicate Overlooked(w: World, k: Pair, e: Enrollment, x: LegacyRow) {
    if Standing(e.expired, w.now) == 0 then
      (exists y :: OtherRow(w, k, e, y)) &&
      forall y :: OtherRow(w, k, e, y) ==> Standing(x.expired, w.now) > Standing(y.expired, w.now)
    else
      (exists y :: OtherRow(w, k, e, y) && Standing(x.expired, w.now) < Standing(y.expired, w.now)) &&
      forall y :: OtherRow(w, k, e, y) && y.expired == None ==> e.expired == None
  }

  ghost predicate OwnRow(w: World, k: Pair, e: Enrollment, x: LegacyRow) {
    ActiveRow(w, k, x) && e.legacyId == Some(x.id)
  }

  ghost predicate Steady(w: World, k: Pair, e: Enrollment) {
    forall x :: OwnRow(w, k, e, x) ==> !Overlooked(w, k, e, x)
  }

  /** What the scan of `rows` makes of a pair held by `e`. */
  function After(w: World, losers: map<int, seq<int>>, k: Pair, e: Enrollment, rows: seq<LegacyRow>): Cell {
    CellScan(w, losers, k, StartCell(Some(e)), rows)
  }

  /** What a scan leaves is as good as any row, unless the own row's change was overlooked. */
  lemma SteadyIsGood(w: World, k: Pair, e: Enrollment, rows: seq<LegacyRow>, f: Enrollment)
    requires WellFormed(w.table) && ScansPair(w, k, rows) && e.legacyId != None && !e.isCanceled
    requires Steady(w, k, e) && Settled(w, k, e, rows, f)
    ensures AsGoodAsAny(w, k, f)
  {
    assert forall x :: ActiveRow(w, k, x) <==> ActiveIn(w, k, rows, x);
    forall y | ActiveRow(w, k, y)
      ensures Standing(f.expired, w.now) >= Standing(y.expired, w.now)
    {
      if Displaced(w, k, e, rows) {
        var x :| OnTermsOf(w, k, e, rows, x, f);
        var z :| ActiveIn(w, k, rows, z) && Displaces(w, e, z);
        assert OtherRow(w, k, e, z);
        if OwnRow(w, k, e, y) && Standing(e.expired, w.now) == 0 {
          var o :| OtherRow(w, k, e, o) && Standing(y.expired, w.now) <= Standing(o.expired, w.now);
          assert Displaces(w, e, o);
        }
      } else {
        KeptIsGood(w, k, e, rows, f, y);
      }
    }
  }

  lemma KeptIsGood(w: World, k: Pair, e: Enrollment, rows: seq<LegacyRow>, f: Enrollment, y: LegacyRow)
    requires WellFormed(w.table) && ScansPair(w, k, rows) && e.legacyId != None && !e.isCanceled
    requires Steady(w, k, e) && Kept(w, k, e, rows, f) && !Displaced(w, k, e, rows) && ActiveRow(w, k, y)
    ensures Standing(f.expired, w.now) >= Standing(y.expired, w.now)
  {
    assert forall x :: ActiveRow(w, k, x) <==> ActiveIn(w, k, rows, x);
    forall z | OtherRow(w, k, e, z)
      ensures Standing(e.expired, w.now) != 0 && (z.expired == None ==> e.expired == None)
    {
      assert !Displaces(w, e, z);
    }
    if x :| OwnRow(w, k, e, x) {
      assert ActiveIn(w, k, rows, x) && !Overlooked(w, k, e, x);
      assert f.expired == x.expired && (x.id == y.id ==> x == y);
      if x.id != y.id { assert OtherRow(w, k, e, y); }
    } else {
      forall z | ActiveIn(w, k, rows, z)
        ensures OtherRow(w, k, e, z)
      {
        assert !OwnRow(w, k, e, z);
      }
    }
  }

  /** Rows with other ids either leave the claim as it was or move it away for good. */
  lemma {:induction false} ClaimLeaves(w: World, losers: map<int, seq<int>>, k: Pair, c: Cell, rows: seq<LegacyRow>)
    requires c.claim.Some? && forall r :: r in rows ==> c.claim.value.e.legacyId != Some(r.id)
    ensures var d := CellScan(w, losers, k, c, rows);
      d.claim == c.claim || (d.claim.Some? && d.claim.value.e.legacyId != c.claim.value.e.legacyId)
  {
    if rows != [] {
      var n := |rows| - 1;
      assert rows[n] in rows && forall r :: r in rows[..n] ==> r in rows;
      ClaimLeaves(w, losers, k, c, rows[..n]);
    }
  }

  /** The own row first, and then all the others. */
  lemma {:induction false} OwnRowFirst(table: seq<LegacyRow>, x: LegacyRow) returns (rest: seq<LegacyRow>)
    ensures forall y :: y in rest <==> y in table && y.id != x.id
  {
    if table == [] {
      rest := [];
    } else {
      rest := OwnRowFirst(table[1..], x);
      if table[0].id != x.id { rest := [table[0]] + rest; }
    }
  }

  lemma {:induction false} ScanAfterFirst(w: World, losers: map<int, seq<int>>, k: Pair, c: Cell, x: LegacyRow,
                                          rest: seq<LegacyRow>)
    ensures CellScan(w, losers, k, c, [x] + rest) == CellScan(w, losers, k, CellStep(w, losers, k, c, x), rest)
  {
    var all := [x] + rest;
    if rest == [] {
      assert all[..0] == [] && all == [x];
      assert CellScan(w, losers, k, c, all[..0]) == c;
    } else {
      var n := |rest| - 1;
      assert all[..|all| - 1] == [x] + rest[..n];
      ScanAfterFirst(w, losers, k, c, x, rest[..n]);
    }
  }

  /** Once the own row has been read, the pair moves to other rows only. */
  lemma MovesToOthers(w: World, losers: map<int, seq<int>>, k: Pair, e: Enrollment, x: LegacyRow,
                      rest: seq<LegacyRow>, y: LegacyRow)
    requires WellKeyed(w) && Inverts(w.redirect, losers) && WellFormed(w.table)
    requires e.legacyId != None && !e.isCanceled && OwnRow(w, k, e, x) && Standing(x.expired, w.now) != 0
    requires Standing(e.expired, w.now) == 0 && forall r :: r in rest ==> r.id != x.id
    requires Moved(w, k, e, [x] + rest, After(w, losers, k, e, [x] + rest), y)
    ensures y.id != x.id
  {
    var c := StartCell(Some(e));
    RowMeaning(w, losers, k, c, x);
    ScanAfterFirst(w, losers, k, c, x, rest);
    var d := CellStep(w, losers, k, c, x);
    assert d.claim == c.claim;
    ClaimLeaves(w, losers, k, d, rest);
    assert y in [x] + rest;
  }

  lemma FirstCovers(w: World, k: Pair, x: LegacyRow, rest: seq<LegacyRow>)
    requires WellFormed(w.table) && ActiveRow(w, k, x)
    requires forall y :: y in rest <==> y in w.table && y.id != x.id
    ensures ScansPair(w, k, [x] + rest) && Active(w, k)
    ensures forall y :: ActiveRow(w, k, y) ==> ActiveIn(w, k, [x] + rest, y)
  {
  }

  lemma KeptIsBad(w: World, k: Pair, e: Enrollment, x: LegacyRow, rows: seq<LegacyRow>, f: Enrollment)
    requires WellFormed(w.table) && ScansPair(w, k, rows) && e.legacyId != None && !e.isCanceled
    requires OwnRow(w, k, e, x) && Overlooked(w, k, e, x)
    requires !Displaced(w, k, e, rows) && Kept(w, k, e, rows, f)
    ensures !AsGoodAsAny(w, k, f)
  {
    assert ActiveIn(w, k, rows, x);
    if Standing(e.expired, w.now) == 0 {
      var y :| OtherRow(w, k, e, y);
      assert ActiveIn(w, k, rows, y) && Displaces(w, e, y);
    } else {
      var y :| OtherRow(w, k, e, y) && Standing(x.expired, w.now) < Standing(y.expired, w.now);
      assert f.expired == x.expired;
    }
  }

  lemma MovedIsBad(w: World, losers: map<int, seq<int>>, k: Pair, e: Enrollment, x: LegacyRow, rest: seq<LegacyRow>)
    requires WellKeyed(w) && Inverts(w.redirect, losers) && WellFormed(w.table)
    requires e.legacyId != None && !e.isCanceled && OwnRow(w, k, e, x) && Overlooked(w, k, e, x)
    requires forall y :: y in rest <==> y in w.table && y.id != x.id
    requires Displaced(w, k, e, [x] + rest)
    requires TermsInv(w, k, e, [x] + rest, After(w, losers, k, e, [x] + rest))
    ensures var row := After(w, losers, k, e, [x] + rest).row; row != None && !AsGoodAsAny(w, k, row.value)
  {
    var rows := [x] + rest;
    var z :| ActiveIn(w, k, rows, z) && Displaces(w, e, z);
    assert OtherRow(w, k, e, z);
    var y :| Moved(w, k, e, rows, After(w, losers, k, e, rows), y);
    MovesToOthers(w, losers, k, e, x, rest, y);
    assert OtherRow(w, k, e, y);
  }

  /** Read first, an overlooked own row costs the pair its better terms. */
  lemma OverlookedIsBad(w: World, losers: map<int, seq<int>>, k: Pair, e: Enrollment, x: LegacyRow)
    returns (rows: seq<LegacyRow>)
    requires WellKeyed(w) && Inverts(w.redirect, losers) && WellFormed(w.table)
    requires e.legacyId != None && !e.isCanceled && OwnRow(w, k, e, x) && Overlooked(w, k, e, x)
    ensures ScansPair(w, k, rows)
    ensures var row := After(w, losers, k, e, rows).row; row != None && !AsGoodAsAny(w, k, row.value)
  {
    var rest := OwnRowFirst(w.table, x);
    rows := [x] + rest;
    FirstCovers(w, k, x, rest);
    ScanKeepsTerms(w, losers, k, Some(e), rows);
    if Displaced(w, k, e, rows) {
      MovedIsBad(w, losers, k, e, x, rest);
    } else {
      KeptIsBad(w, k, e, x, rows, After(w, losers, k, e, rows).row.value);
    }
  }

  /**
   * A live pair ends on terms as good as any active row's, in whatever order its rows are read, exactly if
   * its own row's change of terms is not overlooked.
   */
  lemma GoodInAnyOrderIff(w: World, losers: map<int, seq<int>>, k: Pair, e: Enrollment)
    requires WellKeyed(w) && Inverts(w.redirect, losers) && WellFormed(w.table)
    requires e.legacyId != None && !e.isCanceled && Active(w, k)
    ensures Steady(w, k, e) <==>
      forall rows :: ScansPair(w, k, rows) ==>
        var row := After(w, losers, k, e, rows).row; row != None && AsGoodAsAny(w, k, row.value)
  {
    if Steady(w, k, e) {
      forall rows | ScansPair(w, k, rows)
        ensures var row := After(w, losers, k, e, rows).row; row != None && AsGoodAsAny(w, k, row.value)
      {
        ScanSettles(w, losers, k, Some(e), rows);
        SteadyIsGood(w, k, e, rows, After(w, losers, k, e, rows).row.value);
      }
    } else {
      var x :| OwnRow(w, k, e, x) && Overlooked(w, k, e, x);
      var rows := OverlookedIsBad(w, losers, k, e, x);
    }
  }
}
