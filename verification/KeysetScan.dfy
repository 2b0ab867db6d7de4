/**
 * The keyset-paged loop with a checkpoint after each page (apps/resync-worker/src/syncers/commissions.ts),
 * on a table that does not change meanwhile.
 */
module KeysetScan {
  import opened Prelude
  import opened Watermark
  import SyncProtocol

  datatype Row = Row(wm: int, id: int)

  /** `(wm, id)` order, the primary key breaking ties. */
  predicate After(r: Row, cursor: Row) {
    r.wm > cursor.wm || (r.wm == cursor.wm && r.id > cursor.id)
  }

  /** `WHERE … ORDER BY … LIMIT 1`: the least row after the cursor. */
  function NextRow(table: seq<Row>, cursor: Row): (r: Option<Row>)
    ensures r.Some? ==> r.value in table && After(r.value, cursor)
    ensures r.Some? ==> forall x :: x in table && After(x, cursor) ==> x == r.value || After(x, r.value)
    ensures r.None? ==> forall x :: x in table ==> !After(x, cursor)
  {
    if table == [] then None
    else
      var rest := NextRow(table[1..], cursor);
      var x := table[0];
      if !After(x, cursor) then rest
      else if rest.None? || After(rest.value, x) then Some(x)
      else rest
  }

  /** `WHERE … ORDER BY … LIMIT limit` */
  function Page(table: seq<Row>, cursor: Row, limit: nat): (rows: seq<Row>)
    ensures |rows| <= limit
    decreases limit
  {
    if limit == 0 then []
    else
      var r := NextRow(table, cursor);
      if r.None? then [] else [r.value] + Page(table, r.value, limit - 1)
  }

  predicate Ascending(rows: seq<Row>) {
    forall i, j :: 0 <= i < j < |rows| ==> After(rows[j], rows[i])
  }

  /** The rows of `table` after the cursor, each exactly once, in order. */
  ghost predicate Enumerates(table: seq<Row>, cursor: Row, rows: seq<Row>) {
    Ascending(rows) && forall x :: x in rows <==> x in table && After(x, cursor)
  }

  lemma {:induction false} PageIsAscending(table: seq<Row>, cursor: Row, limit: nat)
    ensures var rows := Page(table, cursor, limit);
      && Ascending(rows)
      && (forall x :: x in rows ==> x in table && After(x, cursor))
      && (forall x :: x in table && After(x, cursor) && x !in rows ==>
            |rows| == limit && forall y :: y in rows ==> After(x, y))
    decreases limit
  {
    if limit > 0 && NextRow(table, cursor).Some? {
      var r := NextRow(table, cursor).value;
      var rest := Page(table, r, limit - 1);
      PageIsAscending(table, r, limit - 1);
      assert Page(table, cursor, limit) == [r] + rest;
      forall i, j | 0 <= i < j < 1 + |rest|
        ensures After(([r] + rest)[j], ([r] + rest)[i])
      {
        assert rest[j - 1] in rest;
      }
    }
  }

  lemma {:induction false} AscendingUnique(a: seq<Row>, b: seq<Row>)
    requires Ascending(a) && Ascending(b)
    requires forall x :: x in a <==> x in b
    ensures a == b
    decreases |a|
  {
    if a != [] { assert a[0] in a && a[0] in b; }
    if b != [] { assert b[0] in b && b[0] in a; }
    if a != [] {
      assert a[0] == b[0];
      forall x
        ensures x in a[1..] <==> x in b[1..]
      {
        Tail(a, x);
        Tail(b, x);
      }
      AscendingUnique(a[1..], b[1..]);
      assert a == [a[0]] + a[1..] && b == [b[0]] + b[1..];
    }
  }

  lemma Tail(a: seq<Row>, x: Row)
    requires Ascending(a) && a != []
    ensures x in a[1..] <==> x in a && x != a[0]
  {
    if x in a && x != a[0] {
      var i :| 0 <= i < |a| && a[i] == x;
      assert a[1..][i - 1] == x;
    }
  }

  /** Only one list of rows can be the exactly-once enumeration. */
  lemma EnumerationUnique(table: seq<Row>, cursor: Row, a: seq<Row>, b: seq<Row>)
    requires Enumerates(table, cursor, a) && Enumerates(table, cursor, b)
    ensures a == b
  {
    AscendingUnique(a, b);
  }

  // ---- the loop ----

  /** How a row's write ends (a skip settles too). */
  type Writer = Row -> bool

  function OutcomesOf(rows: seq<Row>, ok: Writer): (os: seq<Outcome>)
    ensures |os| == |rows|
  {
    seq(|rows|, i requires 0 <= i < |rows| =>
      if ok(rows[i]) then Settled(Some(rows[i].wm)) else Broken(Some(rows[i].wm)))
  }

  /** What the run may checkpoint after the rows in `visited`. */
  ghost function CheckpointAfter(visited: seq<Row>, ok: Writer, runStart: int): Option<int> {
    Result(FoldAll(EMPTY, OutcomesOf(visited, ok)), runStart)
  }

  /** Not past the run's start, a second below every row whose write failed, not past everything visited. */
  ghost predicate MayStore(visited: seq<Row>, ok: Writer, runStart: int, v: int) {
    v <= runStart && (forall x :: x in visited && !ok(x) ==> v <= x.wm - 1000) &&
    exists x :: x in visited && v <= x.wm
  }

  /** The checkpoint after the rows visited so far is the greatest value that may be stored. */
  lemma CheckpointMeaning(visited: seq<Row>, ok: Writer, runStart: int)
    ensures var cp := CheckpointAfter(visited, ok, runStart);
      && (cp == None <==> visited == [])
      && (cp != None ==> MayStore(visited, ok, runStart, cp.value)
                         && forall v :: MayStore(visited, ok, runStart, v) ==> v <= cp.value)
  {
    var os := OutcomesOf(visited, ok);
    forall x | x in visited
      ensures (if ok(x) then Settled(Some(x.wm)) else Broken(Some(x.wm))) in os
    {
      var i :| 0 <= i < |visited| && visited[i] == x;
      assert os[i] == if ok(x) then Settled(Some(x.wm)) else Broken(Some(x.wm));
    }
    ResultIsGreatestAllowed(os, runStart);
    forall v
      ensures MayCheckpoint(os, runStart, v) <==> MayStore(visited, ok, runStart, v)
    {
    }
    if visited != [] { assert os[0] in os; }
  }

  ghost predicate Folded(tracker: WatermarkTracker, visited: seq<Row>, ok: Writer)
    reads tracker
  {
    tracker.State() == FoldAll(EMPTY, OutcomesOf(visited, ok))
  }

  /** The rows of one page settle, in any order (see `ResultIgnoresOrder`), then the checkpoint. */
  method SettlePage(rows: seq<Row>, ok: Writer, tracker: WatermarkTracker, state: SyncState, runStart: int,
      ghost before: seq<Row>)
    requires Folded(tracker, before, ok) && state.Valid()
    modifies tracker, state`stored
    ensures Folded(tracker, before + rows, ok)
    ensures state.stored == if state.dryRun then old(state.stored)
      else Written(old(state.stored), Gate(state.floors, CheckpointAfter(before + rows, ok, runStart)))
  {
    assert before + rows[..0] == before;
    for i := 0 to |rows|
      invariant Folded(tracker, before + rows[..i], ok)
      invariant state.stored == old(state.stored)
    {
      ghost var done, next := before + rows[..i], before + rows[..i + 1];
      assert OutcomesOf(next, ok)[..|next| - 1] == OutcomesOf(done, ok);
      if ok(rows[i]) {
        tracker.Seen(Some(rows[i].wm));
      } else {
        tracker.Failed(Some(rows[i].wm));
      }
    }
    assert rows[..|rows|] == rows;
    var cp := tracker.Checkpointable(runStart);
    var lost := state.Checkpoint(cp, true);
  }

  /** The loop's state: everything up to the cursor has been visited, in order, and nothing twice. */
  ghost predicate Reached(table: seq<Row>, since: int, visited: seq<Row>, cursor: Row) {
    cursor == (if visited == [] then Row(since, 0) else visited[|visited| - 1]) &&
    Ascending(visited) &&
    (forall x :: x in visited ==> x in table && After(x, Row(since, 0))) &&
    forall x :: x in table && After(x, Row(since, 0)) ==> x in visited || After(x, cursor)
  }

  lemma PageStep(table: seq<Row>, since: int, visited: seq<Row>, cursor: Row, limit: nat)
    requires limit > 0 && Reached(table, since, visited, cursor)
    ensures var rows := Page(table, cursor, limit);
      && (rows != [] ==> Reached(table, since, visited + rows, rows[|rows| - 1]))
      && (rows != [] ==> rows[0] in table && rows[0] !in visited)
      && (|rows| < limit ==> Enumerates(table, Row(since, 0), visited + rows))
  {
    var rows := Page(table, cursor, limit);
    PageIsAscending(table, cursor, limit);
    AppendPage(visited, cursor, rows, since);
    if visited != [] { assert cursor in visited; }
    if rows != [] { assert rows[0] in rows && rows[|rows| - 1] in rows; }
    forall x | x in table && After(x, Row(since, 0))
      ensures x in visited + rows || (|rows| == limit && After(x, rows[|rows| - 1]))
    {
      if x !in visited && x !in rows { assert After(x, rows[|rows| - 1]); }
    }
  }

  ghost function Unseen(table: seq<Row>, visited: seq<Row>): set<Row> {
    set x | x in table && x !in visited
  }

  lemma UnseenShrinks(table: seq<Row>, visited: seq<Row>, rows: seq<Row>)
    requires rows != [] && rows[0] in table && rows[0] !in visited
    ensures Unseen(table, visited + rows) < Unseen(table, visited)
  {
    assert rows[0] in Unseen(table, visited) && rows[0] !in Unseen(table, visited + rows);
  }

  function Flat(pages: seq<seq<Row>>): seq<Row> {
    if pages == [] then [] else Flat(pages[..|pages| - 1]) + pages[|pages| - 1]
  }

  /** The values carried by the checkpoints: after each page, what may be stored after all rows so far. */
  ghost function Carried(pages: seq<seq<Row>>, ok: Writer, runStart: int): seq<Option<int>> {
    if pages == [] then []
    else Carried(pages[..|pages| - 1], ok, runStart) + [CheckpointAfter(Flat(pages), ok, runStart)]
  }

  /** Pages of `limit` rows, but for the last, which may be shorter. */
  ghost predicate Pages(pages: seq<seq<Row>>, limit: nat) {
    forall j :: 0 <= j < |pages| ==> 0 < |pages[j]| <= limit && (j < |pages| - 1 ==> |pages[j]| == limit)
  }

  ghost predicate FullPages(pages: seq<seq<Row>>, limit: nat) {
    forall j :: 0 <= j < |pages| ==> |pages[j]| == limit
  }

  lemma PageAdded(pages: seq<seq<Row>>, rows: seq<Row>, limit: nat)
    requires FullPages(pages, limit) && limit > 0
    ensures Pages(pages, limit)
    ensures 0 < |rows| <= limit ==> Pages(pages + [rows], limit)
    ensures |rows| == limit ==> FullPages(pages + [rows], limit)
  {
  }

  lemma PageTaken(pages: seq<seq<Row>>, rows: seq<Row>, ok: Writer, runStart: int)
    ensures Flat(pages + [rows]) == Flat(pages) + rows
    ensures Carried(pages + [rows], ok, runStart)
         == Carried(pages, ok, runStart) + [CheckpointAfter(Flat(pages) + rows, ok, runStart)]
  {
    assert (pages + [rows])[..|pages|] == pages;
  }

  /** The value-level state of the loop between two full pages. */
  ghost predicate Scanned(table: seq<Row>, since: int, limit: nat, ok: Writer, runStart: int, visited: seq<Row>,
                          cursor: Row, pages: seq<seq<Row>>, carried: seq<Option<int>>) {
    Reached(table, since, visited, cursor) && FullPages(pages, limit) &&
    visited == Flat(pages) && carried == Carried(pages, ok, runStart)
  }

  lemma ScannedStep(table: seq<Row>, since: int, limit: nat, ok: Writer, runStart: int, visited: seq<Row>,
                    cursor: Row, pages: seq<seq<Row>>, carried: seq<Option<int>>)
    requires limit > 0 && Scanned(table, since, limit, ok, runStart, visited, cursor, pages, carried)
    ensures var rows := Page(table, cursor, limit);
      var all, more := visited + rows, pages + [rows];
      var carry := carried + [CheckpointAfter(all, ok, runStart)];
      && (|rows| < limit ==> Enumerates(table, Row(since, 0), all))
      && (rows == [] ==> all == visited && Pages(pages, limit))
      && (rows != [] ==> Pages(more, limit) && Unseen(table, all) < Unseen(table, visited)
                         && all == Flat(more) && carry == Carried(more, ok, runStart))
      && (|rows| == limit ==>
            Scanned(table, since, limit, ok, runStart, all, rows[|rows| - 1], more, carry))
  {
    var rows := Page(table, cursor, limit);
    PageStep(table, since, visited, cursor, limit);
    PageAdded(pages, rows, limit);
    PageTaken(pages, rows, ok, runStart);
    if rows != [] { UnseenShrinks(table, visited, rows); }
  }

  /** What checkpoints leave stored; a dry run stores nothing. */
  function StoredBy(dryRun: bool, floors: Floors, stored: Option<int>, carried: seq<Option<int>>): Option<int> {
    if dryRun then stored else WrittenAll(floors, stored, carried)
  }

  /** A run that is not dry stores the last of its checkpoints that is not held back. */
  lemma StoredMeaning(dryRun: bool, override: Override, base: Option<int>, stored: Option<int>,
                      carried: seq<Option<int>>)
    ensures var s := StoredBy(dryRun, FloorsOf(override, base), stored, carried);
      if dryRun then s == stored else LastLetThrough(override, base, stored, carried, s)
  {
    LastCheckpointStays(override, base, stored, carried);
  }

  lemma StoredStep(dryRun: bool, floors: Floors, stored: Option<int>, carried: seq<Option<int>>, cp: Option<int>)
    ensures StoredBy(dryRun, floors, stored, carried + [cp])
         == (if dryRun then stored else Written(StoredBy(dryRun, floors, stored, carried), Gate(floors, cp)))
  {
    WrittenOneMore(floors, stored, carried, cp);
  }

  /**
   * Visits every row at or above the bound exactly once in (watermark, id) order, page by page, and
   * checkpoints after every page. A dry run visits the same rows and stores nothing.
   */
  method RunSyncer(table: seq<Row>, since: int, limit: nat, runStart: int, ok: Writer, state: SyncState)
    returns (visited: seq<Row>, ghost pages: seq<seq<Row>>)
    requires limit > 0 && state.Valid()
    modifies state`stored
    ensures Enumerates(table, Row(since, 0), visited)
    ensures visited == Flat(pages) && Pages(pages, limit)
    ensures state.stored
         == StoredBy(state.dryRun, state.floors, old(state.stored), Carried(pages, ok, runStart))
  {
    var tracker := new WatermarkTracker();
    var cursor := Row(since, 0);
    visited, pages := [], [];
    ghost var carried, was := [], state.stored;
    assert OutcomesOf(visited, ok) == [];
    while true
      invariant fresh(tracker) && Folded(tracker, visited, ok)
      invariant Scanned(table, since, limit, ok, runStart, visited, cursor, pages, carried)
      invariant state.stored == StoredBy(state.dryRun, state.floors, was, carried)
      decreases Unseen(table, visited)
    {
      var rows := Page(table, cursor, limit);
      ScannedStep(table, since, limit, ok, runStart, visited, cursor, pages, carried);
      if |rows| == 0 { break; }
      SettlePage(rows, ok, tracker, state, runStart, visited);
      visited := visited + rows;
      cursor := rows[|rows| - 1];
      StoredStep(state.dryRun, state.floors, was, carried, CheckpointAfter(visited, ok, runStart));
      carried := carried + [CheckpointAfter(visited, ok, runStart)];
      pages := pages + [rows];
      if |rows| < limit { break; }
    }
  }

  lemma AppendPage(visited: seq<Row>, cursor: Row, rows: seq<Row>, since: int)
    requires Ascending(visited) && Ascending(rows)
    requires cursor == if visited == [] then Row(since, 0) else visited[|visited| - 1]
    requires forall x :: x in rows ==> After(x, cursor)
    ensures Ascending(visited + rows)
    ensures forall x :: x in rows ==> x !in visited
  {
    forall i, j | 0 <= i < j < |visited + rows|
      ensures After((visited + rows)[j], (visited + rows)[i])
    {
      if i < |visited| <= j { assert rows[j - |visited|] in rows; }
    }
  }

  // ---- what a run achieves ----

  /** The table as the protocol sees it: a commission has one watermark and its id as key. */
  ghost predicate Mirrors(table: seq<Row>, s: SyncProtocol.State) {
    forall id :: id in s.rows ==> s.rows[id].wm == s.rows[id].top && Row(s.rows[id].top, id) in table && id > 0
  }

  /**
   * Nothing lost, and nothing delayed either: a run from the stored watermark, on a table at rest,
   * visits every version that is not settled, also one that ties with the watermark. With `lag` 0 this
   * holds for a legacy side without delay, wherever the previous run stopped.
   */
  lemma ScanReachesEveryUnsettled(s: SyncProtocol.State, c: SyncProtocol.Setup, table: seq<Row>, visited: seq<Row>,
                                  id: int)
    requires c.kind.Paged? && SyncProtocol.NothingLost(s, c) && Mirrors(table, s)
    requires Enumerates(table, Row(SinceBound(s.stored, c.lag), 0), visited)
    requires id in s.rows && !SyncProtocol.SettledAt(s, id)
    ensures Row(s.rows[id].top, id) in visited
  {
  }

  ghost predicate AtRow(page: map<int, SyncProtocol.Version>, rows: seq<Row>) {
    (forall r :: r in rows ==> r.id in page && page[r.id].top == r.wm) &&
    forall id :: id in page ==> Row(page[id].top, id) in rows
  }

  /** Each page of the loop is a legal fetch of the protocol. */
  lemma PageIsLegalFetch(table: seq<Row>, rows: map<int, SyncProtocol.Version>, cursor: Row, limit: nat,
                         page: map<int, SyncProtocol.Version>)
    requires AtRow(rows, table)
    requires forall id :: id in page <==> id in rows && Row(rows[id].top, id) in Page(table, cursor, limit)
    requires forall id :: id in page ==> page[id] == rows[id]
    requires Page(table, cursor, limit) != []
    ensures var p := Page(table, cursor, limit);
      SyncProtocol.IsPage(rows, SyncProtocol.Key(cursor.wm, cursor.id), page, p[|p| - 1].id)
  {
    PageIsAscending(table, cursor, limit);
    var p := Page(table, cursor, limit);
    var last := p[|p| - 1];
    assert last in p && last in table;
    assert rows[last.id].top == last.wm;
    forall id | id in page && id != last.id
      ensures SyncProtocol.Beyond(SyncProtocol.Key(page[id].top, id), last.id, page[last.id])
    {
      var i :| 0 <= i < |p| && p[i] == Row(page[id].top, id);
      assert After(last, p[i]);
    }
    forall id | id in rows && SyncProtocol.Beyond(SyncProtocol.Key(cursor.wm, cursor.id), id, rows[id]) && id !in page
      ensures SyncProtocol.Beyond(SyncProtocol.Key(last.wm, last.id), id, rows[id])
    {
      var x := Row(rows[id].top, id);
      assert x in table && After(x, cursor) && x !in p;
      assert After(x, last);
    }
  }
}
