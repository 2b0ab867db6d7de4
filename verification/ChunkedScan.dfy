/**
 * The scan by chunks of member ids with one checkpoint after the last chunk (syncers/members.ts,
 * syncers/tree.ts), on a table that does not change meanwhile: id to watermark.
 */
module ChunkedScan {
  import opened Prelude
  import opened Watermark
  import SyncProtocol

  /** What the database returns for a list of ids: those above the bound, in any order. */
  type Query = seq<int> -> seq<int>

  ghost predicate Selected(table: map<int, int>, since: int, chunk: seq<int>, x: int) {
    x in chunk && x in table && table[x] > since
  }

  ghost predicate Answers(table: map<int, int>, since: int, chunk: seq<int>, rows: seq<int>) {
    Distinct(rows) && forall x :: x in rows <==> Selected(table, since, chunk, x)
  }

  ghost predicate GoodQuery(table: map<int, int>, since: int, query: Query) {
    forall chunk :: Answers(table, since, chunk, query(chunk))
  }

  function OutcomeOf(table: map<int, int>, x: int, ok: int -> bool): Outcome
    requires x in table
  {
    if ok(x) then Settled(Some(table[x])) else Broken(Some(table[x]))
  }

  function OutcomesOf(table: map<int, int>, rows: seq<int>, ok: int -> bool): seq<Outcome>
    requires forall x :: x in rows ==> x in table
  {
    if rows == [] then []
    else
      var n := |rows| - 1;
      assert forall x :: x in rows[..n] ==> x in rows;
      OutcomesOf(table, rows[..n], ok) + [OutcomeOf(table, rows[n], ok)]
  }

  ghost predicate Folded(table: map<int, int>, tracker: WatermarkTracker, rows: seq<int>, ok: int -> bool)
    reads tracker
  {
    (forall x :: x in rows ==> x in table) && tracker.State() == FoldAll(EMPTY, OutcomesOf(table, rows, ok))
  }

  lemma OneMoreOutcome(table: map<int, int>, rows: seq<int>, x: int, ok: int -> bool)
    requires x in table && forall y :: y in rows ==> y in table
    ensures forall y :: y in rows + [x] ==> y in table
    ensures FoldAll(EMPTY, OutcomesOf(table, rows + [x], ok))
         == FoldOne(FoldAll(EMPTY, OutcomesOf(table, rows, ok)), OutcomeOf(table, x, ok))
  {
    var more := rows + [x];
    assert more[..|rows|] == rows;
    var os := OutcomesOf(table, more, ok);
    assert os[..|os| - 1] == OutcomesOf(table, rows, ok);
  }

  /** Not past the run's start, a second below every row whose write failed, not past everything visited. */
  ghost predicate MayStore(table: map<int, int>, rows: seq<int>, ok: int -> bool, runStart: int, v: int)
    requires forall x :: x in rows ==> x in table
  {
    v <= runStart && (forall x :: x in rows && !ok(x) ==> v <= table[x] - 1000) &&
    exists x :: x in rows && v <= table[x]
  }

  lemma {:induction false} OutcomesAre(table: map<int, int>, rows: seq<int>, ok: int -> bool, o: Outcome)
    requires forall x :: x in rows ==> x in table
    ensures o in OutcomesOf(table, rows, ok) <==>
            exists x :: x in rows && o == if ok(x) then Settled(Some(table[x])) else Broken(Some(table[x]))
  {
    if rows != [] {
      var n := |rows| - 1;
      assert forall x :: x in rows <==> x in rows[..n] || x == rows[n];
      OutcomesAre(table, rows[..n], ok, o);
    }
  }

  /** The checkpoint of the visited rows is the greatest value that may be stored. */
  lemma CheckpointMeaning(table: map<int, int>, rows: seq<int>, ok: int -> bool, runStart: int)
    requires forall x :: x in rows ==> x in table
    ensures var cp := Result(FoldAll(EMPTY, OutcomesOf(table, rows, ok)), runStart);
      && (cp == None <==> rows == [])
      && (cp != None ==> MayStore(table, rows, ok, runStart, cp.value)
                         && forall v :: MayStore(table, rows, ok, runStart, v) ==> v <= cp.value)
  {
    var os := OutcomesOf(table, rows, ok);
    forall o
      ensures o in os <==>
        exists x :: x in rows && o == if ok(x) then Settled(Some(table[x])) else Broken(Some(table[x]))
    {
      OutcomesAre(table, rows, ok, o);
    }
    forall x | x in rows
      ensures OutcomeOf(table, x, ok) in os
    {
    }
    ResultIsGreatestAllowed(os, runStart);
    forall v
      ensures MayCheckpoint(os, runStart, v) <==> MayStore(table, rows, ok, runStart, v)
    {
    }
    if rows != [] { assert rows[0] in rows; }
  }

  /** The rows of one chunk settle. */
  method SettleChunk(table: map<int, int>, rows: seq<int>, ok: int -> bool, tracker: WatermarkTracker,
                     ghost before: seq<int>)
    requires Folded(table, tracker, before, ok) && forall x :: x in rows ==> x in table
    modifies tracker
    ensures Folded(table, tracker, before + rows, ok)
  {
    ghost var done := before;
    AppendEnds(before, rows);
    for i := 0 to |rows|
      invariant done == before + rows[..i] && Folded(table, tracker, done, ok)
    {
      var x := rows[i];
      AppendGrows(before, rows, i);
      OneMoreOutcome(table, done, x, ok);
      if ok(x) { tracker.Seen(Some(table[x])); } else { tracker.Failed(Some(table[x])); }
      done := done + [x];
    }
  }

  /** Chunks of distinct ids add up to distinct rows. */
  lemma ChunkAdds(table: map<int, int>, since: int, ids: seq<int>, i: nat, end: nat, visited: seq<int>, rows: seq<int>)
    requires Distinct(ids) && i <= end <= |ids|
    requires Answers(table, since, ids[..i], visited) && Answers(table, since, ids[i..end], rows)
    ensures Answers(table, since, ids[..end], visited + rows)
  {
    assert ids[..end] == ids[..i] + ids[i..end];
    forall x | x in ids[i..end]
      ensures x !in ids[..i]
    {
      var k :| i <= k < end && ids[k] == x;
      assert forall j :: 0 <= j < i ==> ids[j] != ids[k];
    }
    var all := visited + rows;
    forall a, b | 0 <= a < b < |all|
      ensures all[a] != all[b]
    {
      if a < |visited| <= b {
        assert all[a] in visited && all[b] in rows;
        assert Selected(table, since, ids[..i], all[a]) && Selected(table, since, ids[i..end], all[b]);
      }
    }
    forall x
      ensures x in all <==> Selected(table, since, ids[..end], x)
    {
      assert x in ids[..end] <==> x in ids[..i] || x in ids[i..end];
    }
  }

  /** Visits every listed row above the bound exactly once and checkpoints once, after the last chunk. */
  method RunChunked(table: map<int, int>, query: Query, ids: seq<int>, size: nat, since: int, runStart: int,
                    ok: int -> bool, state: SyncState)
    returns (visited: seq<int>)
    requires size > 0 && Distinct(ids) && GoodQuery(table, since, query) && state.Valid()
    modifies state`stored
    ensures Answers(table, since, ids, visited)
    ensures var cp := Result(FoldAll(EMPTY, OutcomesOf(table, visited, ok)), runStart);
      state.stored == if !state.dryRun && LetThrough(state.override, state.base, cp) then cp else old(state.stored)
  {
    var tracker := new WatermarkTracker();
    visited := [];
    var i := 0;
    while i < |ids|
      invariant fresh(tracker) && Folded(table, tracker, visited, ok)
      invariant Answers(table, since, ids[..Min(i, |ids|)], visited)
      invariant state.stored == old(state.stored)
      decreases |ids| - i
    {
      var end := Min(i + size, |ids|);
      var rows := query(ids[i..end]);
      ChunkAdds(table, since, ids, i, end, visited, rows);
      SettleChunk(table, rows, ok, tracker, visited);
      visited := visited + rows;
      i := i + size;
    }
    assert ids[..|ids|] == ids;
    var cp := tracker.Checkpointable(runStart);
    var lost := state.Checkpoint(cp, true);
  }

  /** Each chunk of the loop is a legal fetch of the protocol. */
  lemma ChunkIsLegalFetch(table: map<int, int>, since: int, query: Query, chunk: seq<int>,
                          rows: map<int, SyncProtocol.Version>, page: map<int, SyncProtocol.Version>)
    requires GoodQuery(table, since, query)
    requires table.Keys == rows.Keys && forall id :: id in rows ==> rows[id].top == table[id]
    requires forall id :: id in page <==> id in query(chunk)
    requires forall id :: id in page && id in rows ==> page[id] == rows[id]
    ensures SyncProtocol.IsPart(rows, since, (set id | id in chunk), page)
  {
    assert Answers(table, since, chunk, query(chunk));
    forall id
      ensures id in page <==> Selected(table, since, chunk, id)
    {
    }
  }
}
