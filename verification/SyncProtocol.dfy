/**
 * The incremental-sync protocol as a state machine over its steps: a legacy table that changes at any
 * moment, a target that is written row by row, a stored watermark, and runs that scan the table and
 * checkpoint, and that may be cut off anywhere.
 *
 * A row version carries `wm` (the row's own watermark) and `top` (the greatest of its own and its
 * joined rows' watermarks, which is what the scan compares). A version becomes visible at most `delay`
 * after its `top` was stamped; that is all that is assumed about the legacy side. `lag` is what a scan
 * pulls its bound back by.
 */
module SyncProtocol {
  import opened Prelude
  import opened Watermark

  datatype Version = Version(wm: int, top: int, content: int)

  datatype Key = Key(top: int, id: int)

  /**
   * How a syncer scans. `Paged`: page by page in (top, id) order from its bound on, with a checkpoint
   * after any page. `Chunked`: everything above its bound, by parts of the key space that are each read
   * at their own moment, with one checkpoint after the last part; a single query is one part.
   */
  datatype Kind = Paged | Chunked

  datatype Run = Run(
    base: Option<int>,       // stored watermark when the run started
    bound: int,              // where its scan started
    startClock: int,
    runStart: int,           // legacy clock as read before the first query
    floors: Floors,
    cursor: Key,             // paged: the last row fetched
    left: set<int>,          // chunked: the keys still to be read
    page: map<int, Version>, // rows fetched and not yet written, as they were read
    fold: Fold)

  datatype State = State(
    clock: int,
    rows: map<int, Version>,
    applied: map<int, int>,  // content last written to the target, by row id
    stored: Option<int>,
    run: Option<Run>)

  predicate Beyond(cursor: Key, id: int, v: Version) {
    v.top > cursor.top || (v.top == cursor.top && id > cursor.id)
  }

  predicate SettledAt(s: State, id: int)
    requires id in s.rows
  {
    id in s.applied && s.applied[id] == s.rows[id].content
  }

  /** What the first query of a scan from this bound asks of a row. Primary keys are positive. */
  predicate Selects(kind: Kind, bound: int, id: int, v: Version) {
    match kind
    case Paged => Beyond(Key(bound, 0), id, v)
    case Chunked => v.top > bound
  }

  /** The same in terms of the watermark alone: a paged scan includes its bound, a chunked one does not. */
  predicate Reaches(kind: Kind, bound: int, top: int) { top > bound || (kind.Paged? && top == bound) }

  // ---- steps of the legacy side ----

  ghost predicate Tick(s: State, t: State) {
    t.clock >= s.clock && t == s.(clock := t.clock)
  }

  ghost predicate Commit(s: State, t: State, delay: int, id: int, v: Version) {
    id > 0 && v.wm <= v.top && 0 < v.top && s.clock <= v.top + delay &&
    t == s.(rows := s.rows[id := v])
  }

  ghost predicate Delete(s: State, t: State, id: int) {
    t == s.(rows := s.rows - {id})
  }

  // ---- steps of the worker ----

  /** `scope` is the key space of a chunked scan, which covers the table. */
  ghost predicate Start(s: State, t: State, lag: int, override: Override, runStart: int, scope: set<int>) {
    s.run.None? && runStart <= s.clock && s.rows.Keys <= scope &&
    var bound := SinceBound(EffectiveSince(override, s.stored), lag);
    t == s.(run := Some(Run(s.stored, bound, s.clock, runStart, FloorsOf(override, s.stored),
                            Key(bound, 0), scope, map[], EMPTY)))
  }

  /** The next rows in (top, id) order, as many as the query cares to return; `last` ends the page. */
  ghost predicate IsPage(rows: map<int, Version>, cursor: Key, page: map<int, Version>, last: int) {
    last in page &&
    (forall id :: id in page ==> id in rows && rows[id] == page[id] && Beyond(cursor, id, page[id])) &&
    (forall id :: id in page && id != last ==> Beyond(Key(page[id].top, id), last, page[last])) &&
    (forall id :: id in rows && Beyond(cursor, id, rows[id]) && id !in page ==>
       Beyond(Key(page[last].top, last), id, rows[id]))
  }

  ghost predicate FetchPage(s: State, t: State, page: map<int, Version>, last: int) {
    s.run.Some? && s.run.value.page == map[] &&
    IsPage(s.rows, s.run.value.cursor, page, last) &&
    t == s.(run := Some(s.run.value.(page := page, cursor := Key(page[last].top, last))))
  }

  /** The rows of one part above the bound. */
  ghost predicate IsPart(rows: map<int, Version>, bound: int, part: set<int>, page: map<int, Version>) {
    (forall id :: id in page ==> id in rows && rows[id] == page[id]) &&
    forall id :: id in rows ==> (id in page <==> id in part && rows[id].top > bound)
  }

  ghost predicate FetchPart(s: State, t: State, part: set<int>, page: map<int, Version>) {
    s.run.Some? && s.run.value.page == map[] &&
    IsPart(s.rows, s.run.value.bound, part, page) &&
    t == s.(run := Some(s.run.value.(page := page, left := s.run.value.left - part)))
  }

  ghost predicate Fetch(s: State, t: State, kind: Kind) {
    match kind
    case Paged => exists page, last :: FetchPage(s, t, page, last)
    case Chunked => exists part, page :: FetchPart(s, t, part, page)
  }

  function AfterRow(f: Fold, v: Version, ok: bool): Fold {
    var g := FoldSeen(FoldSeen(f, Some(v.wm)), Some(v.top));
    if ok then g else FoldFailed(g, Some(v.wm))
  }

  /** The row moves the checkpoint up to everything it carries, and down below itself if its write failed. */
  lemma RowFolded(f: Fold, v: Version, ok: bool)
    requires v.wm <= v.top
    ensures var g := AfterRow(f, v, ok);
      && g.maxSeen == (if f.maxSeen == None then Some(v.top) else Some(Max(f.maxSeen.value, v.top)))
      && g.minFailed == (if ok then f.minFailed
                         else if f.minFailed == None then Some(v.wm) else Some(Min(f.minFailed.value, v.wm)))
  {
  }

  /** One fetched row is written as it was read, or its write throws (and may or may not have landed). */
  ghost predicate Process(s: State, t: State, id: int, ok: bool, landed: bool) {
    s.run.Some? && id in s.run.value.page && (ok ==> landed) &&
    var r := s.run.value;
    t == s.(applied := if landed then s.applied[id := r.page[id].content] else s.applied,
            run := Some(r.(page := r.page - {id}, fold := AfterRow(r.fold, r.page[id], ok))))
  }

  /** Between pages, or after the last part. */
  ghost predicate Checkpoint(s: State, t: State, kind: Kind) {
    s.run.Some? && s.run.value.page == map[] && (kind.Chunked? ==> s.run.value.left == {}) &&
    var r := s.run.value;
    t == s.(stored := Written(s.stored, Gate(r.floors, Result(r.fold, r.runStart))))
  }

  /** The run ends, throws, loses the lock or its process dies. */
  ghost predicate Stop(s: State, t: State) {
    t == s.(run := None)
  }

  /** The operator clears the watermark. */
  ghost predicate Reset(s: State, t: State) {
    t == s.(stored := None)
  }

  /** What one syncer is configured with, and what the legacy side needs. */
  datatype Setup = Setup(kind: Kind, lag: int, delay: int)

  ghost predicate StartStep(s: State, t: State, c: Setup, safe: bool) {
    exists override: Override, runStart, scope ::
      Start(s, t, c.lag, override, runStart, scope) && (safe ==> SafeStart(c, override, s.stored))
  }

  ghost predicate Next(s: State, t: State, c: Setup, safe: bool) {
    || Tick(s, t)
    || (exists id, v :: Commit(s, t, c.delay, id, v))
    || (exists id :: Delete(s, t, id))
    || StartStep(s, t, c, safe)
    || Fetch(s, t, c.kind)
    || (exists id, ok, landed :: Process(s, t, id, ok, landed))
    || Checkpoint(s, t, c.kind)
    || Stop(s, t)
    || Reset(s, t)
  }

  /**
   * A run may be started past the first millisecond only if a watermark is already stored. Without
   * one, `gapFloor` is null and nothing keeps the checkpoint from crossing the gap.
   */
  predicate SafeStart(c: Setup, override: Override, stored: Option<int>) {
    match (stored, override)
    case (None, Some(Some(since))) => if c.kind.Paged? then since - c.lag <= 1 else since - c.lag < 1
    case _ => true
  }

  /** The lag covers the delay; a chunked scan, which leaves its bound out, needs a millisecond more. */
  predicate SafeLag(c: Setup) { c.lag >= 0 && (c.delay < c.lag || (c.kind.Paged? && c.delay == c.lag)) }

  // ---- the invariant ----

  /** What must never be lost: the next scan selects every version that is not yet settled. */
  ghost predicate NothingLost(s: State, c: Setup) {
    forall id :: id in s.rows && !SettledAt(s, id) ==> Selects(c.kind, SinceBound(s.stored, c.lag), id, s.rows[id])
  }

  predicate NotReachedYet(kind: Kind, r: Run, id: int, v: Version) {
    match kind
    case Paged => Beyond(r.cursor, id, v)
    case Chunked => id in r.left
  }

  ghost predicate Tracked(s: State, r: Run, c: Setup, id: int)
    requires id in s.rows
  {
    var v := s.rows[id];
    || Reaches(c.kind, r.startClock - c.lag, v.top)                          // changed during the run
    || SettledAt(s, id)
    || (r.fold.minFailed.Some? && r.fold.minFailed.value <= v.top)           // held by a failure
    || (id in r.page && r.page[id] == v)                                     // about to be written
    || NotReachedYet(c.kind, r, id, v)
    || !Selects(c.kind, r.bound, id, v)                                      // outside this scan
  }

  /** What the cursor of a paged scan bounds. */
  ghost predicate CursorInv(r: Run) {
    (r.fold.maxSeen.Some? ==> r.fold.maxSeen.value <= r.cursor.top) &&
    forall id :: id in r.page ==> r.page[id].top <= r.cursor.top
  }

  ghost predicate RunInv(s: State, r: Run, c: Setup) {
    r.runStart <= r.startClock <= s.clock &&
    (r.base.Some? ==> r.base.value <= r.startClock) &&
    (s.stored.Some? ==> s.stored.value <= r.startClock) &&
    (r.floors.gap.Some? ==> r.floors.gap == r.base) &&
    (r.floors.gap.None? ==> r.bound <= SinceBound(r.base, c.lag) || Reaches(c.kind, r.bound, 1)) &&
    (c.kind.Paged? ==> CursorInv(r)) &&
    (forall id :: id in r.page ==> r.page[id].wm <= r.page[id].top) &&
    (forall id :: id in r.page && id in s.rows ==>
       r.page[id] == s.rows[id] || Reaches(c.kind, r.startClock - c.lag, s.rows[id].top)) &&
    (forall id :: id in s.rows && !SettledAt(s, id) ==> Reaches(c.kind, SinceBound(r.base, c.lag), s.rows[id].top)) &&
    (forall id :: id in s.rows ==> Tracked(s, r, c, id))
  }

  ghost predicate Inv(s: State, c: Setup) {
    (forall id :: id in s.rows ==> id > 0 && 0 < s.rows[id].top && s.rows[id].wm <= s.rows[id].top) &&
    (s.stored.Some? ==> s.stored.value <= s.clock) &&
    NothingLost(s, c) &&
    (s.run.Some? ==> RunInv(s, s.run.value, c))
  }

  lemma CommitKeeps(s: State, t: State, c: Setup, id: int, v: Version)
    requires SafeLag(c) && Inv(s, c) && Commit(s, t, c.delay, id, v)
    ensures Inv(t, c)
  {
    if t.run.Some? {
      var r := t.run.value;
      forall i | i in t.rows
        ensures Tracked(t, r, c, i)
      {
        if i != id { assert Tracked(s, r, c, i); }
      }
    }
  }

  lemma DeleteKeeps(s: State, t: State, c: Setup, id: int)
    requires Inv(s, c) && Delete(s, t, id)
    ensures Inv(t, c)
  {
    if t.run.Some? {
      var r := t.run.value;
      forall i | i in t.rows
        ensures Tracked(t, r, c, i)
      {
        assert Tracked(s, r, c, i);
      }
    }
  }

  lemma StartKeeps(s: State, t: State, c: Setup, override: Override, runStart: int, scope: set<int>)
    requires SafeLag(c) && Inv(s, c)
    requires Start(s, t, c.lag, override, runStart, scope) && SafeStart(c, override, s.stored)
    ensures Inv(t, c)
  {
    var r := t.run.value;
    forall id | id in t.rows
      ensures Tracked(t, r, c, id)
    {
      assert id in scope;
    }
  }

  lemma FetchPageKeeps(s: State, t: State, c: Setup, page: map<int, Version>, last: int)
    requires c.kind.Paged? && Inv(s, c) && FetchPage(s, t, page, last)
    ensures Inv(t, c)
  {
    var r, q := s.run.value, t.run.value;
    forall id | id in t.rows
      ensures Tracked(t, q, c, id)
    {
      assert Tracked(s, r, c, id);
    }
    assert Beyond(r.cursor, last, page[last]);
  }

  lemma FetchPartKeeps(s: State, t: State, c: Setup, part: set<int>, page: map<int, Version>)
    requires c.kind.Chunked? && Inv(s, c) && FetchPart(s, t, part, page)
    ensures Inv(t, c)
  {
    var r, q := s.run.value, t.run.value;
    forall id | id in t.rows
      ensures Tracked(t, q, c, id)
    {
      assert Tracked(s, r, c, id);
    }
  }

  lemma ProcessKeeps(s: State, t: State, c: Setup, id: int, ok: bool, landed: bool)
    requires SafeLag(c) && Inv(s, c) && Process(s, t, id, ok, landed)
    ensures Inv(t, c)
  {
    var r, q := s.run.value, t.run.value;
    var v := r.page[id];
    if !ok { assert q.fold.minFailed.Some? && q.fold.minFailed.value <= v.wm; }
    assert r.fold.minFailed.Some? ==> q.fold.minFailed.Some? && q.fold.minFailed.value <= r.fold.minFailed.value;
    forall i | i in t.rows
      ensures Tracked(t, q, c, i)
    {
      assert Tracked(s, r, c, i);
    }
    forall i | i in t.rows && !SettledAt(t, i)
      ensures Reaches(c.kind, SinceBound(r.base, c.lag), t.rows[i].top)
      ensures Selects(c.kind, SinceBound(t.stored, c.lag), i, t.rows[i])
    {
      if SettledAt(s, i) { assert i == id && landed && s.rows[i] != v; }
    }
  }

  lemma CheckpointKeeps(s: State, t: State, c: Setup)
    requires SafeLag(c) && Inv(s, c) && Checkpoint(s, t, c.kind)
    ensures Inv(t, c)
  {
    var r := s.run.value;
    var g := Gate(r.floors, Result(r.fold, r.runStart));
    if g.Some? {
      forall id | id in t.rows && !SettledAt(t, id)
        ensures Reaches(c.kind, g.value - c.lag, t.rows[id].top)
      {
        assert Tracked(s, r, c, id);
        assert Reaches(c.kind, SinceBound(r.base, c.lag), s.rows[id].top);
      }
    }
    forall id | id in t.rows
      ensures Tracked(t, r, c, id)
    {
      assert Tracked(s, r, c, id);
    }
  }

  lemma OtherStepsKeep(s: State, t: State, c: Setup)
    requires Inv(s, c) && (Tick(s, t) || Stop(s, t) || Reset(s, t))
    ensures Inv(t, c)
  {
    if t.run.Some? {
      var r := t.run.value;
      forall id | id in t.rows
        ensures Tracked(t, r, c, id)
      {
        assert Tracked(s, r, c, id);
      }
    }
  }

  lemma StepKeeps(s: State, t: State, c: Setup)
    requires SafeLag(c) && Inv(s, c) && Next(s, t, c, true)
    ensures Inv(t, c)
  {
    if id, v :| Commit(s, t, c.delay, id, v) {
      CommitKeeps(s, t, c, id, v);
    } else if id :| Delete(s, t, id) {
      DeleteKeeps(s, t, c, id);
    } else if StartStep(s, t, c, true) {
      var override: Override, runStart, scope :| Start(s, t, c.lag, override, runStart, scope) &&
        SafeStart(c, override, s.stored);
      StartKeeps(s, t, c, override, runStart, scope);
    } else if Fetch(s, t, c.kind) {
      match c.kind
      case Paged =>
        var page, last :| FetchPage(s, t, page, last);
        FetchPageKeeps(s, t, c, page, last);
      case Chunked =>
        var part, page :| FetchPart(s, t, part, page);
        FetchPartKeeps(s, t, c, part, page);
    } else if id, ok, landed :| Process(s, t, id, ok, landed) {
      ProcessKeeps(s, t, c, id, ok, landed);
    } else if Checkpoint(s, t, c.kind) {
      CheckpointKeeps(s, t, c);
    } else {
      OtherStepsKeep(s, t, c);
    }
  }

  /** Any sequence of steps; `safe` keeps operators from an unsafe `--since`. */
  ghost predicate Behaviour(b: seq<State>, c: Setup, safe: bool) {
    b != [] && forall i, j :: 0 <= i < j < |b| && j == i + 1 ==> Next(b[i], b[j], c, safe)
  }

  /**
   * No update is lost over any sequence of runs, for both kinds of scan: whatever fails, crashes or
   * changes mid-run, the next scan from the stored watermark selects every version that is not settled.
   */
  lemma {:induction false} NoLostUpdate(b: seq<State>, c: Setup)
    requires SafeLag(c) && Behaviour(b, c, true) && Inv(b[0], c)
    ensures forall i :: 0 <= i < |b| ==> Inv(b[i], c) && NothingLost(b[i], c)
  {
    var n := |b| - 1;
    if n > 0 {
      NoLostUpdate(b[..n], c);
      assert Inv(b[..n][n - 1], c);
      assert Next(b[n - 1], b[n], c, true);
      StepKeeps(b[n - 1], b[n], c);
      forall i | 0 <= i < |b|
        ensures Inv(b[i], c) && NothingLost(b[i], c)
      {
        if i < n { assert b[..n][i] == b[i]; }
      }
    }
  }

  /** The property at stake is not a matter of where one starts: an empty target is a good start. */
  lemma FreshTargetIsSafe(s: State, c: Setup)
    requires forall id :: id in s.rows ==> id > 0 && 0 < s.rows[id].top && s.rows[id].wm <= s.rows[id].top
    requires s.stored.None? && s.run.None?
    ensures Inv(s, c)
  {
  }

  // ---- both guards are exact ----

  /** One fault-free run that fetches and writes one row, up to its checkpoint. */
  lemma OneRowRun(s: State, c: Setup, override: Override, id: int) returns (b: seq<State>)
    requires s.run.None? && id in s.rows && s.rows[id].wm == s.rows[id].top <= s.clock
    requires var bound := SinceBound(EffectiveSince(override, s.stored), c.lag);
      forall i :: i in s.rows ==> (Selects(c.kind, bound, i, s.rows[i]) <==> i == id)
    ensures |b| == 4 && b[0] == s && Behaviour(b, c, false)
    ensures Start(s, b[1], c.lag, override, s.clock, s.rows.Keys)
    ensures SafeStart(c, override, s.stored) ==> Behaviour(b, c, true)
    ensures b[3] == s.(applied := s.applied[id := s.rows[id].content], run := b[3].run) && b[3].run.Some?
    ensures var r := b[3].run.value;
      && r.page == map[] && (c.kind.Chunked? ==> r.left == {}) && r.floors == FloorsOf(override, s.stored)
      && Result(r.fold, r.runStart) == Some(s.rows[id].top)
  {
    var v := s.rows[id];
    var bound := SinceBound(EffectiveSince(override, s.stored), c.lag);
    var all := s.rows.Keys;
    var run := Run(s.stored, bound, s.clock, s.clock, FloorsOf(override, s.stored), Key(bound, 0), all, map[], EMPTY);
    var s1 := s.(run := Some(run));
    assert Start(s, s1, c.lag, override, s.clock, all);
    var page: map<int, Version> := map[id := v];
    var fetched := if c.kind.Paged? then run.(page := page, cursor := Key(v.top, id))
                   else run.(page := page, left := all - all);
    var s2 := s1.(run := Some(fetched));
    match c.kind {
      case Paged => assert FetchPage(s1, s2, page, id);
      case Chunked => assert FetchPart(s1, s2, all, page);
    }
    var fold := AfterRow(EMPTY, v, true);
    assert page - {id} == map[];
    var s3 := s2.(applied := s.applied[id := v.content], run := Some(fetched.(page := map[], fold := fold)));
    assert Process(s2, s3, id, true, true);
    assert fold == Fold(Some(v.top), None);
    b := [s, s1, s2, s3];
    assert StartStep(s, s1, c, false);
    if SafeStart(c, override, s.stored) { assert StartStep(s, s1, c, true); }
  }

  lemma Longer(b: seq<State>, t: State, c: Setup, safe: bool)
    requires Behaviour(b, c, safe) && Next(b[|b| - 1], t, c, safe)
    ensures Behaviour(b + [t], c, safe)
  {
  }

  /**
   * The guard on the start is exact. Whenever it fails there is a table on which one fault-free run
   * started with that `--since` checkpoints past a row it never looked at.
   */
  lemma UnsafeStartLoses(override: Override, stored: Option<int>, c: Setup)
    returns (b: seq<State>, runStart: int, scope: set<int>)
    requires c.lag >= 0 && !SafeStart(c, override, stored)
    ensures Behaviour(b, c, false) && Inv(b[0], c) && b[0].stored == stored
    ensures |b| > 1 && Start(b[0], b[1], c.lag, override, runStart, scope)
    ensures !NothingLost(b[|b| - 1], c)
  {
    var since := override.value.value;
    var clock := since + 1;
    var early, late := Version(1, 1, 7), Version(clock, clock, 9);
    var s := State(clock, map[1 := early, 2 := late], map[], None, None);
    runStart, scope := clock, s.rows.Keys;
    b := OneRowRun(s, c, override, 2);
    var t := b[3].(stored := Some(clock));
    assert Checkpoint(b[3], t, c.kind);
    Longer(b, t, c, false);
    b := b + [t];
    assert !SettledAt(t, 1) && 1 in t.rows;
  }

  /**
   * The guard on the lag is exact, and this is what the lag is for. Whenever it fails there is a
   * fault-free run during which a row becomes visible that no later scan from the stored watermark
   * selects.
   */
  lemma LateCommitLoses(c: Setup) returns (b: seq<State>)
    requires c.lag >= 0 && !SafeLag(c)
    ensures Behaviour(b, c, true) && Inv(b[0], c)
    ensures !NothingLost(b[|b| - 1], c)
  {
    var clock := c.lag + if c.kind.Paged? then 2 else 1;
    var seen, late := Version(clock, clock, 7), Version(1, 1, 9);
    var s := State(clock, map[1 := seen], map[], None, None);
    b := OneRowRun(s, c, None, 1);
    var t := b[3].(rows := b[3].rows[2 := late]);
    assert Commit(b[3], t, c.delay, 2, late);
    Longer(b, t, c, true);
    b := b + [t];
    var u := t.(stored := Some(clock));
    assert Checkpoint(t, u, c.kind);
    Longer(b, u, c, true);
    b := b + [u];
    assert 2 in u.rows && !SettledAt(u, 2);
  }
}
