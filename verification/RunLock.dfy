/**
 * The TTL run-lock (apps/resync-worker/src/core.ts): one row holding the owner's last stamp,
 * changed only by guarded updates.
 *
 * A process reads its clock when it builds a statement and the database executes the statement
 * later, at most `delay` milliseconds later. `ttl` is the lock's time to live.
 */
module RunLock {
  import opened Prelude

  /** The row is free, or its stamp is older than the TTL. */
  predicate MayTake(row: Option<int>, now: int, ttl: int) {
    row.None? || row.value < now - ttl
  }

  function RowAfterAcquire(row: Option<int>, now: int, ttl: int): Option<int> {
    if MayTake(row, now, ttl) then Some(now) else row
  }

  function RowAfterBeat(row: Option<int>, ownedAt: int, now: int): Option<int> {
    if row == Some(ownedAt) then Some(now) else row
  }

  function RowAfterRelease(row: Option<int>, acquiredAt: int): Option<int> {
    if row == Some(acquiredAt) then None else row
  }

  class LockRow {
    var lastRunAt: Option<int>

    constructor ()
      ensures lastRunAt == None
    {
      lastRunAt := None;
    }

    method AcquireLock(now: int, ttl: int) returns (stamp: Option<int>)
      modifies this
      ensures old(lastRunAt) == None || now - old(lastRunAt).value > ttl ==> stamp == lastRunAt == Some(now)
      ensures old(lastRunAt) != None && now - old(lastRunAt).value <= ttl ==>
        stamp == None && lastRunAt == old(lastRunAt)
      ensures lastRunAt == RowAfterAcquire(old(lastRunAt), now, ttl)
    {
      var cutoff := now - ttl;
      if lastRunAt.None? || lastRunAt.value < cutoff {
        lastRunAt := Some(now);
        return Some(now);
      }
      return None;
    }

    method HeartbeatLock(ownedAt: int, now: int) returns (stamp: Option<int>)
      modifies this
      ensures stamp == if old(lastRunAt) == Some(ownedAt) then Some(now) else None
      ensures lastRunAt == if stamp != None then Some(now) else old(lastRunAt)
      ensures lastRunAt == RowAfterBeat(old(lastRunAt), ownedAt, now)
    {
      if lastRunAt != Some(ownedAt) { return None; }
      lastRunAt := Some(now);
      return Some(now);
    }

    method ReleaseLock(acquiredAt: int)
      modifies this
      ensures lastRunAt == if old(lastRunAt) == Some(acquiredAt) then None else old(lastRunAt)
      ensures lastRunAt == RowAfterRelease(old(lastRunAt), acquiredAt)
    {
      if lastRunAt == Some(acquiredAt) { lastRunAt := None; }
    }
  }

  // ---- any number of processes, any interleaving ----

  /** Where a process is; `now` is a clock reading travelling with a statement. */
  datatype Phase =
    | Out
    | Acquiring(now: int)
    | Holding(stamp: int)
    | Beating(stamp: int, now: int)
    | Releasing(stamp: int)

  datatype State = State(clock: int, row: Option<int>, procs: seq<Phase>)

  predicate HasStamp(ph: Phase) { ph.Holding? || ph.Beating? || ph.Releasing? }

  predicate Owns(s: State, p: nat) {
    p < |s.procs| && HasStamp(s.procs[p]) && s.row == Some(s.procs[p].stamp)
  }

  /** `p` believes it holds the lock with `stamp`, but the row says otherwise. */
  predicate TakenOver(s: State, p: nat, stamp: int) {
    p < |s.procs| && HasStamp(s.procs[p]) && s.procs[p].stamp == stamp && s.row != Some(stamp)
  }

  ghost predicate Tick(s: State, t: State) {
    t.clock >= s.clock && t == s.(clock := t.clock)
  }

  predicate MaySend(before: Phase, after: Phase, clock: int) {
    match before
    case Out => after == Acquiring(clock)
    case Holding(stamp) => after == Beating(stamp, clock) || after == Releasing(stamp)
    case _ => false
  }

  /** Building a statement: the clock is read, nothing is written yet. */
  ghost predicate Send(s: State, t: State, p: nat) {
    p < |s.procs| && exists ph :: MaySend(s.procs[p], ph, s.clock) && t == s.(procs := s.procs[p := ph])
  }

  ghost predicate ExecAcquire(s: State, t: State, p: nat, ttl: int, delay: int) {
    p < |s.procs| && s.procs[p].Acquiring? &&
    var now := s.procs[p].now;
    s.clock <= now + delay &&
    t == s.(row := RowAfterAcquire(s.row, now, ttl),
            procs := s.procs[p := if MayTake(s.row, now, ttl) then Holding(now) else Out])
  }

  /** A failed beat of the timer leaves the process running; a failed beat of a checkpoint ends it. */
  ghost predicate ExecBeat(s: State, t: State, p: nat, delay: int) {
    p < |s.procs| && s.procs[p].Beating? &&
    var stamp, now := s.procs[p].stamp, s.procs[p].now;
    s.clock <= now + delay &&
    t.clock == s.clock && t.row == RowAfterBeat(s.row, stamp, now) &&
    if s.row == Some(stamp) then t.procs == s.procs[p := Holding(now)]
    else t.procs == s.procs[p := Holding(stamp)] || t.procs == s.procs[p := Out]
  }

  ghost predicate ExecRelease(s: State, t: State, p: nat) {
    p < |s.procs| && s.procs[p].Releasing? &&
    t == s.(row := RowAfterRelease(s.row, s.procs[p].stamp), procs := s.procs[p := Out])
  }

  ghost predicate Crash(s: State, t: State, p: nat) {
    p < |s.procs| && t == s.(procs := s.procs[p := Out])
  }

  ghost predicate StepOf(s: State, t: State, p: nat, ttl: int, delay: int) {
    Send(s, t, p) || ExecAcquire(s, t, p, ttl, delay) || ExecBeat(s, t, p, delay) || ExecRelease(s, t, p) ||
    Crash(s, t, p)
  }

  ghost predicate Next(s: State, t: State, ttl: int, delay: int) {
    Tick(s, t) || exists p: nat :: StepOf(s, t, p, ttl, delay)
  }

  ghost predicate Init(s: State) {
    s.row.None? && forall p :: 0 <= p < |s.procs| ==> s.procs[p] == Out
  }

  ghost predicate Behaviour(b: seq<State>, ttl: int, delay: int) {
    b != [] && Init(b[0]) &&
    forall i, j {:trigger Next(b[i], b[j], ttl, delay)} :: 0 <= i < j < |b| && j == i + 1 ==>
      Next(b[i], b[j], ttl, delay)
  }

  // ---- the invariant ----

  ghost predicate Inv(s: State, delay: int) {
    (forall p :: 0 <= p < |s.procs| && s.procs[p].Acquiring? ==> s.procs[p].now <= s.clock) &&
    (forall p :: 0 <= p < |s.procs| && s.procs[p].Beating? ==> s.procs[p].stamp <= s.procs[p].now <= s.clock) &&
    (forall p :: 0 <= p < |s.procs| && HasStamp(s.procs[p]) ==> s.procs[p].stamp <= s.clock) &&
    (forall p, q :: 0 <= p < q < |s.procs| ==> !(Owns(s, p) && Owns(s, q))) &&
    // a stamp that lost the row is older than any statement still under way
    (forall p :: 0 <= p < |s.procs| && HasStamp(s.procs[p]) && !Owns(s, p) ==> s.procs[p].stamp + delay < s.clock)
  }

  lemma ProcStepKeeps(s: State, t: State, p: nat, ttl: int, delay: int)
    requires 0 <= delay <= ttl && Inv(s, delay) && StepOf(s, t, p, ttl, delay)
    ensures Inv(t, delay)
  {
    assert |t.procs| == |s.procs|;
    assert forall q :: 0 <= q < |s.procs| && q != p ==> t.procs[q] == s.procs[q];
    forall q | 0 <= q < |t.procs| && q != p && HasStamp(t.procs[q])
      ensures t.row == s.row || !Owns(t, q)
      ensures !Owns(t, q) ==> t.procs[q].stamp + delay < t.clock
    {
      assert Owns(s, q) || s.procs[q].stamp + delay < s.clock;
      if p < q { assert !(Owns(s, p) && Owns(s, q)); } else { assert !(Owns(s, q) && Owns(s, p)); }
    }
    forall a, b | 0 <= a < b < |t.procs|
      ensures !(Owns(t, a) && Owns(t, b))
    {
      assert !(Owns(s, a) && Owns(s, b));
    }
  }

  lemma StepKeeps(s: State, t: State, ttl: int, delay: int)
    requires 0 <= delay <= ttl && Inv(s, delay) && Next(s, t, ttl, delay)
    ensures Inv(t, delay)
  {
    if Tick(s, t) {
      forall p | 0 <= p < |t.procs| && HasStamp(t.procs[p]) && !Owns(t, p)
        ensures t.procs[p].stamp + delay < t.clock
      {
        assert !Owns(s, p);
      }
      forall p, q | 0 <= p < q < |t.procs|
        ensures !(Owns(t, p) && Owns(t, q))
      {
        assert !(Owns(s, p) && Owns(s, q));
      }
    } else {
      var p: nat :| StepOf(s, t, p, ttl, delay);
      ProcStepKeeps(s, t, p, ttl, delay);
    }
  }

  lemma {:induction false} BehaviourKeeps(b: seq<State>, ttl: int, delay: int, k: nat)
    requires 0 <= delay <= ttl && Behaviour(b, ttl, delay) && k < |b|
    ensures Inv(b[k], delay)
  {
    if k > 0 {
      BehaviourKeeps(b, ttl, delay, k - 1);
      assert Next(b[k - 1], b[k], ttl, delay);
      StepKeeps(b[k - 1], b[k], ttl, delay);
    }
  }

  // ---- the promises ----

  /** At no time does the row carry the stamp of two processes. */
  lemma AtMostOneOwner(b: seq<State>, ttl: int, delay: int, k: nat, p: nat, q: nat)
    requires 0 <= delay <= ttl && Behaviour(b, ttl, delay) && k < |b|
    requires Owns(b[k], p) && Owns(b[k], q)
    ensures p == q
  {
    BehaviourKeeps(b, ttl, delay, k);
  }

  lemma TakenOverStep(s: State, t: State, ttl: int, delay: int, p: nat, stamp: int)
    requires 0 <= delay <= ttl && Inv(s, delay) && Next(s, t, ttl, delay)
    requires TakenOver(s, p, stamp)
    requires p < |t.procs| && HasStamp(t.procs[p])
    ensures TakenOver(t, p, stamp)
  {
    assert !Owns(s, p);
    if !Tick(s, t) {
      var q: nat :| StepOf(s, t, q, ttl, delay);
    }
  }

  /** The heartbeat or release of a process that was taken over finds a row that is not its own. */
  lemma TakenOverWritesNothing(s: State, t: State, delay: int, p: nat, stamp: int)
    requires TakenOver(s, p, stamp) && (ExecBeat(s, t, p, delay) || ExecRelease(s, t, p))
    ensures t.row == s.row
  {
  }

  /** `p` goes on from `i` to `j`: it neither ends nor crashes. */
  ghost predicate GoesOn(b: seq<State>, p: nat, i: nat, j: nat) {
    forall k :: i <= k <= j && k < |b| ==> p < |b[k].procs| && HasStamp(b[k].procs[p])
  }

  lemma TakenOverNext(b: seq<State>, ttl: int, delay: int, j: nat, p: nat, stamp: int)
    requires 0 <= delay <= ttl && Behaviour(b, ttl, delay) && 0 < j < |b|
    requires TakenOver(b[j - 1], p, stamp) && p < |b[j].procs| && HasStamp(b[j].procs[p])
    ensures TakenOver(b[j], p, stamp)
  {
    BehaviourKeeps(b, ttl, delay, j - 1);
    assert Next(b[j - 1], b[j], ttl, delay);
    TakenOverStep(b[j - 1], b[j], ttl, delay, p, stamp);
  }

  /**
   * Once taken over, always taken over: as long as the process goes on, the row is not its own, and by
   * `TakenOverWritesNothing` it leaves the row as it is.
   */
  lemma {:induction false} TakenOverForGood(b: seq<State>, ttl: int, delay: int, i: nat, j: nat, p: nat, stamp: int)
    requires 0 <= delay <= ttl && Behaviour(b, ttl, delay) && i <= j < |b|
    requires TakenOver(b[i], p, stamp) && GoesOn(b, p, i, j)
    ensures TakenOver(b[j], p, stamp)
    decreases j
  {
    if i < j {
      TakenOverForGood(b, ttl, delay, i, j - 1, p, stamp);
      TakenOverNext(b, ttl, delay, j, p, stamp);
    }
  }

  /** A takeover happens only more than the TTL after the last stamp of the previous owner. */
  lemma NoEarlyTakeover(s: State, t: State, p: nat, ttl: int, delay: int)
    requires Inv(s, delay) && ExecAcquire(s, t, p, ttl, delay)
    requires s.row.Some? && t.row != s.row
    ensures s.clock > s.row.value + ttl
  {
  }

  /** The owner keeps the row as long as its stamp is not more than the TTL old. */
  lemma OwnedStep(s: State, t: State, ttl: int, delay: int, p: nat)
    requires 0 <= delay <= ttl && Inv(s, delay) && Next(s, t, ttl, delay)
    requires Owns(s, p) && s.clock <= s.procs[p].stamp + ttl
    requires p < |t.procs| && HasStamp(t.procs[p])
    ensures Owns(t, p) && t.procs[p].stamp >= s.procs[p].stamp && t.clock >= s.clock
  {
    if !Tick(s, t) {
      var q: nat :| StepOf(s, t, q, ttl, delay);
      if p < q && q < |s.procs| { assert !(Owns(s, p) && Owns(s, q)); }
      if q < p { assert !(Owns(s, q) && Owns(s, p)); }
    }
  }

  lemma ClockMovesIn(b: seq<State>, ttl: int, delay: int, j: nat)
    requires Behaviour(b, ttl, delay) && 0 < j < |b|
    ensures b[j - 1].clock <= b[j].clock
  {
    assert Next(b[j - 1], b[j], ttl, delay);
    ClockMoves(b[j - 1], b[j], ttl, delay);
  }

  lemma OwnedNext(b: seq<State>, ttl: int, delay: int, j: nat, p: nat)
    requires 0 <= delay <= ttl && Behaviour(b, ttl, delay) && 0 < j < |b|
    requires Owns(b[j - 1], p) && b[j - 1].clock <= b[j - 1].procs[p].stamp + ttl
    requires p < |b[j].procs| && HasStamp(b[j].procs[p])
    ensures Owns(b[j], p) && b[j].procs[p].stamp >= b[j - 1].procs[p].stamp
  {
    BehaviourKeeps(b, ttl, delay, j - 1);
    assert Next(b[j - 1], b[j], ttl, delay);
    OwnedStep(b[j - 1], b[j], ttl, delay, p);
  }

  /**
   * What a checkpoint relies on: after a successful heartbeat nobody else can take the lock before its
   * stamp is more than the TTL old, also while heartbeats of the timer are under way or have moved the
   * stamp on. A watermark written by then is written by the owner.
   */
  lemma {:induction false} OwnedUntilTtl(b: seq<State>, ttl: int, delay: int, i: nat, j: nat, p: nat, stamp: int)
    requires 0 <= delay <= ttl && Behaviour(b, ttl, delay) && i <= j < |b|
    requires Owns(b[i], p) && b[i].procs[p].stamp == stamp && GoesOn(b, p, i, j)
    requires b[j].clock <= stamp + ttl
    ensures Owns(b[j], p) && b[j].procs[p].stamp >= stamp
    decreases j
  {
    if i < j {
      ClockMovesIn(b, ttl, delay, j);
      OwnedUntilTtl(b, ttl, delay, i, j - 1, p, stamp);
      OwnedNext(b, ttl, delay, j, p);
    }
  }

  lemma ClockMoves(s: State, t: State, ttl: int, delay: int)
    requires Next(s, t, ttl, delay)
    ensures t.clock >= s.clock
  {
  }

  /**
   * The bound on the delay is exact: if a statement may stay under way longer than the TTL, two
   * processes can hold the same stamp at the same time.
   */
  lemma LateStatementBreaksLock(ttl: int, delay: int) returns (b: seq<State>)
    requires 0 <= ttl < delay
    ensures Behaviour(b, ttl, delay)
    ensures Owns(Last(b), 0) && Owns(Last(b), 1)
  {
    var n := ttl + 1;
    b := [State(0, None, [Out, Out, Out])];
    b := SendBy(b, 0, Acquiring(0), ttl, delay);      // will arrive far too late
    b := SendBy(b, 1, Acquiring(0), ttl, delay);
    b := AcquireBy(b, 1, ttl, delay);
    b := Wait(b, n, ttl, delay);
    b := SendBy(b, 2, Acquiring(n), ttl, delay);
    b := AcquireBy(b, 2, ttl, delay);                 // takeover
    b := SendBy(b, 2, Releasing(n), ttl, delay);
    b := ReleaseBy(b, 2, ttl, delay);
    b := AcquireBy(b, 0, ttl, delay);                 // the old stamp is back
  }

  ghost function Last(b: seq<State>): State
    requires b != []
  {
    b[|b| - 1]
  }

  lemma Extend(b: seq<State>, t: State, ttl: int, delay: int)
    requires Behaviour(b, ttl, delay) && Next(Last(b), t, ttl, delay)
    ensures Behaviour(b + [t], ttl, delay) && Last(b + [t]) == t
  {
  }

  lemma Wait(b: seq<State>, clock: int, ttl: int, delay: int) returns (c: seq<State>)
    requires Behaviour(b, ttl, delay) && clock >= Last(b).clock
    ensures Behaviour(c, ttl, delay) && Last(c) == Last(b).(clock := clock)
  {
    Extend(b, Last(b).(clock := clock), ttl, delay);
    c := b + [Last(b).(clock := clock)];
  }

  lemma SendBy(b: seq<State>, p: nat, ph: Phase, ttl: int, delay: int) returns (c: seq<State>)
    requires Behaviour(b, ttl, delay) && p < |Last(b).procs| && MaySend(Last(b).procs[p], ph, Last(b).clock)
    ensures Behaviour(c, ttl, delay) && Last(c) == Last(b).(procs := Last(b).procs[p := ph])
  {
    var t := Last(b).(procs := Last(b).procs[p := ph]);
    assert StepOf(Last(b), t, p, ttl, delay);
    Extend(b, t, ttl, delay);
    c := b + [t];
  }

  lemma AcquireBy(b: seq<State>, p: nat, ttl: int, delay: int) returns (c: seq<State>)
    requires Behaviour(b, ttl, delay) && p < |Last(b).procs| && Last(b).procs[p].Acquiring?
    requires MayTake(Last(b).row, Last(b).procs[p].now, ttl) && Last(b).clock <= Last(b).procs[p].now + delay
    ensures Behaviour(c, ttl, delay)
    ensures var now := Last(b).procs[p].now;
      Last(c) == Last(b).(row := Some(now), procs := Last(b).procs[p := Holding(now)])
  {
    var now := Last(b).procs[p].now;
    var t := Last(b).(row := Some(now), procs := Last(b).procs[p := Holding(now)]);
    assert StepOf(Last(b), t, p, ttl, delay);
    Extend(b, t, ttl, delay);
    c := b + [t];
  }

  lemma ReleaseBy(b: seq<State>, p: nat, ttl: int, delay: int) returns (c: seq<State>)
    requires Behaviour(b, ttl, delay) && p < |Last(b).procs| && Last(b).procs[p].Releasing?
    requires Last(b).row == Some(Last(b).procs[p].stamp)
    ensures Behaviour(c, ttl, delay) && Last(c) == Last(b).(row := None, procs := Last(b).procs[p := Out])
  {
    var t := Last(b).(row := None, procs := Last(b).procs[p := Out]);
    assert StepOf(Last(b), t, p, ttl, delay);
    Extend(b, t, ttl, delay);
    c := b + [t];
  }
}
