/**
 * `runConcurrent` (apps/resync-worker/src/util.ts): a pool of workers sharing one counter. Between
 * two awaits a worker runs undisturbed, so taking an index is one step and finishing it another.
 */
module WorkerPool {
  import opened Prelude

  datatype Worker = Idle | Busy(index: nat) | Returned

  datatype Pool = Pool(
    n: nat,                    // items
    next: nat,
    workers: seq<Worker>,
    taker: seq<nat>,           // who took index i, in order of taking
    done: set<nat>)            // indices whose callback settled

  function PoolSize(n: nat, limit: int): nat
    requires limit > 1
  {
    Min(limit, n)
  }

  ghost predicate Init(p: Pool, n: nat, limit: int)
    requires limit > 1
  {
    p == Pool(n, 0, seq(PoolSize(n, limit), _ => Idle), [], {})
  }

  /** A worker takes the next index, or returns when there is none left; the counter moves either way. */
  ghost predicate Take(p: Pool, q: Pool, w: nat) {
    w < |p.workers| && p.workers[w] == Idle &&
    if p.next >= p.n then q == p.(next := p.next + 1, workers := p.workers[w := Returned])
    else q == p.(next := p.next + 1, workers := p.workers[w := Busy(p.next)], taker := p.taker + [w])
  }

  /** The awaited callback settles and the worker loops. */
  ghost predicate Finish(p: Pool, q: Pool, w: nat) {
    w < |p.workers| && p.workers[w].Busy? &&
    q == p.(workers := p.workers[w := Idle], done := p.done + {p.workers[w].index})
  }

  ghost predicate Next(p: Pool, q: Pool) {
    exists w :: Take(p, q, w) || Finish(p, q, w)
  }

  /** Index `i` is in the hands of the worker that took it, and of no other, until it is done. */
  ghost predicate Inv(p: Pool) {
    |p.taker| == Min(p.next, p.n) &&
    (forall i :: i in p.done ==> i < |p.taker|) &&
    (forall i :: 0 <= i < |p.taker| ==> p.taker[i] < |p.workers|) &&
    (forall i :: 0 <= i < |p.taker| && i !in p.done ==> p.workers[p.taker[i]] == Busy(i)) &&
    (forall w :: 0 <= w < |p.workers| && p.workers[w].Busy? ==>
       var i := p.workers[w].index; i < |p.taker| && i !in p.done && p.taker[i] == w) &&
    (forall w :: 0 <= w < |p.workers| && p.workers[w].Returned? ==> p.next > p.n)
  }

  lemma TakeKeeps(p: Pool, q: Pool, w: nat)
    requires Inv(p) && Take(p, q, w)
    ensures Inv(q) && p.taker <= q.taker
  {
    forall i | 0 <= i < |q.taker| && i !in q.done
      ensures q.workers[q.taker[i]] == Busy(i)
    {
      if i < |p.taker| { assert p.workers[p.taker[i]] == Busy(i); }
    }
  }

  lemma FinishKeeps(p: Pool, q: Pool, w: nat)
    requires Inv(p) && Finish(p, q, w)
    ensures Inv(q) && p.done <= q.done
  {
    forall i | 0 <= i < |q.taker| && i !in q.done
      ensures q.workers[q.taker[i]] == Busy(i)
    {
      assert p.workers[p.taker[i]] == Busy(i);
    }
  }

  lemma StepKeeps(p: Pool, q: Pool)
    requires Inv(p) && Next(p, q)
    ensures Inv(q)
    ensures p.taker <= q.taker && p.done <= q.done && |q.workers| == |p.workers| && q.n == p.n
  {
    var w: nat :| Take(p, q, w) || Finish(p, q, w);
    if Take(p, q, w) { TakeKeeps(p, q, w); } else { FinishKeeps(p, q, w); }
  }

  ghost predicate Behaviour(b: seq<Pool>, n: nat, limit: int) {
    limit > 1 && b != [] && Init(b[0], n, limit) && forall i, j :: 0 <= i < j < |b| && j == i + 1 ==> Next(b[i], b[j])
  }

  ghost predicate Finished(p: Pool) {
    forall w :: 0 <= w < |p.workers| ==> p.workers[w].Returned?
  }

  lemma {:induction false} BehaviourKeeps(b: seq<Pool>, n: nat, limit: int)
    requires Behaviour(b, n, limit)
    ensures var p := b[|b| - 1]; Inv(p) && |p.workers| == PoolSize(n, limit) && p.n == n
  {
    var k := |b| - 1;
    if k > 0 {
      BehaviourKeeps(b[..k], n, limit);
      assert Next(b[k - 1], b[k]);
      StepKeeps(b[k - 1], b[k]);
    }
  }

  /** Indices are handed out in order, each to one worker; at most `limit` are in flight at once. */
  lemma InFlight(b: seq<Pool>, n: nat, limit: int)
    requires Behaviour(b, n, limit)
    ensures var p := b[|b| - 1];
      var flight := set i | 0 <= i < |p.taker| && i !in p.done;
      |flight| <= limit
      && forall i, j :: i in flight && j in flight && i != j ==> p.taker[i] != p.taker[j]
  {
    BehaviourKeeps(b, n, limit);
    var p := b[|b| - 1];
    var flight := set i | 0 <= i < |p.taker| && i !in p.done;
    assert forall i :: i in flight ==> p.workers[p.taker[i]] == Busy(i);
    HandsCount(p, flight, |p.workers|);
  }

  /** No more indices than workers: each busy worker holds one. */
  lemma {:induction false} HandsCount(p: Pool, flight: set<nat>, k: nat)
    requires k <= |p.workers|
    requires forall i :: i in flight ==> i < |p.taker| && p.taker[i] < k && p.workers[p.taker[i]] == Busy(i)
    ensures |flight| <= k
  {
    if k > 0 {
      var held := if p.workers[k - 1].Busy? then {p.workers[k - 1].index} else {};
      HandsCount(p, flight - held, k - 1);
      assert |flight| <= |flight - held| + 1 by {
        assert flight <= (flight - held) + held;
        SubsetSize(flight, (flight - held) + held);
        assert |(flight - held) + held| <= |flight - held| + 1;
      }
    } else {
      assert forall i :: i !in flight;
      assert flight == {};
    }
  }

  lemma {:induction false} SubsetSize(a: set<nat>, b: set<nat>)
    requires a <= b
    ensures |a| <= |b|
  {
    if a != {} {
      var x :| x in a;
      SubsetSize(a - {x}, b - {x});
    }
  }

  /** When every worker has returned, each index was taken exactly once and its callback settled. */
  lemma EveryIndexOnce(b: seq<Pool>, n: nat, limit: int)
    requires Behaviour(b, n, limit) && Finished(b[|b| - 1])
    ensures var p := b[|b| - 1];
      |p.taker| == n && (forall i :: i in p.done ==> i < n) && forall i :: 0 <= i < n ==> i in p.done
  {
    BehaviourKeeps(b, n, limit);
    var p := b[|b| - 1];
    if n > 0 { assert p.workers[0].Returned?; }
    forall i | 0 <= i < n
      ensures i in p.done
    {
      assert p.workers[p.taker[i]].Returned?;
    }
  }

  // ---- how many steps a run takes ----

  /** The steps a worker still owes whatever it takes next: settling its index, and returning. */
  function Owed(x: Worker): nat {
    match x
    case Idle => 1
    case Busy(_) => 2
    case Returned => 0
  }

  function OwedByAll(ws: seq<Worker>): nat {
    if ws == [] then 0 else OwedByAll(ws[..|ws| - 1]) + Owed(ws[|ws| - 1])
  }

  /** Two steps for every index nobody has taken, and what the workers owe. */
  function StepsLeft(p: Pool): nat { 2 * (p.n - Min(p.next, p.n)) + OwedByAll(p.workers) }

  lemma {:induction false} OwedUpdate(ws: seq<Worker>, w: nat, x: Worker)
    requires w < |ws|
    ensures OwedByAll(ws[w := x]) == OwedByAll(ws) - Owed(ws[w]) + Owed(x)
  {
    var n := |ws| - 1;
    if w == n {
      assert ws[w := x][..n] == ws[..n];
    } else {
      OwedUpdate(ws[..n], w, x);
      assert ws[w := x][..n] == ws[..n][w := x];
    }
  }

  lemma {:induction false} OwedByIdle(k: nat)
    ensures OwedByAll(seq(k, _ => Idle)) == k
  {
    if k > 0 {
      OwedByIdle(k - 1);
      assert seq(k, _ => Idle)[..k - 1] == seq(k - 1, _ => Idle);
    }
  }

  lemma {:induction false} NothingOwed(ws: seq<Worker>)
    ensures OwedByAll(ws) == 0 <==> forall w :: 0 <= w < |ws| ==> ws[w].Returned?
  {
    if ws != [] {
      var n := |ws| - 1;
      NothingOwed(ws[..n]);
      if forall w :: 0 <= w < n ==> ws[w].Returned? {
        assert forall w :: 0 <= w < n ==> ws[..n][w].Returned?;
      } else {
        var w :| 0 <= w < n && !ws[w].Returned?;
        assert !ws[..n][w].Returned?;
      }
    }
  }

  lemma EveryStepCounts(p: Pool, q: Pool)
    requires Next(p, q)
    ensures StepsLeft(q) == StepsLeft(p) - 1
  {
    var w: nat :| Take(p, q, w) || Finish(p, q, w);
    OwedUpdate(p.workers, w, q.workers[w]);
  }

  lemma {:induction false} StepsSpent(b: seq<Pool>, n: nat, limit: int)
    requires Behaviour(b, n, limit)
    ensures StepsLeft(b[|b| - 1]) + (|b| - 1) == 2 * n + PoolSize(n, limit)
  {
    var k := |b| - 1;
    if k == 0 {
      OwedByIdle(PoolSize(n, limit));
    } else {
      StepsSpent(b[..k], n, limit);
      assert Next(b[k - 1], b[k]);
      EveryStepCounts(b[k - 1], b[k]);
    }
  }

  /**
   * Every run ends: no behaviour has more than two steps for each index and one for each worker, of which
   * there are `limit` or as many as items, and one that has as many has all workers returned.
   */
  lemma RunsEnd(b: seq<Pool>, n: nat, limit: int)
    requires Behaviour(b, n, limit)
    ensures var steps := 2 * n + (if n < limit then n else limit);
      |b| - 1 <= steps && (Finished(b[|b| - 1]) <==> |b| - 1 == steps)
  {
    BehaviourKeeps(b, n, limit);
    StepsSpent(b, n, limit);
    var p := b[|b| - 1];
    NothingOwed(p.workers);
    if Finished(p) && n > 0 { assert p.workers[0].Returned?; }
  }

  /** The pool cannot get stuck before that: some worker can always move. */
  lemma NeverStuck(p: Pool)
    requires Inv(p) && !Finished(p)
    ensures exists q :: Next(p, q)
  {
    var w :| 0 <= w < |p.workers| && !p.workers[w].Returned?;
    if p.workers[w].Idle? {
      var q := if p.next >= p.n then p.(next := p.next + 1, workers := p.workers[w := Returned])
        else p.(next := p.next + 1, workers := p.workers[w := Busy(p.next)], taker := p.taker + [w]);
      assert Take(p, q, w);
      assert Next(p, q);
    } else {
      var q := p.(workers := p.workers[w := Idle], done := p.done + {p.workers[w].index});
      assert Finish(p, q, w);
      assert Next(p, q);
    }
  }
}
