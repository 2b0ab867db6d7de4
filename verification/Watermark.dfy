/**
 * Watermarks (apps/resync-worker/src/util.ts, core.ts): the fold of a run's rows into the value it
 * may checkpoint, the scan bound, and the two `--since` floors. All times are epoch milliseconds.
 */
module Watermark {
  import opened Prelude

  /** A scanned row as the tracker sees it; `None` is a null watermark. */
  datatype Outcome = Settled(wm: Option<int>) | Broken(wm: Option<int>)

  datatype Fold = Fold(maxSeen: Option<int>, minFailed: Option<int>)

  const EMPTY := Fold(None, None)

  function FoldSeen(f: Fold, wm: Option<int>): Fold {
    if wm.None? then f
    else if f.maxSeen.None? || wm.value > f.maxSeen.value then f.(maxSeen := wm)
    else f
  }

  function FoldFailed(f: Fold, wm: Option<int>): Fold {
    if wm.None? then f
    else
      var g := FoldSeen(f, wm);
      if g.minFailed.None? || wm.value < g.minFailed.value then g.(minFailed := wm) else g
  }

  function FoldOne(f: Fold, o: Outcome): Fold {
    match o
    case Settled(wm) => FoldSeen(f, wm)
    case Broken(wm) => FoldFailed(f, wm)
  }

  function FoldAll(f: Fold, os: seq<Outcome>): Fold {
    if os == [] then f else FoldOne(FoldAll(f, os[..|os| - 1]), os[|os| - 1])
  }

  function Result(f: Fold, runStart: int): Option<int> {
    if f.maxSeen.None? then None
    else
      var cp := Min(f.maxSeen.value, runStart);
      Some(if f.minFailed.None? then cp else Min(cp, f.minFailed.value - 1000))
  }

  class WatermarkTracker {
    var maxSeen: Option<int>
    var minFailed: Option<int>

    ghost function State(): Fold
      reads this
    {
      Fold(maxSeen, minFailed)
    }

    constructor ()
      ensures State() == EMPTY
    {
      maxSeen, minFailed := None, None;
    }

    method Seen(wm: Option<int>)
      modifies this
      ensures State() == FoldOne(old(State()), Settled(wm))
    {
      if wm.None? { return; }
      if maxSeen.None? || wm.value > maxSeen.value { maxSeen := wm; }
    }

    method Failed(wm: Option<int>)
      modifies this
      ensures State() == FoldOne(old(State()), Broken(wm))
    {
      if wm.None? { return; }
      Seen(wm);
      if minFailed.None? || wm.value < minFailed.value { minFailed := wm; }
    }

    method Checkpointable(runStart: int) returns (cp: Option<int>)
      ensures cp == Result(State(), runStart)
    {
      if maxSeen.None? { return None; }
      var least := Min(maxSeen.value, runStart);
      if minFailed.Some? { least := Min(least, minFailed.value - 1000); }
      cp := Some(least);
    }
  }

  // ---- what the fold computes, without naming it ----

  /**
   * A value a run may checkpoint: not past the run's start, at least a second below every row
   * whose write failed, and not past everything that was scanned.
   */
  ghost predicate MayCheckpoint(os: seq<Outcome>, runStart: int, cp: int) {
    cp <= runStart &&
    (forall o :: o in os && o.Broken? && o.wm.Some? ==> cp <= o.wm.value - 1000) &&
    exists o :: o in os && o.wm.Some? && cp <= o.wm.value
  }

  lemma {:induction false} FoldBounds(os: seq<Outcome>)
    ensures var f := FoldAll(EMPTY, os);
      && (f.maxSeen.None? <==> forall o :: o in os ==> o.wm.None?)
      && (forall o :: o in os && o.wm.Some? ==> f.maxSeen.Some? && o.wm.value <= f.maxSeen.value)
      && (f.maxSeen.Some? ==> exists o :: o in os && o.wm == f.maxSeen)
      && (forall o :: o in os && o.Broken? && o.wm.Some? ==> f.minFailed.Some? && f.minFailed.value <= o.wm.value)
      && (f.minFailed.Some? ==> exists o :: o in os && o.Broken? && o.wm == f.minFailed)
  {
    if os != [] {
      var rest, last := os[..|os| - 1], os[|os| - 1];
      FoldBounds(rest);
      assert os == rest + [last];
      assert forall o :: o in os <==> o in rest || o == last;
      var g, f := FoldAll(EMPTY, rest), FoldAll(EMPTY, os);
      if f.maxSeen.Some? && f.maxSeen == g.maxSeen {
        var o :| o in rest && o.wm == g.maxSeen;
        assert o in os;
      }
      if f.minFailed.Some? && f.minFailed == g.minFailed {
        var o :| o in rest && o.Broken? && o.wm == g.minFailed;
        assert o in os;
      }
    }
  }

  /** The checkpoint is the greatest value allowed, and absent only when nothing was scanned. */
  lemma ResultIsGreatestAllowed(os: seq<Outcome>, runStart: int)
    ensures var r := Result(FoldAll(EMPTY, os), runStart);
      && (r.None? <==> forall o :: o in os ==> o.wm.None?)
      && (r.Some? ==> MayCheckpoint(os, runStart, r.value)
                      && forall cp :: MayCheckpoint(os, runStart, cp) ==> cp <= r.value)
  {
    FoldBounds(os);
    var f := FoldAll(EMPTY, os);
    var r := Result(f, runStart);
    if r.Some? {
      var top :| top in os && top.wm == f.maxSeen;
      assert r.value <= top.wm.value;
      forall cp | MayCheckpoint(os, runStart, cp)
        ensures cp <= r.value
      {
        if f.minFailed.Some? {
          var o :| o in os && o.Broken? && o.wm == f.minFailed;
          assert cp <= o.wm.value - 1000;
        }
      }
    }
  }

  /** Rows settle in any order under the worker pool; the checkpoint does not depend on it. */
  lemma ResultIgnoresOrder(a: seq<Outcome>, b: seq<Outcome>, runStart: int)
    requires forall o :: o in a <==> o in b
    ensures Result(FoldAll(EMPTY, a), runStart) == Result(FoldAll(EMPTY, b), runStart)
  {
    ResultIsGreatestAllowed(a, runStart);
    ResultIsGreatestAllowed(b, runStart);
    forall cp
      ensures MayCheckpoint(a, runStart, cp) <==> MayCheckpoint(b, runStart, cp)
    {
    }
  }

  // ---- scan bound and floors ----

  /** Where a scan starts: a watermark pulled back by the lag, or the epoch. */
  function SinceBound(since: Option<int>, lag: int): int {
    if since.Some? then since.value - lag else 0
  }

  /** `--since`: absent (`None`), empty (`Some(None)`), or a time. */
  type Override = Option<Option<int>>

  function EffectiveSince(override: Override, stored: Option<int>): Option<int> {
    if override.Some? then override.value else stored
  }

  datatype Floors = Floors(gap: Option<int>, repair: Option<int>)

  function FloorsOf(override: Override, stored: Option<int>): Floors {
    if override.Some? && override.value.Some? && stored.Some? then
      Floors(if override.value.value > stored.value then stored else None,
             if override.value.value < stored.value then stored else None)
    else Floors(None, None)
  }

  /** The value a checkpoint writes, if it writes at all. */
  function Gate(floors: Floors, watermark: Option<int>): Option<int> {
    if watermark.None? then None
    else if floors.gap.Some? && watermark.value > floors.gap.value then None
    else if floors.repair.Some? && watermark.value < floors.repair.value then None
    else watermark
  }

  function Written(stored: Option<int>, gate: Option<int>): Option<int> {
    if gate.Some? then gate else stored
  }

  /**
   * What a `--since` run must not store, said with the override and the watermark `base` stored when the
   * run started: nothing past `base` if rows between the two were skipped, nothing before `base` if the
   * run repeats rows behind it.
   */
  predicate HeldBack(override: Override, base: Option<int>, w: int) {
    match (override, base)
    case (Some(Some(since)), Some(b)) => (since > b && w > b) || (since < b && w < b)
    case _ => false
  }

  predicate LetThrough(override: Override, base: Option<int>, watermark: Option<int>) {
    watermark != None && !HeldBack(override, base, watermark.value)
  }

  lemma GateMeaning(override: Override, base: Option<int>, watermark: Option<int>)
    ensures Gate(FloorsOf(override, base), watermark)
         == if LetThrough(override, base, watermark) then watermark else None
  {
  }

  /** The `sync_state` row of one syncer, and the floors captured when its run started. */
  class SyncState {
    var stored: Option<int>
    const floors: Floors
    const dryRun: bool

    /** how the run was started: its `--since` and what was stored then */
    ghost const override: Override
    ghost const base: Option<int>

    ghost predicate Valid() { floors == FloorsOf(override, base) }

    constructor (stored: Option<int>, override: Override, dryRun: bool)
      ensures this.stored == stored && this.dryRun == dryRun
      ensures Valid() && this.override == override && this.base == stored
    {
      this.stored, this.floors, this.dryRun := stored, FloorsOf(override, stored), dryRun;
      this.override, this.base := override, stored;
    }

    /** `owned` is the answer of the lock heartbeat; without the lock nothing is written. */
    method Checkpoint(watermark: Option<int>, owned: bool) returns (lockLost: bool)
      requires Valid()
      modifies this`stored
      ensures lockLost <==> !dryRun && !owned && LetThrough(override, base, watermark)
      ensures !dryRun && owned && LetThrough(override, base, watermark) ==> stored == watermark
      ensures dryRun || !owned || !LetThrough(override, base, watermark) ==> stored == old(stored)
      ensures lockLost <==> !dryRun && Gate(floors, watermark).Some? && !owned
      ensures stored == if dryRun || lockLost then old(stored) else Written(old(stored), Gate(floors, watermark))
    {
      GateMeaning(override, base, watermark);
      lockLost := false;
      if dryRun || watermark.None? { return; }
      if floors.gap.Some? && watermark.value > floors.gap.value { return; }
      if floors.repair.Some? && watermark.value < floors.repair.value { return; }
      if !owned { return true; }
      stored := watermark;
    }
  }

  /** The stored watermark after the checkpoints of a run, one after another. */
  function WrittenAll(floors: Floors, stored: Option<int>, watermarks: seq<Option<int>>): Option<int> {
    if watermarks == [] then stored
    else
      var n := |watermarks| - 1;
      Written(WrittenAll(floors, stored, watermarks[..n]), Gate(floors, watermarks[n]))
  }

  lemma WrittenOneMore(floors: Floors, stored: Option<int>, watermarks: seq<Option<int>>, watermark: Option<int>)
    ensures WrittenAll(floors, stored, watermarks + [watermark])
         == Written(WrittenAll(floors, stored, watermarks), Gate(floors, watermark))
  {
    assert (watermarks + [watermark])[..|watermarks|] == watermarks;
  }

  /**
   * A `--since` newer than the stored watermark never moves it forward and an older one never moves it
   * back, however many checkpoints the run makes and whatever they carry; and what is stored at the end
   * is what was stored or one of the values carried.
   */
  lemma {:induction false} FloorsHold(override: Override, stored: Option<int>, watermarks: seq<Option<int>>)
    requires override.Some? && override.value.Some? && stored.Some?
    ensures var s := WrittenAll(FloorsOf(override, stored), stored, watermarks);
      && s.Some? && (s == stored || s in watermarks)
      && (override.value.value > stored.value ==> s.value <= stored.value)
      && (override.value.value < stored.value ==> s.value >= stored.value)
  {
    if watermarks != [] {
      var n := |watermarks| - 1;
      FloorsHold(override, stored, watermarks[..n]);
      assert watermarks[n] in watermarks;
      assert forall x :: x in watermarks[..n] ==> x in watermarks;
    }
  }

  /** The value stored after the checkpoints `ws`: the last one let through, or else what was stored. */
  ghost predicate LastLetThrough(override: Override, base: Option<int>, stored: Option<int>, ws: seq<Option<int>>,
      s: Option<int>) {
    || (s == stored && forall j :: 0 <= j < |ws| ==> !LetThrough(override, base, ws[j]))
    || exists i :: 0 <= i < |ws| && s == ws[i] && LetThrough(override, base, ws[i]) &&
         forall j :: i < j < |ws| ==> !LetThrough(override, base, ws[j])
  }

  /** A run stores its last checkpoint that is not held back, and every one that is not held back counts. */
  lemma {:induction false} LastCheckpointStays(override: Override, base: Option<int>, stored: Option<int>,
                                               ws: seq<Option<int>>)
    ensures LastLetThrough(override, base, stored, ws, WrittenAll(FloorsOf(override, base), stored, ws))
  {
    if ws != [] {
      var n := |ws| - 1;
      LastCheckpointStays(override, base, stored, ws[..n]);
      GateMeaning(override, base, ws[n]);
    }
  }
}
