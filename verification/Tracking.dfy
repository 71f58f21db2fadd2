/**
 Real time: how far a workload can lag behind the verdict of the moment when passes take time
 and read the clock twice, some patches fail, and each pass is timed by the one before.
 */
module Tracking {
  import opened Options
  import opened Decimal
  import opened Workloads
  import opened Window
  import opened Daily
  import opened WakeRequests
  import opened Verdicts

  /** One pass: when it read the clock for the schedule and for the requests, when its patch of
      this workload was sent, whether that landed, and when it asked to be called again. */
  datatype TimedPass = TimedPass(scheduleRead: int, wakesRead: int, patched: int, done: int, landed: bool)

  /** The verdict and the deadline the pass acts on. */
  function Acted(i: Inputs, pass: TimedPass): WindowState { EffectiveAt(i, pass.scheduleRead, pass.wakesRead) }

  /** No pass takes longer than latency, passes do not overlap, and each comes no later than the
      one before asked for. It may come sooner, for any reason. */
  ghost predicate TimedRun(i: Inputs, latency: int, run: seq<TimedPass>) {
    && Valid(i)
    && (forall k :: 0 <= k < |run| ==> Takes(latency, run[k]))
    && (forall k :: 0 <= k < |run| - 1 ==> OnTime(i, run, k))
  }

  predicate Takes(latency: int, pass: TimedPass) {
    ZERO_TIME <= pass.scheduleRead <= pass.wakesRead <= pass.patched <= pass.done <= pass.scheduleRead + latency
  }

  predicate OnTime(i: Inputs, run: seq<TimedPass>, k: int)
    requires 0 <= k < |run| - 1
  {
    var a, b := run[k], run[k + 1];
    a.done <= b.scheduleRead <= a.done + RequeueAfter(a.done, Acted(i, a).next)
  }

  /** The workload from the patch of pass k until the patch of the next one. */
  function StateAfter(p: Policy, hpaOwned: bool, i: Inputs, initial: Workload, run: seq<TimedPass>, k: nat): Workload
    requires k < |run|
  {
    var before := if k == 0 then initial else StateAfter(p, hpaOwned, i, initial, run, k - 1);
    if run[k].landed then Step(p, Acted(i, run[k]).asleep, hpaOwned, before) else before
  }

  lemma {:induction false} StateIsTracked(p: Policy, hpaOwned: bool, i: Inputs, n: int32,
                                          initial: Workload, run: seq<TimedPass>, k: nat)
    requires k < |run| && Tracked(n, initial) && !p.LeavesToHpa(hpaOwned)
    ensures var d := StateAfter(p, hpaOwned, i, initial, run, k);
            && Tracked(n, d)
            && (run[k].landed ==> InPlace(p, Acted(i, run[k]).asleep, n, d))
  {
    if k > 0 {
      StateIsTracked(p, hpaOwned, i, n, initial, run, k - 1);
    }
    if run[k].landed {
      var before := if k == 0 then initial else StateAfter(p, hpaOwned, i, initial, run, k - 1);
      StepPutsInPlace(p, Acted(i, run[k]).asleep, hpaOwned, n, before);
    }
  }

  // ----- When the verdict changes -----

  predicate Flips(i: Inputs, b: int) { Effective(i, b).asleep != Effective(i, b - 1).asleep }

  predicate FlippedSince(i: Inputs, since: int, t: int) { exists b :: since < b <= t && Flips(i, b) }

  lemma {:induction false} ChangeMeansAFlip(i: Inputs, first: int, last: int) returns (b: int)
    requires first < last && Effective(i, first).asleep != Effective(i, last).asleep
    ensures first < b <= last && Flips(i, b)
    decreases last - first
  {
    if Flips(i, last) {
      b := last;
    } else {
      b := ChangeMeansAFlip(i, first, last - 1);
    }
  }

  lemma FlipsWaitForTheDeadline(i: Inputs, now: int, b: int)
    requires Valid(i) && ZERO_TIME <= now < b && Flips(i, b)
    ensures Effective(i, now).next <= b
  {
    if b < Effective(i, now).next {
      NothingChangesBeforeTheDeadline(i, now, b - 1);
      NothingChangesBeforeTheDeadline(i, now, b);
    }
  }

  /** If the verdict at t is not the one the pass acted on, it flipped at or after the deadline
      the pass announced, unless the pass misread the clock across that deadline. */
  lemma StaleVerdictMeansAFlip(i: Inputs, latency: int, pass: TimedPass, t: int)
    requires Valid(i) && Takes(latency, pass) && pass.wakesRead <= t
    requires Effective(i, t).asleep != Acted(i, pass).asleep
    ensures var next := Acted(i, pass).next;
            || (exists b :: next <= b <= t && Flips(i, b))
            || (Misleads(i, pass.scheduleRead, pass.wakesRead)
                && pass.scheduleRead < next <= pass.wakesRead && Boundary(i.schedule, next))
  {
    var s, w := pass.scheduleRead, pass.wakesRead;
    var n := EvaluateWindow(i.schedule, s).next;
    if w < n {
      TwoReadingsActAsOne(i, s, w);
      var b := ChangeMeansAFlip(i, w, t);
      FlipsWaitForTheDeadline(i, w, b);
    } else {
      DeadlineAcrossABoundary(i, s, w);
      if Acted(i, pass).asleep == Effective(i, w).asleep {
        var b := ChangeMeansAFlip(i, w, t);
      } else if Acted(i, pass).asleep == Effective(i, s).asleep {
        VerdictHoldsUntilNext(i.schedule, s, n - 1);
        HoldingShrinks(i.requests, i.maxWake, s, n - 1);
        var b := ChangeMeansAFlip(i, n - 1, t);
      }
    }
  }

  /** With a boundary between the readings the first such boundary is the deadline: a request that
      is active at the second reading expires later. */
  lemma DeadlineAcrossABoundary(i: Inputs, s: int, w: int)
    requires Valid(i) && ZERO_TIME <= s && EvaluateWindow(i.schedule, s).next <= w
    ensures EffectiveAt(i, s, w).next == EvaluateWindow(i.schedule, s).next > s
    ensures Boundary(i.schedule, EvaluateWindow(i.schedule, s).next)
  {
    ForwardReadsTheNextBoundary(i.schedule, s);
    ZeroMeansNoneActive(i.requests, i.maxWake, w);
  }

  // ----- When the next patch comes -----

  /** The margin, or the time a pass can spend past the boundary and the floor that follows, and
      the time the next pass may take to reach this workload. */
  function Lag(latency: int): int {
    (if 5 * SECOND < latency + SECOND then latency + SECOND else 5 * SECOND) + latency
  }

  /** When the next patch is sent, counted from the deadline the pass announced. */
  lemma NextPatchIsSoon(i: Inputs, latency: int, run: seq<TimedPass>, k: nat)
    requires TimedRun(i, latency, run) && k + 1 < |run|
    ensures run[k + 1].patched <= Acted(i, run[k]).next + Lag(latency)
  {
    assert OnTime(i, run, k) && Takes(latency, run[k]) && Takes(latency, run[k + 1]);
    TimerIsAClampedWait(run[k].done, Acted(i, run[k]).next);
    ZeroMeansNoneActive(i.requests, i.maxWake, run[k].wakesRead);
  }

  /** What a patch that does not land adds to the lag: the timer's longest wait, because the pass
      still reports success, and the time two passes take. */
  function Retry(latency: int): int { 10 * 60 * SECOND + 2 * latency }

  /** Pass k is the last one before t whose patch landed; misses more have tried since. */
  predicate MissedSince(run: seq<TimedPass>, k: nat, misses: nat, t: int) {
    && k + misses + 1 < |run|
    && run[k].landed
    && (forall j :: k < j <= k + misses ==> !run[j].landed)
    && run[k + misses].patched <= t < run[k + misses + 1].patched
  }

  lemma PatchesComeInTurn(i: Inputs, latency: int, run: seq<TimedPass>, k: nat)
    requires TimedRun(i, latency, run) && k + 1 < |run|
    ensures run[k].patched <= run[k + 1].patched <= run[k].patched + Retry(latency)
  {
    assert OnTime(i, run, k) && Takes(latency, run[k]) && Takes(latency, run[k + 1]);
  }

  /** Every instant from the first landed patch to the last pass has a last landed patch. */
  lemma SomePatchLandedLast(i: Inputs, latency: int, run: seq<TimedPass>, first: nat, t: int)
    returns (k: nat, misses: nat)
    requires TimedRun(i, latency, run) && first + 1 < |run| && run[first].landed
    requires run[first].patched <= t < run[|run| - 1].patched
    ensures MissedSince(run, k, misses, t)
  {
    var j := first;
    k, misses := first, 0;
    while t >= run[j + 1].patched
      invariant first <= j < |run| - 1 && run[j].patched <= t
      invariant k + misses == j && run[k].landed && forall l :: k < l <= j ==> !run[l].landed
      decreases |run| - j
    {
      j := j + 1;
      if run[j].landed {
        k, misses := j, 0;
      } else {
        misses := misses + 1;
      }
    }
  }

  lemma {:induction false} MissesDelayThePatch(i: Inputs, latency: int, run: seq<TimedPass>, k: nat, misses: nat)
    requires TimedRun(i, latency, run) && k + misses + 1 < |run|
    ensures run[k].patched <= run[k + misses].patched
    ensures run[k + misses + 1].patched <= Acted(i, run[k]).next + Lag(latency) + misses * Retry(latency)
  {
    if misses == 0 {
      NextPatchIsSoon(i, latency, run, k);
    } else {
      MissesDelayThePatch(i, latency, run, k, misses - 1);
      PatchesComeInTurn(i, latency, run, k + misses - 1);
      PatchesComeInTurn(i, latency, run, k + misses);
      OneMoreRetry(misses, Retry(latency));
    }
  }

  lemma OneMoreRetry(misses: int, retry: int)
    ensures misses * retry == (misses - 1) * retry + retry
  {
  }

  lemma {:induction false} MissesChangeNothing(p: Policy, hpaOwned: bool, i: Inputs, initial: Workload,
                                               run: seq<TimedPass>, k: nat, misses: nat)
    requires k + misses < |run| && forall j :: k < j <= k + misses ==> !run[j].landed
    ensures StateAfter(p, hpaOwned, i, initial, run, k + misses) == StateAfter(p, hpaOwned, i, initial, run, k)
  {
    if misses > 0 {
      MissesChangeNothing(p, hpaOwned, i, initial, run, k, misses - 1);
    }
  }

  // ----- The bound -----

  /** At every instant after a landed patch, however many patches have failed since, the workload
      is where the verdict of that very instant puts it (asleep, at the minimum with its size on
      record; awake, at its size with no bookkeeping left), unless the verdict flipped within the
      lag and the retries. The one other excuse is that the landed pass acted on a verdict of
      neither of its readings, and then a boundary lay between those, just as recently. */
  lemma WorkloadsTrackTheVerdict(p: Policy, hpaOwned: bool, i: Inputs, latency: int, n: int32,
                                 initial: Workload, run: seq<TimedPass>, k: nat, misses: nat, t: int)
    requires TimedRun(i, latency, run) && Tracked(n, initial) && !p.LeavesToHpa(hpaOwned)
    requires MissedSince(run, k, misses, t)
    ensures var since := t - Lag(latency) - misses * Retry(latency);
            || InPlace(p, Effective(i, t).asleep, n, StateAfter(p, hpaOwned, i, initial, run, k + misses))
            || FlippedSince(i, since, t)
            || (Misleads(i, run[k].scheduleRead, run[k].wakesRead)
                && exists b :: since < b && run[k].scheduleRead < b <= run[k].wakesRead && Boundary(i.schedule, b))
  {
    StateIsTracked(p, hpaOwned, i, n, initial, run, k);
    MissesChangeNothing(p, hpaOwned, i, initial, run, k, misses);
    MissesDelayThePatch(i, latency, run, k, misses);
    if Effective(i, t).asleep != Acted(i, run[k]).asleep {
      StaleVerdictMeansAFlip(i, latency, run[k], t);
    }
  }

  /** If passes take no time to speak of and patches land, the lag is the timer's five-second
      margin, and flips are the only excuse. */
  lemma InstantPassesLagByTheMargin(p: Policy, hpaOwned: bool, i: Inputs, n: int32,
                                    initial: Workload, run: seq<TimedPass>, k: nat, t: int)
    requires TimedRun(i, 0, run) && Tracked(n, initial) && !p.LeavesToHpa(hpaOwned)
    requires k + 1 < |run| && run[k].landed && run[k].patched <= t < run[k + 1].patched
    requires !FlippedSince(i, t - 5 * SECOND, t)
    ensures InPlace(p, Effective(i, t).asleep, n, StateAfter(p, hpaOwned, i, initial, run, k))
  {
    assert run[k].scheduleRead == run[k].wakesRead by {
      assert Takes(0, run[k]);
    }
    assert t - Lag(0) - 0 * Retry(0) == t - 5 * SECOND;
    WorkloadsTrackTheVerdict(p, hpaOwned, i, 0, n, initial, run, k, 0, t);
  }

  // ----- Why the second excuse is there -----

  /** Asleep from minute 0 to minute 50 of every hundred, and a request that lasts to minute 150. */
  function HeldToTheWake(): Inputs {
    Inputs(Schedule(Periodic(0, 100 * MINUTE), Periodic(50 * MINUTE, 100 * MINUTE)),
           [Request("late", 110 * MINUTE, Some(40 * MINUTE))], 40 * MINUTE)
  }

  lemma TheRequestHolds(t: int)
    ensures var i := HeldToTheWake(); Holding(i, t) == if t < 150 * MINUTE then [150 * MINUTE] else []
  {
    var r := HeldToTheWake().requests[0];
    assert [r][..0] == [];
    assert ActiveExpiries([], 40 * MINUTE, t) == [];
    assert ActiveExpiries([r], 40 * MINUTE, t) == if t < 150 * MINUTE then [150 * MINUTE] else [];
  }

  lemma TheScheduleWakes()
    ensures var s, w := HeldToTheWake().schedule, 150 * MINUTE;
            && Recurs(s)
            && EvaluateWindow(s, w - 1) == WindowState(true, w)
            && EvaluateWindow(s, w) == WindowState(false, w + 50 * MINUTE)
  {
    PeriodicRecurs(0, 100 * MINUTE);
    PeriodicRecurs(50 * MINUTE, 100 * MINUTE);
  }

  /** The pass that reads the clock on both sides of minute 150, and the one after it. */
  function AcrossTheWake(): seq<TimedPass> {
    var w, later := 150 * MINUTE, 150 * MINUTE + MARGIN;
    [TimedPass(w - 1, w, w, w, true), TimedPass(later, later, later, later, true)]
  }

  lemma ItMisleads()
    ensures var i, w := HeldToTheWake(), 150 * MINUTE;
            && Acted(i, AcrossTheWake()[0]) == WindowState(true, w)
            && Misleads(i, w - 1, w) && !Effective(i, w).asleep
  {
    TheScheduleWakes();
    TheRequestHolds(150 * MINUTE - 1);
    TheRequestHolds(150 * MINUTE);
  }

  lemma AwakeAllAlong()
    ensures !FlippedSince(HeldToTheWake(), 140 * MINUTE, 150 * MINUTE)
  {
    ItMisleads();
    forall t | 140 * MINUTE <= t < 150 * MINUTE ensures !Effective(HeldToTheWake(), t).asleep {
      TheRequestHolds(t);
    }
  }

  /** That pass puts the workload to sleep, although the namespace is awake at both instants and no
      verdict has flipped for ten minutes. */
  lemma AwakeYetPutToSleep(p: Policy, hpaOwned: bool, n: int32, initial: Workload)
    requires Tracked(n, initial) && !p.LeavesToHpa(hpaOwned)
    ensures var i, run, w := HeldToTheWake(), AcrossTheWake(), 150 * MINUTE;
            && TimedRun(i, 1, run) && MissedSince(run, 0, 0, w)
            && Misleads(i, w - 1, w)
            && !InPlace(p, Effective(i, w).asleep, n, StateAfter(p, hpaOwned, i, initial, run, 0))
            && !FlippedSince(i, w - 10 * MINUTE, w)
  {
    TheScheduleWakes();
    ItMisleads();
    AwakeAllAlong();
    StateIsTracked(p, hpaOwned, HeldToTheWake(), n, initial, AcrossTheWake(), 0);
  }
}
