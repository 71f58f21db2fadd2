/**
 Where wake requests and manual scaling meet: a request granted in the middle of a sleep ends the
 truce with a workload somebody scaled by hand.
 */
module Interplay {
  import opened Options
  import opened Decimal
  import opened Workloads
  import opened Runs
  import opened Window
  import opened Daily
  import opened WakeRequests
  import opened Verdicts

  /** The two clock readings a pass acts on. */
  datatype Reading = Reading(scheduleNow: int, wakesNow: int)

  /** The pass reads the schedule during the sleep that start lies in, and acts on what it reads. */
  ghost predicate During(i: Inputs, start: int, read: Reading, pass: Pass) {
    && start <= read.scheduleNow < EvaluateWindow(i.schedule, start).next
    && pass.asleep == EffectiveAt(i, read.scheduleNow, read.wakesNow).asleep
  }

  lemma AsleepUnlessHeld(i: Inputs, start: int, read: Reading, pass: Pass)
    requires Valid(i) && EvaluateWindow(i.schedule, start).asleep && During(i, start, read, pass)
    ensures pass.asleep <==> Holding(i, read.wakesNow) == []
  {
    VerdictHoldsUntilNext(i.schedule, start, read.scheduleNow);
  }

  /** For the remainder of a sleep a hand-scaled workload is left alone exactly when it has no saved
      size to drop, or no pass governs it at a time when a request holds the namespace awake. */
  lemma ManualSizeStandsForTheSleepIff(i: Inputs, start: int, readings: seq<Reading>,
                                       ns: Namespace, run: seq<Happening>, name: string)
    requires Valid(i) && EvaluateWindow(i.schedule, start).asleep
    requires name in ns && ManuallyChanged(ns[name]) && Respectful(run) && |readings| == |run|
    requires forall k :: 0 <= k < |run| ==> During(i, start, readings[k], run[k].pass)
    ensures StandsThroughout(ns, run, name)
            <==> || SavedReplicas !in ns[name].annotations
                 || forall k :: 0 <= k < |run| && run[k].pass.Governs(name) ==> Holding(i, readings[k].wakesNow) == []
  {
    forall k | 0 <= k < |run| ensures run[k].pass.asleep <==> Holding(i, readings[k].wakesNow) == [] {
      AsleepUnlessHeld(i, start, readings[k], run[k].pass);
    }
    ManualSizeStandsIff(ns, run, name);
  }

  /** The size chosen by hand does not outlive the request: when the last one has lapsed, the same
      window scales the workload to the minimum in the same sleep. */
  lemma WakeRequestEndsTheTruce(i: Inputs, start: int, first: Reading, second: Reading,
                                ns: Namespace, wake: Pass, sleep: Pass, name: string)
    requires Valid(i) && EvaluateWindow(i.schedule, start).asleep
    requires During(i, start, first, wake) && During(i, start, second, sleep)
    requires Holding(i, first.wakesNow) != [] && Holding(i, second.wakesNow) == []
    requires wake.Governs(name) && sleep.Governs(name) && wake.policy.Respects()
    requires name in ns && ManuallyChanged(ns[name]) && SavedReplicas in ns[name].annotations
    ensures var d := AfterPass(AfterPass(ns, wake), sleep)[name];
            Current(d) == sleep.policy.Min() && Saved(d) == Some(Current(ns[name]))
    ensures PhaseOf(EvaluateWindow(i.schedule, first.scheduleNow),
                    EffectiveAt(i, first.scheduleNow, first.wakesNow)) == WakeRequested
    ensures PhaseOf(EvaluateWindow(i.schedule, second.scheduleNow),
                    EffectiveAt(i, second.scheduleNow, second.wakesNow)) == Asleep
  {
    AsleepUnlessHeld(i, start, first, wake);
    AsleepUnlessHeld(i, start, second, sleep);
    VerdictHoldsUntilNext(i.schedule, start, first.scheduleNow);
    VerdictHoldsUntilNext(i.schedule, start, second.scheduleNow);
    PhaseSaysWhy(i, first.scheduleNow, first.wakesNow);
    PhaseSaysWhy(i, second.scheduleNow, second.wakesNow);
    assert AfterPass(ns, wake)[name] == Forgotten(ns[name]);
    ForgottenReads(ns[name]);
    ScaledToReads(sleep.policy, Forgotten(ns[name]), sleep.policy.Min(), Current(ns[name]));
  }

  // ----- A night with one window, one workload and one request -----

  /** Asleep from minute 0 to minute 50 of every hundred, and a request that lasts from minute 10
      to minute 20. */
  function ShortRequest(): Inputs {
    Inputs(Schedule(Periodic(0, 100 * MINUTE), Periodic(50 * MINUTE, 100 * MINUTE)),
           [Request("short", 10 * MINUTE, Some(10 * MINUTE))], 60 * MINUTE)
  }

  lemma TheNightAndTheRequest()
    ensures var i := ShortRequest();
            && Valid(i) && EvaluateWindow(i.schedule, 5 * MINUTE) == WindowState(true, 50 * MINUTE)
            && Holding(i, 12 * MINUTE) == [20 * MINUTE] && Holding(i, 21 * MINUTE) == []
  {
    PeriodicRecurs(0, 100 * MINUTE);
    PeriodicRecurs(50 * MINUTE, 100 * MINUTE);
    var r := ShortRequest().requests[0];
    assert [r][..0] == [];
    assert ActiveExpiries([r], 60 * MINUTE, 12 * MINUTE) == [20 * MINUTE];
    assert ActiveExpiries([r], 60 * MINUTE, 21 * MINUTE) == [];
  }

  /** A workload of three replicas put to sleep at none and scaled to five by hand at minute 5 is
      scaled to none again by the pass at minute 21, half an hour before the sleep is over, because
      of the pass at minute 12. */
  lemma FiveByHandAreGoneInTheSameSleep()
    ensures var i, p := ShortRequest(), Policy("nights", None, Some(true), Warn);
            var d := ScaledTo(p, Workload(Some(3), map[]), 0, 3).(replicas := Some(5));
            var wake := Pass(p, Effective(i, 12 * MINUTE).asleep, true, {"web"}, {}, {"web"});
            var sleep := wake.(asleep := Effective(i, 21 * MINUTE).asleep);
            var after := AfterPass(AfterPass(map["web" := d], wake), sleep);
            && EvaluateWindow(i.schedule, 5 * MINUTE) == WindowState(true, 50 * MINUTE)
            && ManuallyChanged(d) && Owed(d) == 5
            && "web" in after && Current(after["web"]) == 0
  {
    var i, p := ShortRequest(), Policy("nights", None, Some(true), Warn);
    var d := ScaledTo(p, Workload(Some(3), map[]), 0, 3).(replicas := Some(5));
    var wake := Pass(p, Effective(i, 12 * MINUTE).asleep, true, {"web"}, {}, {"web"});
    var sleep := wake.(asleep := Effective(i, 21 * MINUTE).asleep);
    TheNightAndTheRequest();
    CountsReadBack(d.annotations, AppliedReplicas, 0);
    WakeRequestEndsTheTruce(i, 5 * MINUTE, Reading(12 * MINUTE, 12 * MINUTE), Reading(21 * MINUTE, 21 * MINUTE),
                            map["web" := d], wake, sleep, "web");
  }
}
