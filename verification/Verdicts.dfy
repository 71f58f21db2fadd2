/**
 The schedule and the wake requests put together: the verdict a pass acts on, and the deadline
 it sleeps until.
 */
module Verdicts {
  import opened Options
  import opened Window
  import opened WakeRequests

  /** A live request outranks the schedule, and the first to lapse moves the deadline up. */
  function Merge(state: WindowState, wakes: WakeState): WindowState {
    WindowState(
      state.asleep && wakes.active == 0,
      if wakes.earliestExpiry != ZERO_TIME && wakes.earliestExpiry < state.next then wakes.earliestExpiry
      else state.next)
  }

  /** The spec and the requests a pass evaluates. */
  datatype Inputs = Inputs(schedule: Schedule, requests: seq<Request>, maxWake: int)

  /** The pass reads the clock twice, once for the schedule and once for the requests. */
  function EffectiveAt(i: Inputs, scheduleNow: int, wakesNow: int): WindowState {
    Merge(EvaluateWindow(i.schedule, scheduleNow), WakeStateOf(i.requests, i.maxWake, wakesNow))
  }

  function Effective(i: Inputs, now: int): WindowState { EffectiveAt(i, now, now) }

  function Holding(i: Inputs, now: int): seq<int> { ActiveExpiries(i.requests, i.maxWake, now) }

  ghost predicate Valid(i: Inputs) { Recurs(i.schedule) }

  /** Unless the schedule has a boundary between the two readings, they act as one. */
  lemma TwoReadingsActAsOne(i: Inputs, scheduleNow: int, wakesNow: int)
    requires Valid(i) && scheduleNow <= wakesNow < EvaluateWindow(i.schedule, scheduleNow).next
    ensures EffectiveAt(i, scheduleNow, wakesNow) == Effective(i, wakesNow)
  {
    VerdictHoldsUntilNext(i.schedule, scheduleNow, wakesNow);
  }

  /** A pass with these readings acts on a verdict that holds at neither of them. */
  predicate Misleads(i: Inputs, scheduleNow: int, wakesNow: int) {
    var verdict := EffectiveAt(i, scheduleNow, wakesNow).asleep;
    verdict != Effective(i, scheduleNow).asleep && verdict != Effective(i, wakesNow).asleep
  }

  /** That happens exactly when the schedule wakes and the last request lapses between the two
      readings: then the pass sleeps although both instants say awake. */
  lemma TwoReadingsMisleadIff(i: Inputs, scheduleNow: int, wakesNow: int)
    ensures Misleads(i, scheduleNow, wakesNow)
            <==> && EvaluateWindow(i.schedule, scheduleNow).asleep && !EvaluateWindow(i.schedule, wakesNow).asleep
                 && Holding(i, scheduleNow) != [] && Holding(i, wakesNow) == []
  {
  }

  // ----- How the set of holding requests shrinks -----

  function LaterThan(expiries: seq<int>, t: int): seq<int> {
    if expiries == [] then []
    else
      var last := expiries[|expiries| - 1];
      LaterThan(expiries[..|expiries| - 1], t) + if last > t then [last] else []
  }

  lemma {:induction false} LaterThanElements(expiries: seq<int>, t: int)
    ensures |LaterThan(expiries, t)| <= |expiries|
    ensures forall e :: e in LaterThan(expiries, t) <==> e in expiries && e > t
    ensures (exists e :: e in expiries && e <= t) ==> |LaterThan(expiries, t)| < |expiries|
    ensures (forall e :: e in expiries ==> e > t) ==> LaterThan(expiries, t) == expiries
  {
    if expiries != [] {
      var front, last := expiries[..|expiries| - 1], expiries[|expiries| - 1];
      LaterThanElements(front, t);
      assert expiries == front + [last];
      assert forall e :: e in expiries <==> e in front || e == last;
      if (forall e :: e in expiries ==> e > t) {
        assert last in expiries;
        assert LaterThan(front, t) == front;
      }
    }
  }

  /** As time goes on with the request list fixed, requests only drop out, each at its expiry. */
  lemma {:induction false} HoldingShrinks(requests: seq<Request>, maxWake: int, now: int, t: int)
    requires now <= t
    ensures ActiveExpiries(requests, maxWake, t) == LaterThan(ActiveExpiries(requests, maxWake, now), t)
  {
    if requests != [] {
      var front, last := requests[..|requests| - 1], Classify(requests[|requests| - 1], maxWake, now);
      HoldingShrinks(front, maxWake, now, t);
      var before := ActiveExpiries(front, maxWake, now);
      if last.phase == Active {
        assert (before + [last.expiresAt])[..|before|] == before;
      } else {
        assert before + [] == before;
        assert LaterThan(before, t) + [] == LaterThan(before, t);
      }
    }
  }

  // ----- The deadline is sound -----

  lemma DeadlineIsAhead(i: Inputs, now: int)
    requires Valid(i) && now >= ZERO_TIME
    ensures Effective(i, now).next > now
  {
    ZeroMeansNoneActive(i.requests, i.maxWake, now);
  }

  /** Nothing the pass acts on changes before the deadline it announces: not the schedule's
      verdict, not the requests holding, not the merged verdict, not the deadline. */
  lemma NothingChangesBeforeTheDeadline(i: Inputs, now: int, t: int)
    requires Valid(i) && now >= ZERO_TIME && now <= t < Effective(i, now).next
    ensures EvaluateWindow(i.schedule, t) == EvaluateWindow(i.schedule, now)
    ensures Holding(i, t) == Holding(i, now)
    ensures Effective(i, t) == Effective(i, now)
  {
    VerdictHoldsUntilNext(i.schedule, now, t);
    HoldingShrinks(i.requests, i.maxWake, now, t);
    var held := Holding(i, now);
    ZeroMeansNoneActive(i.requests, i.maxWake, now);
    if held != [] {
      EarliestIsTheLeast(held);
    }
    LaterThanElements(held, t);
  }

  // ----- Back to sleep when the last request lapses -----

  function LastExpiry(expiries: seq<int>): int
    requires expiries != []
  {
    var last, front := expiries[|expiries| - 1], expiries[..|expiries| - 1];
    if front == [] || last > LastExpiry(front) then last else LastExpiry(front)
  }

  lemma {:induction false} LastExpiryIsTheGreatest(expiries: seq<int>)
    requires expiries != []
    ensures LastExpiry(expiries) in expiries
    ensures forall e :: e in expiries ==> e <= LastExpiry(expiries)
  {
    var front, last := expiries[..|expiries| - 1], expiries[|expiries| - 1];
    assert expiries == front + [last];
    if front != [] {
      LastExpiryIsTheGreatest(front);
    }
  }

  lemma NoneLaterIff(expiries: seq<int>, t: int)
    requires expiries != []
    ensures LaterThan(expiries, t) == [] <==> t >= LastExpiry(expiries)
  {
    LaterThanElements(expiries, t);
    LastExpiryIsTheGreatest(expiries);
    if LaterThan(expiries, t) != [] {
      assert LaterThan(expiries, t)[0] in LaterThan(expiries, t);
    }
  }

  /** While the schedule stays asleep, the namespace is asleep exactly from the last expiry on. */
  lemma AsleepExactlyFromTheLastExpiry(i: Inputs, now: int, t: int)
    requires Valid(i) && now >= ZERO_TIME
    requires EvaluateWindow(i.schedule, now).asleep && Holding(i, now) != []
    requires now <= t < EvaluateWindow(i.schedule, now).next
    ensures Effective(i, t).asleep <==> t >= LastExpiry(Holding(i, now))
  {
    VerdictHoldsUntilNext(i.schedule, now, t);
    HoldingShrinks(i.requests, i.maxWake, now, t);
    NoneLaterIff(Holding(i, now), t);
  }

  /** The deadlines a pass at now leads to, one after the other. */
  function Deadline(i: Inputs, now: int, k: nat): int
    decreases k
  {
    if k == 0 then now else Deadline(i, Effective(i, now).next, k - 1)
  }

  /** Going from deadline to deadline ends at the last expiry, on the dot, in at most as many steps
      as there are active requests; before that every deadline is awake and drops a request. */
  lemma {:induction false} DeadlinesReachTheLastExpiry(i: Inputs, now: int) returns (k: nat)
    requires Valid(i) && now >= ZERO_TIME
    requires EvaluateWindow(i.schedule, now).asleep && Holding(i, now) != []
    requires LastExpiry(Holding(i, now)) < EvaluateWindow(i.schedule, now).next
    ensures 1 <= k <= |Holding(i, now)|
    ensures Deadline(i, now, k) == LastExpiry(Holding(i, now))
    ensures Effective(i, Deadline(i, now, k)).asleep
    ensures forall j :: 0 <= j < k ==>
              && !Effective(i, Deadline(i, now, j)).asleep
              && |Holding(i, Deadline(i, now, j + 1))| < |Holding(i, Deadline(i, now, j))|
    decreases |Holding(i, now)|
  {
    var held, next := Holding(i, now), Effective(i, now).next;
    FirstExpiryIsNext(i, now);
    if Holding(i, next) == [] {
      k := 1;
      AsleepExactlyFromTheLastExpiry(i, now, next);
    } else {
      var rest := DeadlinesReachTheLastExpiry(i, next);
      k := rest + 1;
      forall j | 0 <= j < k
        ensures !Effective(i, Deadline(i, now, j)).asleep
        ensures |Holding(i, Deadline(i, now, j + 1))| < |Holding(i, Deadline(i, now, j))|
      {
        if j > 0 {
          assert Deadline(i, now, j) == Deadline(i, next, j - 1);
          assert Deadline(i, now, j + 1) == Deadline(i, next, (j - 1) + 1);
        }
      }
    }
  }

  /** One step: the next deadline is the earliest expiry, the schedule is still asleep there, and
      the requests left are the ones that expire later. */
  lemma FirstExpiryIsNext(i: Inputs, now: int)
    requires Valid(i) && now >= ZERO_TIME
    requires EvaluateWindow(i.schedule, now).asleep && Holding(i, now) != []
    requires LastExpiry(Holding(i, now)) < EvaluateWindow(i.schedule, now).next
    ensures var held, next := Holding(i, now), Effective(i, now).next;
            && !Effective(i, now).asleep
            && now < next == Earliest(held) <= LastExpiry(held)
            && EvaluateWindow(i.schedule, next) == EvaluateWindow(i.schedule, now)
            && |Holding(i, next)| < |held|
            && if Holding(i, next) == [] then next == LastExpiry(held)
               else LastExpiry(Holding(i, next)) == LastExpiry(held)
  {
    var held := Holding(i, now);
    ZeroMeansNoneActive(i.requests, i.maxWake, now);
    EarliestIsTheLeast(held);
    LastExpiryIsTheGreatest(held);
    var next := Effective(i, now).next;
    VerdictHoldsUntilNext(i.schedule, now, next);
    HoldingShrinks(i.requests, i.maxWake, now, next);
    LaterThanElements(held, next);
    if Holding(i, next) != [] {
      LastExpiryIsTheGreatest(Holding(i, next));
    }
  }

  // ----- What is reported as the phase -----

  /** Suspended is the empty phase a suspended window shows. */
  datatype WindowPhase = Suspended | Awake | Asleep | WakeRequested

  function PhaseOf(state: WindowState, effective: WindowState): WindowPhase {
    if effective.asleep then Asleep else if state.asleep then WakeRequested else Awake
  }

  /** A namespace that is awake off schedule says so, and only then. */
  lemma PhaseSaysWhy(i: Inputs, scheduleNow: int, wakesNow: int)
    ensures var state := EvaluateWindow(i.schedule, scheduleNow);
            var phase := PhaseOf(state, EffectiveAt(i, scheduleNow, wakesNow));
            && (phase == WakeRequested <==> state.asleep && Holding(i, wakesNow) != [])
            && (phase == Awake <==> !state.asleep)
  {
  }

  /** Once the cap has elapsed since every request was created, requests no longer matter. */
  lemma RequestsCannotOutliveTheCap(i: Inputs, now: int)
    requires forall r :: r in i.requests ==> r.created + i.maxWake <= now
    ensures Effective(i, now) == EvaluateWindow(i.schedule, now)
  {
    ActiveExpiriesAreTheActiveOnes(i.requests, i.maxWake, now);
    if Holding(i, now) != [] {
      var e := Holding(i, now)[0];
      assert e in Holding(i, now);
      var r :| r in i.requests && Classify(r, i.maxWake, now) == Outcome(Active, e);
      CapBoundsEveryRequest(r.name, r.created, i.maxWake, now);
    }
  }

  /** An instant no later than both next firings and every granted expiry, and one of them. */
  predicate IsNextChange(next: int, s: Schedule, scheduleNow: int,
                         requests: seq<Request>, maxWakeDuration: Option<int>, wakesNow: int)
  {
    && next <= s.sleep(scheduleNow) && next <= s.wake(scheduleNow)
    && (forall r <- requests :: Granted(r, maxWakeDuration, wakesNow) ==> next <= r.created + r.duration.value)
    && (|| next == s.sleep(scheduleNow) || next == s.wake(scheduleNow)
        || exists r <- requests :: Granted(r, maxWakeDuration, wakesNow) && next == r.created + r.duration.value)
  }

  /** What a pass acts on and reports, in the terms of the schedule and the requests: asleep when the
      next wake comes before the next sleep and no request is granted, and awake off schedule when one
      is; the deadline is the first instant anything of that can change. */
  lemma ActedOnInFull(s: Schedule, requests: seq<Request>, maxWakeDuration: Option<int>,
                      scheduleNow: int, wakesNow: int)
    requires wakesNow >= ZERO_TIME
    ensures var e := EffectiveAt(Inputs(s, requests, Cap(maxWakeDuration)), scheduleNow, wakesNow);
            var inside := s.wake(scheduleNow) < s.sleep(scheduleNow);
            var held := exists r <- requests :: Granted(r, maxWakeDuration, wakesNow);
            && (e.asleep <==> inside && !held)
            && PhaseOf(EvaluateWindow(s, scheduleNow), e)
               == (if !inside then Awake else if held then WakeRequested else Asleep)
            && IsNextChange(e.next, s, scheduleNow, requests, maxWakeDuration, wakesNow)
  {
    ZeroMeansNoneActive(requests, Cap(maxWakeDuration), wakesNow);
    forall r | r in requests
      ensures Classify(r, Cap(maxWakeDuration), wakesNow).phase == Active <==> Granted(r, maxWakeDuration, wakesNow)
      ensures Granted(r, maxWakeDuration, wakesNow) ==>
                Classify(r, Cap(maxWakeDuration), wakesNow).expiresAt == r.created + r.duration.value
    {
      ActiveMeansGranted(r, maxWakeDuration, wakesNow);
    }
  }
}
