/**
 The watch loop comes to rest: every patch and every status write wakes the controller again,
 so a pass that finds nothing to do must write nothing.
 */
module Quiescence {
  import opened Runs
  import opened Window
  import opened WakeRequests
  import opened Verdicts

  /** Before the deadline no request changes phase. */
  lemma PhasesHoldUntilTheDeadline(i: Inputs, now: int, t: int, r: Request)
    requires Valid(i) && ZERO_TIME <= now <= t < Effective(i, now).next && r in i.requests
    ensures Classify(r, i.maxWake, t) == Classify(r, i.maxWake, now)
  {
    PhaseOnlyMovesForward(r, i.maxWake, now, t);
    ZeroMeansNoneActive(i.requests, i.maxWake, now);
  }

  /** After one pass whose writes land, a pass of the same window at any later instant before the
      announced deadline sends no patch and writes to no request, wherever everything was before. */
  lemma QuietUntilTheDeadline(i: Inputs, now: int, t: int, pass: Pass, ns: Namespace, statuses: map<string, WakeStatus>)
    requires Valid(i) && ZERO_TIME <= now <= t < Effective(i, now).next
    requires pass.asleep == Effective(i, now).asleep && pass.selected <= pass.landed
    ensures var again := pass.(asleep := Effective(i, t).asleep);
            forall name <- AfterPass(ns, pass) :: !again.Patches(name, AfterPass(ns, pass)[name])
    ensures forall r <- i.requests :: r.name in statuses ==>
              !NeedsWrite(pass.policy.name, Classify(r, i.maxWake, t),
                          Recorded(pass.policy.name, Classify(r, i.maxWake, now), statuses[r.name]))
  {
    NothingChangesBeforeTheDeadline(i, now, t);
    PartialPassesAreAbsorbed(ns, pass, []);
    forall r | r in i.requests
      ensures Classify(r, i.maxWake, t) == Classify(r, i.maxWake, now)
    {
      PhasesHoldUntilTheDeadline(i, now, t, r);
    }
  }

  /** At the deadline itself the pass does have something to do: an active request has lapsed, or
      the schedule's next firing is due. */
  lemma SomethingHappensAtTheDeadline(i: Inputs, now: int)
    requires Valid(i) && now >= ZERO_TIME
    ensures var next := Effective(i, now).next;
            || Boundary(i.schedule, next)
            || exists r :: r in i.requests && Classify(r, i.maxWake, now).phase == Active
                                           && Classify(r, i.maxWake, next).phase == Expired
  {
    var next := Effective(i, now).next;
    NextIsTheLeastFiring(i.schedule.sleep, now);
    NextIsTheLeastFiring(i.schedule.wake, now);
    ZeroMeansNoneActive(i.requests, i.maxWake, now);
    DeadlineIsAhead(i, now);
    if next != EvaluateWindow(i.schedule, now).next {
      var r :| r in i.requests && Classify(r, i.maxWake, now) == Outcome(Active, next);
      PhaseOnlyMovesForward(r, i.maxWake, now, next);
    }
  }
}
