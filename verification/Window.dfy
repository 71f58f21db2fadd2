/**
 The schedule: is this instant inside the idle window, and when to look again.

 Instants are integers. The timer counts nanoseconds; nothing else depends on the unit. A cron
 expression is the function a cron library gives: the next firing strictly after an instant.
 */
module Window {
  const SECOND: int := 1_000_000_000
  const MINUTE: int := 60 * SECOND

  type Next = int -> int

  /** A schedule that recurs for ever: there is always a next firing, and it stays the next one
      until it comes. */
  ghost predicate Cron(next: Next) {
    && (forall t :: t < next(t))
    && (forall t, u :: StaysNext(next, t, u))
  }

  ghost predicate StaysNext(next: Next, t: int, u: int) { t <= u < next(t) ==> next(u) == next(t) }

  predicate Fires(next: Next, x: int) { next(x - 1) == x }

  /** What Cron means: next is the least firing after t. */
  lemma NextIsTheLeastFiring(next: Next, t: int)
    requires Cron(next)
    ensures Fires(next, next(t))
    ensures forall x :: t < x < next(t) ==> !Fires(next, x)
  {
    assert StaysNext(next, t, next(t) - 1);
    forall x | t < x < next(t) ensures !Fires(next, x) {
      assert StaysNext(next, t, x - 1);
    }
  }

  /** Any unbounded set of instants is such a schedule, and its firings are its elements. */
  lemma LeastElementsMakeACron(instants: iset<int>, next: Next)
    requires forall t :: t < next(t) && next(t) in instants
    requires forall t, x :: t < x < next(t) ==> x !in instants
    ensures Cron(next)
    ensures forall x :: Fires(next, x) <==> x in instants
  {
    forall t, u ensures StaysNext(next, t, u) {
      if t <= u < next(t) {
        assert !(t < next(u) < next(t)) && !(u < next(t) < next(u));
      }
    }
    forall x ensures Fires(next, x) <==> x in instants {
      if x in instants {
        assert !(x - 1 < x < next(x - 1));
      }
    }
  }

  datatype Schedule = Schedule(sleep: Next, wake: Next)

  datatype WindowState = WindowState(asleep: bool, next: int)

  function EvaluateWindow(s: Schedule, now: int): WindowState {
    var nextSleep, nextWake := s.sleep(now), s.wake(now);
    if nextWake < nextSleep then WindowState(true, nextWake) else WindowState(false, nextSleep)
  }

  ghost predicate Recurs(s: Schedule) { Cron(s.sleep) && Cron(s.wake) }

  // ----- What the forward comparison means -----

  predicate Boundary(s: Schedule, x: int) { Fires(s.sleep, x) || Fires(s.wake, x) }

  /** Looking back: a sleep has fired and no wake since. */
  ghost predicate LastBoundaryWasSleep(s: Schedule, t: int) {
    exists x :: x <= t && Fires(s.sleep, x) && forall w :: x < w <= t ==> !Fires(s.wake, w)
  }

  ghost predicate Begun(s: Schedule, t: int) { exists x :: x <= t && Boundary(s, x) }

  ghost predicate NoBoundaryBetween(s: Schedule, x: int, y: int) { forall z :: x < z < y ==> !Boundary(s, z) }

  ghost predicate Consecutive(s: Schedule, x: int, y: int) {
    x < y && Boundary(s, x) && Boundary(s, y) && NoBoundaryBetween(s, x, y)
  }

  /** Of two consecutive boundaries, one is a sleep and the other a mere wake. */
  ghost predicate Alternates(s: Schedule) {
    forall x, y :: Consecutive(s, x, y) ==> Fires(s.sleep, x) != Fires(s.sleep, y)
  }

  /** The comparison reads the next boundary: asleep means it is a wake and not also a sleep. */
  lemma ForwardReadsTheNextBoundary(s: Schedule, t: int)
    requires Recurs(s)
    ensures var st := EvaluateWindow(s, t);
            && t < st.next && Boundary(s, st.next) && NoBoundaryBetween(s, t, st.next)
            && (st.asleep <==> !Fires(s.sleep, st.next))
  {
    NextIsTheLeastFiring(s.sleep, t);
    NextIsTheLeastFiring(s.wake, t);
  }

  lemma NextBoundaryIsUnique(s: Schedule, t: int, n: int)
    requires Recurs(s) && t < n && Boundary(s, n) && NoBoundaryBetween(s, t, n)
    ensures EvaluateWindow(s, t).next == n
  {
    ForwardReadsTheNextBoundary(s, t);
  }

  ghost predicate Latest(s: Schedule, t: int, latest: int) {
    latest <= t && Boundary(s, latest) && NoBoundaryBetween(s, latest, t + 1)
  }

  lemma LatestBoundary(s: Schedule, t: int, x: int) returns (latest: int)
    requires x <= t && Boundary(s, x)
    ensures Latest(s, t, latest)
    decreases t - x
  {
    if Boundary(s, t) {
      latest := t;
    } else {
      latest := LatestBoundary(s, t - 1, x);
    }
  }

  lemma LookingBackReadsTheLatest(s: Schedule, t: int, latest: int)
    requires Latest(s, t, latest)
    ensures LastBoundaryWasSleep(s, t) <==> Fires(s.sleep, latest)
  {
    if Fires(s.sleep, latest) {
      forall w | latest < w <= t ensures !Fires(s.wake, w) {
        assert !Boundary(s, w);
      }
    } else {
      assert Fires(s.wake, latest);
      forall y | y <= t && Fires(s.sleep, y) ensures y < latest {
        assert Boundary(s, y);
      }
    }
  }

  /** At one instant the two readings agree exactly when the boundaries around it are opposite. */
  lemma ReadingsAgreeIff(s: Schedule, t: int, latest: int)
    requires Recurs(s) && Latest(s, t, latest)
    ensures var next := EvaluateWindow(s, t).next;
            && Consecutive(s, latest, next)
            && ((EvaluateWindow(s, t).asleep <==> LastBoundaryWasSleep(s, t))
                <==> Fires(s.sleep, latest) != Fires(s.sleep, next))
  {
    ForwardReadsTheNextBoundary(s, t);
    LookingBackReadsTheLatest(s, t, latest);
  }

  /** Comparing the next two firings tells whether the last boundary was a sleep, at every instant
      since the first boundary, exactly for the schedules that alternate. */
  lemma ForwardTestLooksBackIffAlternating(s: Schedule)
    requires Recurs(s)
    ensures (forall t :: Begun(s, t) ==> (EvaluateWindow(s, t).asleep <==> LastBoundaryWasSleep(s, t)))
            <==> Alternates(s)
  {
    if Alternates(s) {
      forall t | Begun(s, t)
        ensures EvaluateWindow(s, t).asleep <==> LastBoundaryWasSleep(s, t)
      {
        var x :| x <= t && Boundary(s, x);
        var latest := LatestBoundary(s, t, x);
        ReadingsAgreeIff(s, t, latest);
      }
    } else {
      var x, y :| Consecutive(s, x, y) && Fires(s.sleep, x) == Fires(s.sleep, y);
      assert Latest(s, y - 1, x) && Begun(s, y - 1);
      NextBoundaryIsUnique(s, y - 1, y);
      ReadingsAgreeIff(s, y - 1, x);
    }
  }

  // ----- When the verdict flips -----

  /** The promise that the verdict is about to flip at state.next holds at every instant exactly
      for the schedules that alternate. */
  lemma VerdictFlipsAtNextIffAlternating(s: Schedule)
    requires Recurs(s)
    ensures (forall t :: EvaluateWindow(s, EvaluateWindow(s, t).next).asleep != EvaluateWindow(s, t).asleep)
            <==> Alternates(s)
  {
    if Alternates(s) {
      forall t ensures EvaluateWindow(s, EvaluateWindow(s, t).next).asleep != EvaluateWindow(s, t).asleep {
        var n := EvaluateWindow(s, t).next;
        ForwardReadsTheNextBoundary(s, t);
        ForwardReadsTheNextBoundary(s, n);
        assert Consecutive(s, n, EvaluateWindow(s, n).next);
      }
    } else {
      var x, y :| Consecutive(s, x, y) && Fires(s.sleep, x) == Fires(s.sleep, y);
      NextBoundaryIsUnique(s, x - 1, x);
      NextBoundaryIsUnique(s, x, y);
      ForwardReadsTheNextBoundary(s, x - 1);
      ForwardReadsTheNextBoundary(s, x);
    }
  }

  /** Alternating or not, nothing happens before state.next: the verdict and the deadline are the
      same at every instant up to it. */
  lemma VerdictHoldsUntilNext(s: Schedule, now: int, t: int)
    requires Recurs(s) && now <= t < EvaluateWindow(s, now).next
    ensures EvaluateWindow(s, t) == EvaluateWindow(s, now)
  {
    assert StaysNext(s.sleep, now, t) && StaysNext(s.wake, now, t);
  }

  // ----- When to look again -----

  const MARGIN: int := 5 * SECOND
  const MAX_GAP: int := 10 * MINUTE
  const MIN_GAP: int := SECOND

  function RequeueAfter(now: int, next: int): int {
    var d := next - now + MARGIN;
    if d > MAX_GAP then MAX_GAP
    else if d < MIN_GAP then MIN_GAP
    else d
  }

  /** The wait lands five seconds after the boundary, unless that is more than ten minutes or less
      than one second away; then it is ten minutes or one second. */
  lemma TimerIsAClampedWait(now: int, next: int)
    ensures var wait, due := RequeueAfter(now, next), next + 5_000_000_000;
            && 1_000_000_000 <= wait <= 600_000_000_000
            && (1_000_000_000 <= due - now <= 600_000_000_000 ==> now + wait == due)
            && (now + wait < due ==> wait == 600_000_000_000)
            && (now + wait > due ==> wait == 1_000_000_000)
  {
  }

  /** Following the timer from t: the first look at or after next, and how many waits it takes. */
  function FirstLookAfter(t: int, next: int): int
    decreases next - t
  {
    if t >= next then t else FirstLookAfter(t + RequeueAfter(t, next), next)
  }

  function Waits(t: int, next: int): nat
    decreases next - t
  {
    if t >= next then 0 else 1 + Waits(t + RequeueAfter(t, next), next)
  }

  /** The timer comes round on the right side of the boundary, at most the margin late, after one
      wait per started ten minutes; before the boundary the one-second floor is never used. */
  lemma {:induction false} TimerLandsJustAfterNext(t: int, next: int)
    requires t < next
    ensures RequeueAfter(t, next) > 1_000_000_000
    ensures Waits(t, next) == (next - t - 1) / 600_000_000_000 + 1
    ensures var ceiling := t + Waits(t, next) * 600_000_000_000;
            FirstLookAfter(t, next) == if next + 5_000_000_000 < ceiling then next + 5_000_000_000 else ceiling
    ensures next <= FirstLookAfter(t, next) <= next + 5_000_000_000
    decreases next - t
  {
    var u := t + RequeueAfter(t, next);
    if u < next {
      assert u == t + MAX_GAP;
      TimerLandsJustAfterNext(u, next);
    }
  }

  /** A boundary eight hours away is looked at after 48 waits, and drift is corrected at each. */
  lemma AnEightHourNightTakes48Waits(t: int)
    ensures Waits(t, t + 8 * 3_600_000_000_000) == 48
  {
    TimerLandsJustAfterNext(t, t + 8 * 3_600_000_000_000);
  }
}
