/**
 Concrete schedules: one firing per period, for which the verdict has a closed form, and the
 weekday wake under which the reading "inside the window" breaks down at the weekend.
 */
module Daily {
  import opened Window

  /** The next instant after t that is offset modulo period. */
  function Periodic(offset: int, period: int): Next
    requires period > 0
  {
    t => t + period - (t - offset) % period
  }

  // ----- Arithmetic modulo the period -----

  lemma RemainderIsUnique(x: int, q: int, r: int, m: int)
    requires 0 <= r < m && x == q * m + r
    ensures x % m == r
  {
    var d := x / m - q;
    assert d * m == r - x % m by {
      assert x == (x / m) * m + x % m;
      assert d * m == (x / m) * m - q * m;
    }
    SmallMultipleIsZero(d, m);
  }

  lemma SmallMultipleIsZero(d: int, m: int)
    requires -m < d * m < m
    ensures d == 0
  {
  }

  lemma ShiftedRemainder(x: int, k: int, m: int)
    requires m > 0
    ensures 0 <= x % m + k < m ==> (x + k) % m == x % m + k
    ensures m <= x % m + k < 2 * m ==> (x + k) % m == x % m + k - m
    ensures -m <= x % m + k < 0 ==> (x + k) % m == x % m + k + m
  {
    var q, r := x / m, x % m;
    assert x + k == q * m + (r + k);
    if 0 <= r + k < m {
      RemainderIsUnique(x + k, q, r + k, m);
    } else if m <= r + k < 2 * m {
      assert x + k == (q + 1) * m + (r + k - m);
      RemainderIsUnique(x + k, q + 1, r + k - m, m);
    } else if -m <= r + k < 0 {
      assert x + k == (q - 1) * m + (r + k + m);
      RemainderIsUnique(x + k, q - 1, r + k + m, m);
    }
  }

  lemma PeriodicRecurs(offset: int, period: int)
    requires period > 0
    ensures Cron(Periodic(offset, period))
  {
    var next := Periodic(offset, period);
    forall t ensures t < next(t) {
    }
    forall t, u ensures StaysNext(next, t, u) {
      if t <= u < next(t) {
        ShiftedRemainder(t - offset, u - t, period);
        assert (t - offset) + (u - t) == u - offset;
      }
    }
  }

  lemma PeriodicFires(offset: int, period: int, x: int)
    requires period > 0
    ensures Fires(Periodic(offset, period), x) <==> (x - offset) % period == 0
  {
    ShiftedRemainder(x - offset, -1, period);
    assert (x - offset) + -1 == x - 1 - offset;
  }

  /** For two firings a period, at offsets sleep and wake, the window is the stretch from sleep,
      inclusive, to the next wake, exclusive, at every instant past and future. */
  lemma DailyWindowClosedForm(sleep: int, wake: int, period: int, t: int)
    requires period > 0
    ensures EvaluateWindow(Schedule(Periodic(sleep, period), Periodic(wake, period)), t).asleep
            <==> (t - sleep) % period < (wake - sleep) % period
  {
    var a, w := (t - sleep) % period, (wake - sleep) % period;
    var k := -((wake - sleep) / period) * period;
    assert t - wake == (t - sleep) - w + k by {
      assert wake - sleep == ((wake - sleep) / period) * period + w;
    }
    ShiftedRemainder(t - sleep, -w, period);
    WholePeriodsDoNotMatter(t - sleep - w, -((wake - sleep) / period), period);
    assert (t - wake) % period == ((t - sleep) + -w) % period;
  }

  lemma WholePeriodsDoNotMatter(x: int, n: int, m: int)
    requires m > 0
    ensures (x + n * m) % m == x % m
  {
    assert x + n * m == (x / m + n) * m + x % m;
    RemainderIsUnique(x + n * m, x / m + n, x % m, m);
  }

  /** Such a pair at different offsets alternates, so the schedule theorems apply to it. */
  lemma DailyAlternates(sleep: int, wake: int, period: int)
    requires period > 0 && (wake - sleep) % period != 0
    ensures var s := Schedule(Periodic(sleep, period), Periodic(wake, period));
            Recurs(s) && Alternates(s)
  {
    var s := Schedule(Periodic(sleep, period), Periodic(wake, period));
    PeriodicRecurs(sleep, period);
    PeriodicRecurs(wake, period);
    NegatedRemainder(wake - sleep, period);
    forall x, y | Consecutive(s, x, y) ensures Fires(s.sleep, x) != Fires(s.sleep, y) {
      if Fires(s.sleep, x) && Fires(s.sleep, y) {
        NotConsecutive(s, sleep, wake, period, x, y);
      } else if Fires(s.wake, x) && Fires(s.wake, y) {
        NotConsecutive(s, wake, sleep, period, x, y);
      }
    }
  }

  lemma NotConsecutive(s: Schedule, a: int, b: int, m: int, x: int, y: int)
    requires m > 0 && (b - a) % m != 0 && x < y
    requires s == Schedule(Periodic(a, m), Periodic(b, m)) || s == Schedule(Periodic(b, m), Periodic(a, m))
    requires Fires(Periodic(a, m), x) && Fires(Periodic(a, m), y)
    ensures !NoBoundaryBetween(s, x, y)
  {
    var w := OnceAPeriod(a, b, m, x, y);
    assert Boundary(s, w);
  }

  lemma NegatedRemainder(x: int, m: int)
    requires m > 0 && x % m != 0
    ensures (-x) % m != 0
  {
    if (-x) % m == 0 {
      assert x == -((-x) / m) * m + 0;
      RemainderIsUnique(x, -((-x) / m), 0, m);
    }
  }

  lemma NeverTogether(a: int, b: int, m: int, x: int)
    requires m > 0 && (b - a) % m != 0
    ensures !(Fires(Periodic(a, m), x) && Fires(Periodic(b, m), x))
  {
    PeriodicFires(a, m, x);
    PeriodicFires(b, m, x);
    if (x - a) % m == 0 && (x - b) % m == 0 {
      assert b - a == ((x - a) / m - (x - b) / m) * m + 0;
      RemainderIsUnique(b - a, (x - a) / m - (x - b) / m, 0, m);
    }
  }

  lemma OnceAPeriod(a: int, b: int, m: int, x: int, y: int) returns (w: int)
    requires m > 0 && (b - a) % m != 0 && x < y
    requires Fires(Periodic(a, m), x) && Fires(Periodic(a, m), y)
    ensures x < w < y && Fires(Periodic(b, m), w)
  {
    var one, other := Periodic(a, m), Periodic(b, m);
    PeriodicRecurs(a, m);
    PeriodicRecurs(b, m);
    PeriodicFires(a, m, x);
    NeverTogether(a, b, m, x);
    PeriodicFires(b, m, x);
    NextIsTheLeastFiring(one, x);
    NextIsTheLeastFiring(other, x);
    assert one(x) == x + m <= y;
    w := other(x);
  }

  // ----- The weekend, with instants counting hours and hour 0 a Monday's midnight -----

  /** Firings of a daily schedule, each put off by the wait its day calls for. */
  function PutOff(daily: Next, wait: int -> int): Next { t => daily(t) + wait(daily(t)) }

  /** One firing a day; a day to be waited out waits one day longer than the day after it. */
  ghost predicate OnePerDay(daily: Next, wait: int -> int, day: int, t: int) {
    var c := daily(t);
    && daily(c) == c + day
    && (wait(c) == 0 || (wait(c) >= day && wait(c + day) == wait(c) - day))
  }

  /** The firing a day waits out for is the one the next day gives. */
  lemma WaitedOut(daily: Next, wait: int -> int, day: int, t: int)
    requires OnePerDay(daily, wait, day, t) && wait(daily(t)) != 0
    ensures PutOff(daily, wait)(daily(t)) == PutOff(daily, wait)(t)
  {
  }

  lemma {:induction false} PutOffTogether(daily: Next, wait: int -> int, day: int, t: int, u: int)
    requires Cron(daily) && day > 0
    requires forall x :: OnePerDay(daily, wait, day, x)
    requires t <= u < PutOff(daily, wait)(t)
    ensures PutOff(daily, wait)(u) == PutOff(daily, wait)(t)
    decreases u - t
  {
    var c := daily(t);
    if c <= u {
      assert OnePerDay(daily, wait, day, t);
      WaitedOut(daily, wait, day, t);
      PutOffTogether(daily, wait, day, c, u);
    } else {
      assert StaysNext(daily, t, u);
    }
  }

  lemma PutOffRecurs(daily: Next, wait: int -> int, day: int)
    requires Cron(daily) && day > 0
    requires forall x :: OnePerDay(daily, wait, day, x)
    ensures Cron(PutOff(daily, wait))
  {
    var next := PutOff(daily, wait);
    forall t ensures t < next(t) {
      assert t < daily(t) && OnePerDay(daily, wait, day, t);
    }
    forall t, u ensures StaysNext(next, t, u) {
      if t <= u < next(t) {
        PutOffTogether(daily, wait, day, t, u);
      }
    }
  }

  const NINE: Next := Periodic(9, 24)

  function Weekday(x: int): int { (x / 24) % 7 }

  function WeekendWait(x: int): int {
    if Weekday(x) == 5 then 48 else if Weekday(x) == 6 then 24 else 0
  }

  /** A wake at nine on the five weekdays. */
  function WeekdayWake(): Next { PutOff(NINE, WeekendWait) }

  lemma PeriodicSteps(offset: int, period: int, t: int)
    requires period > 0
    ensures var next := Periodic(offset, period); next(next(t)) == next(t) + period
  {
    PeriodicRecurs(offset, period);
    NextIsTheLeastFiring(Periodic(offset, period), t);
    PeriodicFires(offset, period, Periodic(offset, period)(t));
  }

  lemma TomorrowIsTheNextWeekday(x: int)
    ensures Weekday(x + 24) == (Weekday(x) + 1) % 7
  {
    assert (x + 24) / 24 == x / 24 + 1;
  }

  lemma WaitDropsByADay(x: int)
    ensures WeekendWait(x) == 0 || (WeekendWait(x) >= 24 && WeekendWait(x + 24) == WeekendWait(x) - 24)
  {
    TomorrowIsTheNextWeekday(x);
  }

  lemma WeekdayWakeRecurs()
    ensures Cron(WeekdayWake())
  {
    PeriodicRecurs(9, 24);
    forall t ensures OnePerDay(NINE, WeekendWait, 24, t) {
      PeriodicSteps(9, 24, t);
      WaitDropsByADay(NINE(t));
    }
    PutOffRecurs(NINE, WeekendWait, 24);
  }

  /** Asleep every night at 20:00 and woken on weekdays only. */
  function Weeknights(): Schedule { Schedule(Periodic(20, 24), WeekdayWake()) }

  lemma NextPeriodic(offset: int, period: int, t: int, n: int)
    requires period > 0 && t < n <= t + period && (n - offset) % period == 0
    ensures Periodic(offset, period)(t) == n
  {
    ShiftedRemainder(n - offset, t - n, period);
    assert (n - offset) + (t - n) == t - offset;
  }

  lemma EveningFirings()
    ensures var sleep := Periodic(20, 24);
            && sleep(4 * 24 + 19) == 4 * 24 + 20
            && sleep(5 * 24 + 12) == 5 * 24 + 20
            && sleep(5 * 24 + 20) == 6 * 24 + 20
  {
    NextPeriodic(20, 24, 4 * 24 + 19, 4 * 24 + 20);
    NextPeriodic(20, 24, 5 * 24 + 12, 5 * 24 + 20);
    NextPeriodic(20, 24, 5 * 24 + 20, 6 * 24 + 20);
  }

  lemma SaturdaysWakeIsMondays()
    ensures WeekdayWake()(4 * 24 + 20) == 7 * 24 + 9
  {
    NextPeriodic(9, 24, 4 * 24 + 20, 5 * 24 + 9);
    assert WeekendWait(5 * 24 + 9) == 48;
  }

  lemma WakeFarAway(s: Schedule, sleep: int, t: int, next: int, after: int)
    requires Recurs(s) && sleep <= t < next < after
    requires s.sleep(sleep - 1) == sleep && s.sleep(t) == next && s.sleep(next) == after && s.wake(sleep) > after
    ensures LastBoundaryWasSleep(s, t)
    ensures EvaluateWindow(s, t) == WindowState(false, next) && EvaluateWindow(s, next) == WindowState(false, after)
  {
    NextIsTheLeastFiring(s.wake, sleep);
    assert Fires(s.sleep, sleep);
    assert StaysNext(s.wake, sleep, t) && StaysNext(s.wake, sleep, next);
  }

  /** In hours from a Monday's midnight: on Saturday at noon the last boundary was Friday's sleep, but
      the verdict is awake, and it does not flip at its own announced deadline either. */
  lemma SaturdayNoonReadsAwake()
    ensures var s, noon, evening := Weeknights(), 5 * 24 + 12, 5 * 24 + 20;
            && Recurs(s) && LastBoundaryWasSleep(s, noon)
            && EvaluateWindow(s, noon) == WindowState(false, evening)
            && !EvaluateWindow(s, evening).asleep
  {
    PeriodicRecurs(20, 24);
    WeekdayWakeRecurs();
    EveningFirings();
    SaturdaysWakeIsMondays();
    WakeFarAway(Weeknights(), 4 * 24 + 20, 5 * 24 + 12, 5 * 24 + 20, 6 * 24 + 20);
  }
}
