/**
 Wake requests: which of them hold the namespace awake, until when, and what is written back
 to each one.
 */
module WakeRequests {
  import opened Options

  /** Go's zero time, which the operator uses for "no time". Instants count from it. */
  const ZERO_TIME: int := 0

  datatype Phase = Unset | Active | Expired | Rejected

  /** A request as its author wrote it. The duration is None if the text does not parse. */
  datatype Request = Request(name: string, created: int, duration: Option<int>)

  datatype Outcome = Outcome(phase: Phase, expiresAt: int)

  /** An unreadable cap allows nothing. */
  function Cap(maxWakeDuration: Option<int>): int { maxWakeDuration.GetOr(0) }

  function Classify(r: Request, maxWake: int, now: int): Outcome {
    if r.duration.None? || maxWake <= 0 || r.duration.value > maxWake then Outcome(Rejected, ZERO_TIME)
    else
      var expiresAt := r.created + r.duration.value;
      Outcome(if now < expiresAt then Active else Expired, expiresAt)
  }

  /** What holds a namespace awake, in the terms of the request and the window: the duration and the
      cap are readable, the cap is positive and no shorter, and the duration has not run out. */
  predicate Granted(r: Request, maxWakeDuration: Option<int>, now: int) {
    && r.duration.Some? && maxWakeDuration.Some?
    && 0 < maxWakeDuration.value && r.duration.value <= maxWakeDuration.value
    && now < r.created + r.duration.value
  }

  lemma ActiveMeansGranted(r: Request, maxWakeDuration: Option<int>, now: int)
    ensures var out := Classify(r, Cap(maxWakeDuration), now);
            && (out.phase == Active <==> Granted(r, maxWakeDuration, now))
            && (out.phase == Active ==> out.expiresAt == r.created + r.duration.value)
            && (out.phase == Rejected <==>
                || r.duration.None? || maxWakeDuration.None? || maxWakeDuration.value <= 0
                || maxWakeDuration.value < r.duration.value)
  {
  }

  // ----- The cap -----

  /** Whatever duration its author edits in, a request can be active at now exactly until the cap
      has elapsed since its creation. */
  lemma CapBoundsEveryRequest(name: string, created: int, maxWake: int, now: int)
    ensures (exists d :: Classify(Request(name, created, d), maxWake, now).phase == Active)
            <==> maxWake > 0 && now < created + maxWake
  {
    if maxWake > 0 {
      assert now < created + maxWake ==>
          Classify(Request(name, created, Some(maxWake)), maxWake, now).phase == Active;
    }
  }

  /** What the three phases mean over the life of a request with a positive duration: a rejected
      one is active at no instant from its creation on, an expired one was active after its creation
      and is not any more. One whose duration is not positive is never active in its life, though it
      may be called expired. */
  lemma PhasesOverTime(r: Request, maxWake: int, now: int)
    ensures var phase := Classify(r, maxWake, now).phase;
            && phase != Unset
            && (r.duration.GetOr(1) > 0 ==>
                  && (phase == Rejected <==> forall t :: t >= r.created ==> Classify(r, maxWake, t).phase != Active)
                  && (phase == Expired <==>
                      phase != Active && exists t :: r.created <= t < now && Classify(r, maxWake, t).phase == Active))
            && (r.duration.GetOr(1) <= 0 ==> forall t :: t >= r.created ==> Classify(r, maxWake, t).phase != Active)
  {
    assert r.duration.GetOr(1) > 0 && Classify(r, maxWake, now).phase in {Active, Expired} ==>
        Classify(r, maxWake, r.created).phase == Active;
  }

  /** With its duration and the cap left alone a request moves at most once, from active to
      expired, and keeps the expiry it had. */
  lemma PhaseOnlyMovesForward(r: Request, maxWake: int, now: int, later: int)
    requires now <= later
    ensures var a, b := Classify(r, maxWake, now), Classify(r, maxWake, later);
            && a.expiresAt == b.expiresAt
            && (a.phase == b.phase || (a.phase == Active && b.phase == Expired && now < a.expiresAt <= later))
  {
  }

  // ----- Counting and the earliest expiry -----

  datatype WakeState = WakeState(active: nat, earliestExpiry: int)

  /** The expiries of the active requests. */
  function ActiveExpiries(requests: seq<Request>, maxWake: int, now: int): seq<int> {
    if requests == [] then []
    else
      var last := Classify(requests[|requests| - 1], maxWake, now);
      ActiveExpiries(requests[..|requests| - 1], maxWake, now)
      + if last.phase == Active then [last.expiresAt] else []
  }

  function Earliest(expiries: seq<int>): int {
    if expiries == [] then ZERO_TIME
    else
      var last, front := expiries[|expiries| - 1], expiries[..|expiries| - 1];
      if front == [] || last < Earliest(front) then last else Earliest(front)
  }

  function WakeStateOf(requests: seq<Request>, maxWake: int, now: int): WakeState {
    var expiries := ActiveExpiries(requests, maxWake, now);
    WakeState(|expiries|, Earliest(expiries))
  }

  lemma {:induction false} ActiveExpiriesAreTheActiveOnes(requests: seq<Request>, maxWake: int, now: int)
    ensures forall e :: e in ActiveExpiries(requests, maxWake, now) ==> e > now
    ensures forall e :: e in ActiveExpiries(requests, maxWake, now) <==>
                        exists r :: r in requests && Classify(r, maxWake, now) == Outcome(Active, e)
  {
    if requests != [] {
      var front, last := requests[..|requests| - 1], requests[|requests| - 1];
      ActiveExpiriesAreTheActiveOnes(front, maxWake, now);
      assert forall r :: r in requests <==> r in front || r == last;
    }
  }

  /** The count of active requests is the number of granted ones. */
  lemma {:induction false} GrantedAreCounted(requests: seq<Request>, maxWakeDuration: Option<int>, now: int)
    ensures WakeStateOf(requests, Cap(maxWakeDuration), now).active
            == |set i | 0 <= i < |requests| && Granted(requests[i], maxWakeDuration, now)|
  {
    if requests != [] {
      var n := |requests| - 1;
      GrantedAreCounted(requests[..n], maxWakeDuration, now);
      ActiveMeansGranted(requests[n], maxWakeDuration, now);
      var before := set i | 0 <= i < n && Granted(requests[..n][i], maxWakeDuration, now);
      assert (set i | 0 <= i < |requests| && Granted(requests[i], maxWakeDuration, now))
          == before + if Granted(requests[n], maxWakeDuration, now) then {n} else {};
    }
  }

  lemma {:induction false} EarliestIsTheLeast(expiries: seq<int>)
    requires expiries != []
    ensures Earliest(expiries) in expiries
    ensures forall e :: e in expiries ==> Earliest(expiries) <= e
  {
    var front, last := expiries[..|expiries| - 1], expiries[|expiries| - 1];
    assert expiries == front + [last];
    if front != [] {
      EarliestIsTheLeast(front);
    }
  }

  /** The zero time says "no active request" and nothing else, at any instant of the calendar: a
      real earliest expiry is the least of the active ones and lies in the future. */
  lemma ZeroMeansNoneActive(requests: seq<Request>, maxWake: int, now: int)
    requires now >= ZERO_TIME
    ensures var st := WakeStateOf(requests, maxWake, now);
            && (st.earliestExpiry == ZERO_TIME <==> st.active == 0)
            && (st.active > 0 <==> exists r :: r in requests && Classify(r, maxWake, now).phase == Active)
            && (st.active > 0 ==>
                  && st.earliestExpiry > now
                  && (exists r :: r in requests && Classify(r, maxWake, now) == Outcome(Active, st.earliestExpiry))
                  && forall r :: r in requests && Classify(r, maxWake, now).phase == Active ==>
                                 st.earliestExpiry <= Classify(r, maxWake, now).expiresAt)
  {
    ActiveExpiriesAreTheActiveOnes(requests, maxWake, now);
    var expiries := ActiveExpiries(requests, maxWake, now);
    if expiries != [] {
      EarliestIsTheLeast(expiries);
    }
    forall r | r in requests && Classify(r, maxWake, now).phase == Active
      ensures expiries != [] && Earliest(expiries) <= Classify(r, maxWake, now).expiresAt
    {
      assert Classify(r, maxWake, now) == Outcome(Active, Classify(r, maxWake, now).expiresAt);
    }
  }

  // ----- Writing the outcome back -----

  datatype WakeStatus = WakeStatus(phase: Phase, window: string, expiresAt: Option<int>, accepted: Option<bool>)

  predicate NeedsWrite(window: string, out: Outcome, st: WakeStatus) {
    !(st.phase == out.phase && st.window == window)
  }

  function Recorded(window: string, out: Outcome, st: WakeStatus): WakeStatus {
    if !NeedsWrite(window, out, st) then st
    else WakeStatus(out.phase, window,
                    if out.expiresAt == ZERO_TIME then st.expiresAt else Some(out.expiresAt),
                    Some(out.phase != Rejected))
  }

  /** A write may land, lose a race (which the operator shrugs off), or fail (which ends the pass). */
  datatype WriteResult = Landed | Conflict | Failed

  datatype Announcement = Announcement(request: string, phase: Phase)

  class WakeServer {
    var statuses: map<string, WakeStatus>
    var announced: seq<Announcement>

    constructor (statuses: map<string, WakeStatus>)
      ensures this.statuses == statuses && announced == []
    {
      this.statuses := statuses;
      announced := [];
    }

    /** Each local copy carries the status the server holds. */
    ghost predicate CopiesOf(reqs: seq<WakeRequest>)
      reads this, reqs
    {
      forall i :: 0 <= i < |reqs| ==>
        reqs[i].spec.name in statuses && reqs[i].status == statuses[reqs[i].spec.name]
    }
  }

  /** A local copy of one WakeRequest. */
  class WakeRequest {
    const spec: Request
    var status: WakeStatus

    constructor (spec: Request, status: WakeStatus)
      ensures this.spec == spec && this.status == status
    {
      this.spec := spec;
      this.status := status;
    }
  }

  method RecordWakeRequest(server: WakeServer, window: string, req: WakeRequest, out: Outcome, result: WriteResult)
    returns (ok: bool)
    modifies req`status, server
    ensures req.status == Recorded(window, out, old(req.status))
    ensures ok <==> !NeedsWrite(window, out, old(req.status)) || result != Failed
    ensures server.statuses
            == if NeedsWrite(window, out, old(req.status)) && result == Landed
               then old(server.statuses)[req.spec.name := req.status] else old(server.statuses)
    ensures server.announced
            == if NeedsWrite(window, out, old(req.status))
               then old(server.announced) + [Announcement(req.spec.name, out.phase)] else old(server.announced)
  {
    var previous := req.status.phase;
    if previous == out.phase && req.status.window == window {
      return true;
    }
    req.status := req.status.(phase := out.phase);
    req.status := req.status.(window := window);
    if out.expiresAt != ZERO_TIME {
      req.status := req.status.(expiresAt := Some(out.expiresAt));
    }
    req.status := req.status.(accepted := Some(out.phase != Rejected));
    server.announced := server.announced + [Announcement(req.spec.name, out.phase)];
    if result == Landed {
      server.statuses := server.statuses[req.spec.name := req.status];
    }
    ok := result != Failed;
  }

  ghost function Specs(reqs: seq<WakeRequest>): seq<Request> {
    seq(|reqs|, i requires 0 <= i < |reqs| => reqs[i].spec)
  }

  /** Everything a sweep over the requests depends on, besides the state it starts in. */
  datatype Sweep = Sweep(window: string, requests: seq<Request>, maxWake: int, now: int, results: seq<WriteResult>)
  {
    function OutcomeOf(i: nat): Outcome
      requires i < |requests|
    {
      Classify(requests[i], maxWake, now)
    }

    predicate WriteFails(i: nat, statuses: map<string, WakeStatus>)
      requires i < |requests| == |results| && forall r <- requests :: r.name in statuses
    {
      results[i] == Failed && NeedsWrite(window, OutcomeOf(i), statuses[requests[i].name])
    }

    predicate FailsFirstAt(n: nat, statuses: map<string, WakeStatus>)
      requires n < |requests| == |results| && forall r <- requests :: r.name in statuses
    {
      WriteFails(n, statuses) && forall i :: 0 <= i < n ==> !WriteFails(i, statuses)
    }
  }

  predicate DistinctNames(requests: seq<Request>) {
    forall i, j :: 0 <= i < j < |requests| ==> requests[i].name != requests[j].name
  }

  /** The stored statuses after the first n requests have been recorded. */
  function Swept(s: Sweep, statuses: map<string, WakeStatus>, n: nat): map<string, WakeStatus>
    requires n <= |s.requests| == |s.results| && forall r <- s.requests :: r.name in statuses
  {
    if n == 0 then statuses
    else
      var before, name := Swept(s, statuses, n - 1), s.requests[n - 1].name;
      if s.results[n - 1] == Landed && NeedsWrite(s.window, s.OutcomeOf(n - 1), statuses[name]) then
        before[name := Recorded(s.window, s.OutcomeOf(n - 1), statuses[name])]
      else before
  }

  /** The log after the first n requests: each outcome that is news is announced, whether or not
      its write then lands. */
  function SweepAnnounces(s: Sweep, statuses: map<string, WakeStatus>, log: seq<Announcement>, n: nat)
    : seq<Announcement>
    requires n <= |s.requests| && forall r <- s.requests :: r.name in statuses
  {
    if n == 0 then log
    else
      var name, out := s.requests[n - 1].name, s.OutcomeOf(n - 1);
      var before := SweepAnnounces(s, statuses, log, n - 1);
      if NeedsWrite(s.window, out, statuses[name]) then before + [Announcement(name, out.phase)] else before
  }

  /** The log grows by the requests reached whose phase or window is not the one they show, each with
      the phase it now has. */
  lemma {:induction false} AnnouncementsAreNews(s: Sweep, statuses: map<string, WakeStatus>, n: nat, a: Announcement)
    requires n <= |s.requests| && forall r <- s.requests :: r.name in statuses
    ensures a in SweepAnnounces(s, statuses, [], n)
            <==> exists r <- s.requests[..n] ::
                   && a == Announcement(r.name, Classify(r, s.maxWake, s.now).phase)
                   && (statuses[r.name].phase != a.phase || statuses[r.name].window != s.window)
  {
    if n > 0 {
      AnnouncementsAreNews(s, statuses, n - 1, a);
      assert s.requests[..n] == s.requests[..n - 1] + [s.requests[n - 1]];
    }
  }

  /** Each request ends recorded if it was reached and its write landed, and as it was otherwise. */
  lemma {:induction false} SweepRecordsEachRequest(s: Sweep, statuses: map<string, WakeStatus>, n: nat, k: nat)
    requires n <= |s.requests| == |s.results| && k < |s.requests| && DistinctNames(s.requests)
    requires forall r <- s.requests :: r.name in statuses
    ensures var after, name := Swept(s, statuses, n), s.requests[k].name;
            && after.Keys == statuses.Keys
            && after[name] == if k < n && s.results[k] == Landed then Recorded(s.window, s.OutcomeOf(k), statuses[name])
                              else statuses[name]
  {
    if n > 0 {
      SweepRecordsEachRequest(s, statuses, n - 1, k);
      assert s.requests[n - 1] in s.requests;
      assert k != n - 1 ==> s.requests[k].name != s.requests[n - 1].name;
    }
  }

  /** A sweep writes to no request outside its list. */
  lemma {:induction false} SweepLeavesOthersAlone(s: Sweep, statuses: map<string, WakeStatus>, n: nat, name: string)
    requires n <= |s.requests| == |s.results| && name in statuses
    requires forall r <- s.requests :: r.name in statuses && r.name != name
    ensures name in Swept(s, statuses, n) && Swept(s, statuses, n)[name] == statuses[name]
  {
    if n > 0 {
      SweepLeavesOthersAlone(s, statuses, n - 1, name);
      assert s.requests[n - 1] in s.requests;
    }
  }

  /** Counts the active requests and finds the first to lapse, recording each outcome on the way.
      A failed write ends the sweep after the requests done so far. */
  method EvaluateWakeRequests(server: WakeServer, window: string, reqs: seq<WakeRequest>,
                              maxWakeDuration: Option<int>, now: int, results: seq<WriteResult>)
    returns (state: WakeState, done: nat, ok: bool)
    requires now >= ZERO_TIME && |results| == |reqs|
    requires forall i, j :: 0 <= i < j < |reqs| ==> reqs[i] != reqs[j]
    requires server.CopiesOf(reqs)
    modifies server, reqs
    ensures if ok then done == |reqs| else done < |reqs|
    ensures ok ==> state == WakeStateOf(Specs(reqs), Cap(maxWakeDuration), now)
    ensures var s := Sweep(window, Specs(reqs), Cap(maxWakeDuration), now, results);
            && (forall i :: 0 <= i < done ==> !s.WriteFails(i, old(server.statuses)))
            && (!ok ==> s.WriteFails(done, old(server.statuses)))
            && server.statuses == Swept(s, old(server.statuses), done)
            && server.announced
               == SweepAnnounces(s, old(server.statuses), old(server.announced), if ok then done else done + 1)
  {
    ghost var before, log := server.statuses, server.announced;
    ghost var s := Sweep(window, Specs(reqs), Cap(maxWakeDuration), now, results);
    assert forall r <- s.requests :: r.name in before;
    var maxWake, active, earliest := maxWakeDuration.GetOr(0), 0, ZERO_TIME;
    done := 0;
    ghost var states := RunningStates(s.requests, maxWake, now);
    ghost var stored, logs := RunningSweep(s, before, log);
    while done < |reqs|
      invariant done <= |reqs|
      invariant WakeState(active, earliest) == states[done]
      invariant forall i :: done <= i < |reqs| ==> reqs[i].status == before[reqs[i].spec.name]
      invariant forall i :: 0 <= i < done ==> !s.WriteFails(i, before)
      invariant server.statuses == stored[done] && server.announced == logs[done]
    {
      var req := reqs[done];
      var out := Classify(req.spec, maxWake, now);
      assert req.spec == s.requests[done] && out == s.OutcomeOf(done);
      ghost var news := NeedsWrite(window, out, req.status);
      assert s.WriteFails(done, before) <==> news && results[done] == Failed;
      if out.phase == Active {
        active := active + 1;
        if earliest == ZERO_TIME || out.expiresAt < earliest {
          earliest := out.expiresAt;
        }
      }
      assert WakeState(active, earliest) == states[done + 1];
      var written := RecordWakeRequest(server, window, req, out, results[done]);
      if !written {
        return WakeState(active, earliest), done, false;
      }
      done := done + 1;
    }
    return WakeState(active, earliest), done, true;
  }

  /** The stored statuses and the announcements, step by step. */
  lemma RunningSweep(s: Sweep, statuses: map<string, WakeStatus>, log: seq<Announcement>)
    returns (stored: seq<map<string, WakeStatus>>, logs: seq<seq<Announcement>>)
    requires |s.requests| == |s.results| && forall r <- s.requests :: r.name in statuses
    ensures |stored| == |logs| == |s.requests| + 1 && stored[0] == statuses && logs[0] == log
    ensures forall n :: 0 <= n <= |s.requests| ==>
              stored[n] == Swept(s, statuses, n) && logs[n] == SweepAnnounces(s, statuses, log, n)
    ensures forall n :: 0 <= n < |s.requests| ==>
              var r, out := s.requests[n], s.OutcomeOf(n);
              var news := NeedsWrite(s.window, out, statuses[r.name]);
              && stored[n + 1] == (if news && s.results[n] == Landed
                                   then stored[n][r.name := Recorded(s.window, out, statuses[r.name])] else stored[n])
              && logs[n + 1] == if news then logs[n] + [Announcement(r.name, out.phase)] else logs[n]
  {
    var size := |s.requests| + 1;
    stored := seq(size, n requires 0 <= n < size => Swept(s, statuses, n));
    logs := seq(size, n requires 0 <= n < size => SweepAnnounces(s, statuses, log, n));
  }

  /** The running count and minimum after one more outcome. */
  function Counting(st: WakeState, out: Outcome): WakeState {
    if out.phase != Active then st
    else WakeState(st.active + 1,
                   if st.earliestExpiry == ZERO_TIME || out.expiresAt < st.earliestExpiry then out.expiresAt
                   else st.earliestExpiry)
  }

  /** Counting outcome by outcome from nothing, with zero read as "none yet", ends at the number of
      active requests and their earliest expiry. */
  lemma RunningStates(requests: seq<Request>, maxWake: int, now: int) returns (states: seq<WakeState>)
    requires now >= ZERO_TIME
    ensures |states| == |requests| + 1 && states[0] == WakeState(0, ZERO_TIME)
    ensures forall i :: 0 <= i < |requests| ==>
              states[i + 1] == Counting(states[i], Classify(requests[i], maxWake, now))
    ensures states[|requests|] == WakeStateOf(requests, maxWake, now)
  {
    states := seq(|requests| + 1, i requires 0 <= i <= |requests| => WakeStateOf(requests[..i], maxWake, now));
    forall i | 0 <= i < |requests|
      ensures states[i + 1] == Counting(states[i], Classify(requests[i], maxWake, now))
    {
      OneMoreRequest(requests, i, maxWake, now);
    }
    assert requests[..|requests|] == requests;
  }

  lemma OneMoreRequest(requests: seq<Request>, i: nat, maxWake: int, now: int)
    requires i < |requests| && now >= ZERO_TIME
    ensures WakeStateOf(requests[..i + 1], maxWake, now)
            == Counting(WakeStateOf(requests[..i], maxWake, now), Classify(requests[i], maxWake, now))
  {
    assert requests[..i + 1][..i] == requests[..i];
    ZeroMeansNoneActive(requests[..i], maxWake, now);
    var before, after := ActiveExpiries(requests[..i], maxWake, now), ActiveExpiries(requests[..i + 1], maxWake, now);
    var out := Classify(requests[i], maxWake, now);
    if out.phase == Active {
      assert after == before + [out.expiresAt];
      assert after[..|after| - 1] == before;
    } else {
      assert after == before;
    }
  }

  // ----- Quiescence -----

  /** One look at a request by some window's pass. */
  datatype Visit = Visit(window: string, maxWake: int, now: int, landed: bool)

  function AfterVisit(r: Request, v: Visit, st: WakeStatus): WakeStatus {
    if v.landed then Recorded(v.window, Classify(r, v.maxWake, v.now), st) else st
  }

  predicate Writes(r: Request, v: Visit, st: WakeStatus) {
    v.landed && NeedsWrite(v.window, Classify(r, v.maxWake, v.now), st)
  }

  function StatusAfter(r: Request, visits: seq<Visit>, st: WakeStatus): WakeStatus {
    if visits == [] then st
    else AfterVisit(r, visits[|visits| - 1], StatusAfter(r, visits[..|visits| - 1], st))
  }

  function CountWrites(r: Request, visits: seq<Visit>, st: WakeStatus): nat {
    if visits == [] then 0
    else
      var front, last := visits[..|visits| - 1], visits[|visits| - 1];
      CountWrites(r, front, st) + if Writes(r, last, StatusAfter(r, front, st)) then 1 else 0
  }

  predicate OneWindowOneCap(visits: seq<Visit>) {
    && (forall i, j :: 0 <= i < j < |visits| ==> visits[i].now <= visits[j].now)
    && (forall i, j :: 0 <= i < j < |visits| ==>
          visits[i].window == visits[j].window && visits[i].maxWake == visits[j].maxWake)
  }

  /** However long one window keeps looking, with writes lost along the way, each request is
      written at most twice; before it expires at most once. */
  lemma {:induction false} AtMostTwoWrites(r: Request, visits: seq<Visit>, st: WakeStatus)
    requires visits != [] && OneWindowOneCap(visits)
    ensures var last, n := visits[|visits| - 1], CountWrites(r, visits, st);
            var out, now := Classify(r, last.maxWake, last.now), StatusAfter(r, visits, st);
            && n <= (if out.phase == Expired then 2 else 1)
            && (n == (if out.phase == Expired then 2 else 1) ==> !NeedsWrite(last.window, out, now))
  {
    var front, last := visits[..|visits| - 1], visits[|visits| - 1];
    if front == [] {
      assert CountWrites(r, front, st) == 0;
    } else {
      AtMostTwoWrites(r, front, st);
      var previous := front[|front| - 1];
      PhaseOnlyMovesForward(r, last.maxWake, previous.now, last.now);
    }
  }

  /** For a request nobody edits, what it shows is the outcome of the last visit whose write
      landed: its phase, its expiry and whether it was accepted. */
  lemma {:induction false} StatusShowsTheLastLandedVisit(r: Request, visits: seq<Visit>, k: nat, st: WakeStatus)
    requires OneWindowOneCap(visits) && st.phase == Unset
    requires k < |visits| && visits[k].landed && forall i :: k < i < |visits| ==> !visits[i].landed
    requires r.duration.Some? ==> r.created + r.duration.value != ZERO_TIME
    ensures var v, out := visits[k], Classify(r, visits[k].maxWake, visits[k].now);
            StatusAfter(r, visits, st)
            == WakeStatus(out.phase, v.window, if out.phase == Rejected then st.expiresAt else Some(out.expiresAt),
                          Some(out.phase != Rejected))
    decreases |visits|
  {
    var n := |visits| - 1;
    if k < n {
      StatusShowsTheLastLandedVisit(r, visits[..n], k, st);
    } else if exists j :: 0 <= j < n && visits[j].landed {
      var j := LastLanded(visits[..n]);
      StatusShowsTheLastLandedVisit(r, visits[..n], j, st);
      PhaseOnlyMovesForward(r, visits[k].maxWake, visits[j].now, visits[k].now);
    } else {
      NothingLandedNothingChanged(r, visits[..n], st);
    }
  }

  lemma {:induction false} LastLanded(visits: seq<Visit>) returns (k: nat)
    requires exists j :: 0 <= j < |visits| && visits[j].landed
    ensures k < |visits| && visits[k].landed && forall i :: k < i < |visits| ==> !visits[i].landed
  {
    var n := |visits| - 1;
    if visits[n].landed {
      k := n;
    } else {
      k := LastLanded(visits[..n]);
    }
  }

  lemma {:induction false} NothingLandedNothingChanged(r: Request, visits: seq<Visit>, st: WakeStatus)
    requires forall i :: 0 <= i < |visits| ==> !visits[i].landed
    ensures StatusAfter(r, visits, st) == st
  {
    if visits != [] {
      NothingLandedNothingChanged(r, visits[..|visits| - 1], st);
    }
  }

  /** The duration of a request is edited after a landed visit. At the next landed visit the expiry
      shown is the real one, if there is one, exactly when the edit changed nothing or the phase is
      another by then; turned down, the request goes on showing the expiry it had. */
  lemma ShownExpiryIsRealIff(r: Request, edited: Option<int>, visits: seq<Visit>, w: Visit, st: WakeStatus)
    requires visits != [] && OneWindowOneCap(visits + [w]) && st.phase == Unset
    requires visits[|visits| - 1].landed && w.landed
    requires r.duration.Some? ==> r.created + r.duration.value != ZERO_TIME
    ensures var v, after := visits[|visits| - 1], r.(duration := edited);
            var was, out := Classify(r, v.maxWake, v.now), Classify(after, w.maxWake, w.now);
            var before := StatusAfter(r, visits, st);
            var shown := AfterVisit(after, w, before);
            && shown.phase == out.phase
            && (was.phase != Rejected ==> before.expiresAt == Some(r.created + r.duration.value))
            && (out.expiresAt != ZERO_TIME ==>
                  (shown.expiresAt == Some(out.expiresAt) <==> edited == r.duration || out.phase != was.phase))
            && (out.phase == Rejected ==> shown.expiresAt == before.expiresAt)
  {
    var n := |visits| - 1;
    assert (visits + [w])[n] == visits[n] && (visits + [w])[n + 1] == w;
    assert forall i :: 0 <= i <= n ==> (visits + [w])[i] == visits[i];
    StatusShowsTheLastLandedVisit(r, visits, n, st);
  }

  /** An edit keeps a granted request active past its old expiry exactly when it is a longer duration
      that the cap still allows. */
  lemma EditExtendsIff(r: Request, edited: Option<int>, maxWake: int)
    requires r.duration.Some? && r.duration.value <= maxWake && maxWake > 0
    ensures (exists t :: r.created + r.duration.value <= t
                         && Classify(r.(duration := edited), maxWake, t).phase == Active)
            <==> edited.Some? && r.duration.value < edited.value <= maxWake
  {
    if edited.Some? && r.duration.value < edited.value <= maxWake {
      assert Classify(r.(duration := edited), maxWake, r.created + r.duration.value).phase == Active;
    }
  }

  /** With instants counting minutes: half an hour from minute 100, extended to a full hour. At
      minute 120 the request is good until minute 160 and still shows minute 130. */
  lemma ExtendedRequestShowsTheOldExpiry(name: string, window: string, st: WakeStatus)
    requires st.phase == Unset
    ensures var r := Request(name, 100, Some(30));
            var extended := r.(duration := Some(60));
            var first, second := Visit(window, 120, 110, true), Visit(window, 120, 120, true);
            && AfterVisit(extended, second, AfterVisit(r, first, st)).expiresAt == Some(130)
            && Classify(extended, 120, 120) == Outcome(Active, 160)
  {
  }

  /** One landed visit leaves nothing to write for the same window until the phase changes. */
  lemma RecordedSettlesIff(r: Request, a: Visit, b: Visit, st: WakeStatus)
    requires a.landed
    ensures NeedsWrite(b.window, Classify(r, b.maxWake, b.now), AfterVisit(r, a, st))
            <==> a.window != b.window || Classify(r, a.maxWake, a.now).phase != Classify(r, b.maxWake, b.now).phase
  {
  }

  /** Two windows in one namespace never settle: each claims the request from the other, so when
      they take turns every landed visit after the first is a write, and a write is what wakes
      both of them again. */
  lemma {:induction false} TwoWindowsNeverSettle(r: Request, visits: seq<Visit>, st: WakeStatus)
    requires visits != [] && forall i :: 0 <= i < |visits| ==> visits[i].landed
    requires forall i :: 0 <= i < |visits| - 1 ==> visits[i].window != visits[i + 1].window
    ensures CountWrites(r, visits, st) >= |visits| - 1
    ensures StatusAfter(r, visits, st).window == visits[|visits| - 1].window
  {
    var front := visits[..|visits| - 1];
    if front != [] {
      TwoWindowsNeverSettle(r, front, st);
    }
  }
}
