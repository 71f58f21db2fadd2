/**
 Runs of completed passes of one window, each starting from the status that is stored: what the
 phase and condition Events tell a reader when status writes are dropped.
 */
module StatusRuns {
  import opened Options
  import opened Reports
  import opened Window
  import opened WakeRequests
  import opened Verdicts
  import opened ChangeLogs
  import opened Conditions
  import opened Reconcile

  /** One completed pass: what it saw and did, and the world it ran in. */
  datatype Round = Round(state: WindowState, effective: WindowState, active: nat, report: Report,
                         failed: set<string>, world: World)
  {
    function Phase(): WindowPhase { PhaseOf(state, effective) }

    function Unblocked(): Condition { UnblockedCondition(report.blockers + world.pdbBlockers) }

    predicate Lands() { world.statusResult == Landed }

    function Computes(before: Status): Status { Concluded(before, state, effective, active, report, world) }

    function Emits(before: Status): seq<Event> { Announced(before, state, effective, report, failed, world) }
  }

  function StoredStatus(stored: Status, run: seq<Round>): Status {
    if run == [] then stored
    else
      var before, last := StoredStatus(stored, run[..|run| - 1]), run[|run| - 1];
      if last.Lands() then last.Computes(before) else before
  }

  function EventsOf(stored: Status, run: seq<Round>): seq<Event> {
    if run == [] then []
    else
      var front, last := run[..|run| - 1], run[|run| - 1];
      EventsOf(stored, front) + last.Emits(StoredStatus(stored, front))
  }

  // ----- Events of one kind -----

  /** What the events of one kind say, in order. */
  function Picked<T>(pick: Event -> Option<T>, events: seq<Event>): seq<T> {
    if events == [] then []
    else Picked(pick, events[..|events| - 1]) + Maybe(pick(events[|events| - 1]))
  }

  function Maybe<T>(value: Option<T>): seq<T> { if value.Some? then [value.value] else [] }

  lemma {:induction false} PickedConcat<T>(pick: Event -> Option<T>, a: seq<Event>, b: seq<Event>)
    ensures Picked(pick, a + b) == Picked(pick, a) + Picked(pick, b)
  {
    if b == [] {
      assert a + b == a;
    } else {
      assert (a + b)[..|a + b| - 1] == a + b[..|b| - 1];
      PickedConcat(pick, a, b[..|b| - 1]);
    }
  }

  /** Of the three kinds a completed pass can emit, each at most once and in this order. */
  lemma {:induction false} PickedOfThree<T>(pick: Event -> Option<T>, a: seq<Event>, b: seq<Event>, c: seq<Event>)
    requires |a| <= 1 && |b| <= 1 && |c| <= 1
    ensures Picked(pick, a + b + c)
            == (if a == [] then [] else Maybe(pick(a[0]))) + (if b == [] then [] else Maybe(pick(b[0])))
               + (if c == [] then [] else Maybe(pick(c[0])))
  {
    PickedConcat(pick, a + b, c);
    PickedConcat(pick, a, b);
    PickedOfOne(pick, a);
    PickedOfOne(pick, b);
    PickedOfOne(pick, c);
  }

  lemma {:induction false} PickedOfOne<T>(pick: Event -> Option<T>, a: seq<Event>)
    requires |a| <= 1
    ensures Picked(pick, a) == if a == [] then [] else Maybe(pick(a[0]))
  {
    if a != [] {
      assert Picked(pick, a[..0]) == [];
    }
  }

  lemma {:induction false} OneKindPerRound<T>(pick: Event -> Option<T>, r: Round, before: Status)
    ensures Picked(pick, r.Emits(before))
            == (if r.failed != {} then Maybe(pick(ScaleFailed(r.failed))) else [])
               + (if r.Phase() != before.phase then Maybe(pick(PhaseChanged(r.Phase()))) else [])
               + (if before.unblocked != Some(r.Unblocked()) then Maybe(pick(UnblockedChanged(r.Unblocked()))) else [])
  {
    PickedOfThree(pick,
                  if r.failed != {} then [ScaleFailed(r.failed)] else [],
                  if r.Phase() != before.phase then [PhaseChanged(r.Phase())] else [],
                  if before.unblocked != Some(r.Unblocked()) then [UnblockedChanged(r.Unblocked())] else []);
  }

  lemma {:induction false} PickedGrows<T>(pick: Event -> Option<T>, stored: Status, run: seq<Round>)
    requires run != []
    ensures var front, last := run[..|run| - 1], run[|run| - 1];
            Picked(pick, EventsOf(stored, run))
            == Picked(pick, EventsOf(stored, front)) + Picked(pick, last.Emits(StoredStatus(stored, front)))
  {
    var front, last := run[..|run| - 1], run[|run| - 1];
    PickedConcat(pick, EventsOf(stored, front), last.Emits(StoredStatus(stored, front)));
  }

  // ----- The phase -----

  function PhaseIn(e: Event): Option<WindowPhase> { if e.PhaseChanged? then Some(e.phase) else None }

  function PhasePasses(run: seq<Round>): seq<StatusPass<WindowPhase>> {
    seq(|run|, i requires 0 <= i < |run| => StatusPass(run[i].Phase(), run[i].Lands()))
  }

  lemma RoundTellsPhase(r: Round, before: Status)
    ensures Picked(PhaseIn, r.Emits(before)) == NewsSince(Some(before.phase), r.Phase())
  {
    OneKindPerRound(PhaseIn, r, before);
    var news := NewsSince(Some(before.phase), r.Phase());
    assert [] + news + [] == news;
  }

  lemma {:induction false} PhasePassesGrow(run: seq<Round>)
    requires run != []
    ensures var n := |run| - 1; PhasePasses(run)[..n] == PhasePasses(run[..n])
  {
  }

  lemma {:induction false} PhasesAreStored(stored: Status, run: seq<Round>)
    ensures StoredAfter(Some(stored.phase), PhasePasses(run)) == Some(StoredStatus(stored, run).phase)
  {
    if run != [] {
      PhasesAreStored(stored, run[..|run| - 1]);
      PhasePassesGrow(run);
    }
  }

  lemma {:induction false} PhasesAreEmitted(stored: Status, run: seq<Round>)
    ensures Emitted(Some(stored.phase), PhasePasses(run)) == Picked(PhaseIn, EventsOf(stored, run))
  {
    if run != [] {
      var front, last := run[..|run| - 1], run[|run| - 1];
      PhasesAreEmitted(stored, front);
      PhasesAreStored(stored, front);
      PhasePassesGrow(run);
      RoundTellsPhase(last, StoredStatus(stored, front));
      PickedGrows(PhaseIn, stored, run);
    }
  }

  /** The PhaseChanged Events of a run, after the phase stored before it, are the changes of the
      phase exactly when at every pass the stored phase tells the same as the previous one. */
  lemma PhaseEventsAreTheChangesIff(stored: Status, run: seq<Round>)
    ensures [stored.phase] + Picked(PhaseIn, EventsOf(stored, run))
            == ChangeLog([stored.phase] + Values(PhasePasses(run)))
            <==> AlwaysTells(Some(stored.phase), PhasePasses(run))
  {
    PhasesAreEmitted(stored, run);
    EventsAreTheChangesIff(Some(stored.phase), PhasePasses(run));
  }

  // ----- The Unblocked condition -----

  function ConditionIn(e: Event): Option<Condition> { if e.UnblockedChanged? then Some(e.condition) else None }

  function UnblockedPasses(run: seq<Round>): seq<StatusPass<Condition>> {
    seq(|run|, i requires 0 <= i < |run| => StatusPass(run[i].Unblocked(), run[i].Lands()))
  }

  lemma RoundTellsUnblocked(r: Round, before: Status)
    ensures Picked(ConditionIn, r.Emits(before)) == NewsSince(before.unblocked, r.Unblocked())
  {
    OneKindPerRound(ConditionIn, r, before);
    var news := NewsSince(before.unblocked, r.Unblocked());
    assert [] + news + [] == news;
  }

  lemma {:induction false} UnblockedPassesGrow(run: seq<Round>)
    requires run != []
    ensures var n := |run| - 1; UnblockedPasses(run)[..n] == UnblockedPasses(run[..n])
  {
  }

  lemma {:induction false} UnblockedAreStored(stored: Status, run: seq<Round>)
    ensures StoredAfter(stored.unblocked, UnblockedPasses(run)) == StoredStatus(stored, run).unblocked
  {
    if run != [] {
      UnblockedAreStored(stored, run[..|run| - 1]);
      UnblockedPassesGrow(run);
    }
  }

  lemma {:induction false} UnblockedAreEmitted(stored: Status, run: seq<Round>)
    ensures Emitted(stored.unblocked, UnblockedPasses(run)) == Picked(ConditionIn, EventsOf(stored, run))
  {
    if run != [] {
      var front, last := run[..|run| - 1], run[|run| - 1];
      UnblockedAreEmitted(stored, front);
      UnblockedAreStored(stored, front);
      UnblockedPassesGrow(run);
      RoundTellsUnblocked(last, StoredStatus(stored, front));
      PickedGrows(ConditionIn, stored, run);
    }
  }

  /** The same for the Events of the Unblocked condition, whether or not one was stored before. */
  lemma UnblockedEventsAreTheChangesIff(stored: Status, run: seq<Round>)
    ensures AsLog(stored.unblocked) + Picked(ConditionIn, EventsOf(stored, run))
            == ChangeLog(AsLog(stored.unblocked) + Values(UnblockedPasses(run)))
            <==> AlwaysTells(stored.unblocked, UnblockedPasses(run))
  {
    UnblockedAreEmitted(stored, run);
    EventsAreTheChangesIff(stored.unblocked, UnblockedPasses(run));
  }

  // ----- The last transition -----

  /** Round k is written and its phase is not the one stored before it. */
  predicate Transits(stored: Status, run: seq<Round>, k: nat)
    requires k < |run|
  {
    run[k].world.statusResult == Landed && run[k].Phase() != StoredStatus(stored, run[..k]).phase
  }

  /** Over any run the stored last transition is the clock reading of the last round that was written
      and changed the stored phase, and the one from before the run if there was none. */
  lemma {:induction false} LastTransitionIsTheLastChange(stored: Status, run: seq<Round>)
    ensures var at := StoredStatus(stored, run).lastTransition;
            if exists k :: 0 <= k < |run| && Transits(stored, run, k) then
              exists k :: 0 <= k < |run| && Transits(stored, run, k) && at == Some(run[k].world.phaseNow)
                          && forall j :: k < j < |run| ==> !Transits(stored, run, j)
            else at == stored.lastTransition
  {
    if run != [] {
      var n := |run| - 1;
      var front := run[..n];
      LastTransitionIsTheLastChange(stored, front);
      forall k | 0 <= k < n ensures Transits(stored, front, k) <==> Transits(stored, run, k) {
        assert front[..k] == run[..k];
      }
      if Transits(stored, run, n) {
        assert StoredStatus(stored, run).lastTransition == Some(run[n].world.phaseNow);
      } else {
        assert StoredStatus(stored, run).lastTransition == StoredStatus(stored, front).lastTransition;
      }
    }
  }
}
