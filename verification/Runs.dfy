/**
 Whole runs over one namespace: passes of any number of windows, patches that do not land,
 passes that stop half way, and people writing to the workloads in between.
 */
module Runs {
  import opened Options
  import opened Decimal
  import opened Workloads

  type Namespace = map<string, Workload>

  /** One pass. It acts unless its window is suspended or its schedule is unreadable; landed
      names the workloads whose patch, if one is sent, reaches the cluster. A pass that stops
      half way is a pass whose remaining patches do not land. */
  datatype Pass = Pass(
    policy: Policy,
    asleep: bool,
    acts: bool,
    selected: set<string>,
    hpaOwned: set<string>,
    landed: set<string>)
  {
    predicate Reaches(name: string) { acts && name in selected && name in landed }

    function On(name: string, d: Workload): Workload {
      if Reaches(name) then Step(policy, asleep, name in hpaOwned, d) else d
    }

    /** The pass reaches this workload and its window does not leave it to an autoscaler. */
    predicate Governs(name: string) { Reaches(name) && !(name in hpaOwned && policy.hpaPolicy != Scale) }

    predicate Patches(name: string, d: Workload) {
      acts && name in selected && Decide(policy, asleep, name in hpaOwned, d).patch.Some?
    }
  }

  datatype Happening = Reconciled(pass: Pass) | Written(name: string, after: Workload)

  function AfterPass(ns: Namespace, pass: Pass): Namespace {
    map name | name in ns :: pass.On(name, ns[name])
  }

  function After(ns: Namespace, h: Happening): Namespace {
    match h
    case Reconciled(pass) => AfterPass(ns, pass)
    case Written(name, after) => ns[name := after]
  }

  function Run(ns: Namespace, run: seq<Happening>): Namespace {
    if run == [] then ns else After(Run(ns, run[..|run| - 1]), run[|run| - 1])
  }

  lemma {:induction false} RunConcat(ns: Namespace, first: seq<Happening>, second: seq<Happening>)
    ensures Run(ns, first + second) == Run(Run(ns, first), second)
  {
    if second == [] {
      assert first + second == first;
    } else {
      var whole, last := first + second, |second| - 1;
      assert whole[..|whole| - 1] == first + second[..last];
      RunConcat(ns, first, second[..last]);
    }
  }

  predicate OnlyPasses(run: seq<Happening>) {
    forall i :: 0 <= i < |run| ==> run[i].Reconciled?
  }

  /** A pass changes the workloads it selects and whose patch lands, if it acts at all; every other
      workload of the namespace stays, and none comes or goes. */
  lemma PassReachesOnlyWhatLands(ns: Namespace, pass: Pass, name: string)
    ensures name in AfterPass(ns, pass) <==> name in ns
    ensures name in ns ==>
              AfterPass(ns, pass)[name]
              == if pass.acts && name in pass.selected && name in pass.landed
                 then Decide(pass.policy, pass.asleep, name in pass.hpaOwned, ns[name]).patch.GetOr(ns[name])
                 else ns[name]
  {
  }

  // ----- Conservation of the owed size -----

  /** What the last outside write left, or what was there at the start. */
  function LastWrite(initial: Workload, name: string, run: seq<Happening>): Workload {
    if run == [] then initial
    else
      var last := run[|run| - 1];
      if last.Written? && last.name == name then last.after
      else LastWrite(initial, name, run[..|run| - 1])
  }

  /** Happening i is a pass that overrides a person at this workload. */
  predicate OverridesAt(ns: Namespace, run: seq<Happening>, name: string, i: nat)
    requires i < |run|
  {
    && run[i].Reconciled? && run[i].pass.Reaches(name)
    && name in Run(ns, run[..i])
    && var p := run[i].pass; Overrides(p.policy, p.asleep, name in p.hpaOwned, Run(ns, run[..i])[name])
  }

  /** Over any interleaving of passes of respecting and overriding windows, lost patches, edits of
      the policies and outside writes: as long as no pass overrides a person, each workload is owed
      exactly what the last outside write made it owe. */
  lemma {:induction false} OwedIsConserved(ns: Namespace, run: seq<Happening>, name: string)
    requires name in ns
    requires forall i :: 0 <= i < |run| ==> !OverridesAt(ns, run, name, i)
    ensures name in Run(ns, run)
    ensures Owed(Run(ns, run)[name]) == Owed(LastWrite(ns[name], name, run))
  {
    if run != [] {
      var n := |run| - 1;
      var before, last := run[..n], run[n];
      forall i | 0 <= i < n ensures !OverridesAt(ns, before, name, i) {
        assert before[..i] == run[..i];
        assert !OverridesAt(ns, run, name, i);
      }
      OwedIsConserved(ns, before, name);
      assert !OverridesAt(ns, run, name, n);
      if last.Reconciled? {
        var p := last.pass;
        StepKeepsOwedIff(p.policy, p.asleep, name in p.hpaOwned, Run(ns, before)[name]);
      }
    }
  }

  /** Windows that respect people never override anybody. */
  lemma OwedChangesOnlyByOutsideWrites(ns: Namespace, run: seq<Happening>, name: string)
    requires name in ns
    requires forall i :: 0 <= i < |run| && run[i].Reconciled? ==> run[i].pass.policy.Respects()
    ensures name in Run(ns, run)
    ensures Owed(Run(ns, run)[name]) == Owed(LastWrite(ns[name], name, run))
  {
    OwedIsConserved(ns, run, name);
  }

  /** Windows that override people conserve the recorded size instead, through any interleaving. */
  lemma {:induction false} RecordedSizeUnderOverridingWindows(ns: Namespace, run: seq<Happening>, name: string)
    requires name in ns
    requires forall i :: 0 <= i < |run| && run[i].Reconciled? ==> !run[i].pass.policy.Respects()
    ensures name in Run(ns, run)
    ensures Original(Run(ns, run)[name]) == Original(LastWrite(ns[name], name, run))
  {
    if run != [] {
      var before, last := run[..|run| - 1], run[|run| - 1];
      RecordedSizeUnderOverridingWindows(ns, before, name);
      if last.Reconciled? {
        var p := last.pass;
        StepKeepsOriginalIff(p.policy, p.asleep, name in p.hpaOwned, Run(ns, before)[name]);
      }
    }
  }

  lemma {:induction false} PassesAddNoManualChange(ns: Namespace, run: seq<Happening>, name: string)
    requires name in ns && !ManuallyChanged(ns[name])
    requires OnlyPasses(run)
    ensures name in Run(ns, run) && !ManuallyChanged(Run(ns, run)[name])
    ensures LastWrite(ns[name], name, run) == ns[name]
  {
    if run != [] {
      var before, p := run[..|run| - 1], run[|run| - 1].pass;
      PassesAddNoManualChange(ns, before, name);
      StepAddsNoManualChange(p.policy, p.asleep, name in p.hpaOwned, Run(ns, before)[name]);
    }
  }

  lemma NobodyIsOverridden(ns: Namespace, run: seq<Happening>, name: string)
    requires name in ns && !ManuallyChanged(ns[name])
    requires OnlyPasses(run)
    ensures forall i :: 0 <= i < |run| ==> !OverridesAt(ns, run, name, i)
  {
    forall i | 0 <= i < |run| ensures !OverridesAt(ns, run, name, i) {
      PassesAddNoManualChange(ns, run[..i], name);
    }
  }

  /** If nobody changes the workload by hand, the flag does not matter: windows of either kind
      may overlap and the owed size is still conserved. */
  lemma OwedConservedWithoutManualChanges(ns: Namespace, run: seq<Happening>, name: string)
    requires name in ns && !ManuallyChanged(ns[name])
    requires OnlyPasses(run)
    ensures name in Run(ns, run) && !ManuallyChanged(Run(ns, run)[name])
    ensures Owed(Run(ns, run)[name]) == Owed(ns[name])
  {
    NobodyIsOverridden(ns, run, name);
    OwedIsConserved(ns, run, name);
    PassesAddNoManualChange(ns, run, name);
  }

  /** Stop at any moment of any run in which nobody was overridden, losing the windows and the
      controller: the workload runs at the size it is owed or carries that size in its own
      annotation. */
  lemma NeverStranded(ns: Namespace, run: seq<Happening>, name: string)
    requires name in ns
    requires forall i :: 0 <= i < |run| ==> !OverridesAt(ns, run, name, i)
    ensures name in Run(ns, run)
    ensures var d, owed := Run(ns, run)[name], Owed(LastWrite(ns[name], name, run));
            Current(d) == owed || Saved(d) == Some(owed)
  {
    OwedIsConserved(ns, run, name);
  }

  /** In particular an untouched workload that nobody else writes to never loses its size. */
  lemma UntouchedIsNeverStranded(ns: Namespace, run: seq<Happening>, name: string)
    requires name in ns && Untouched(ns[name])
    requires OnlyPasses(run)
    ensures name in Run(ns, run)
    ensures var d := Run(ns, run)[name];
            Current(d) == Current(ns[name]) || Saved(d) == Some(Current(ns[name]))
  {
    NobodyIsOverridden(ns, run, name);
    NeverStranded(ns, run, name);
    PassesAddNoManualChange(ns, run, name);
  }

  // ----- History independence -----

  /** Everything a window called owner can have turned an untouched workload into. */
  ghost predicate OnlyScaledBy(owner: string, initial: Workload, d: Workload) {
    || (d.annotations == initial.annotations && Current(d) == Current(initial))
    || SleepingAs(owner, initial, d)
  }

  ghost predicate SleepingAs(owner: string, initial: Workload, d: Workload) {
    && d.replicas.Some?
    && d.annotations == Noted(initial.annotations, Current(initial), d.replicas.value, owner)
  }

  lemma NotesReplaceNotes(a: Annotations, n: int32, m: int32, to: int32, owner: string)
    ensures Noted(Noted(a, n, m, owner), n, to, owner) == Noted(a, n, to, owner)
    ensures a.Keys !! BOOKKEEPING ==> Noted(a, n, m, owner) - BOOKKEEPING == a
  {
  }

  lemma SleepingStep(p: Policy, asleep: bool, initial: Workload, d: Workload)
    requires Untouched(initial) && SleepingAs(p.name, initial, d) && !p.LeavesToHpa(false)
    ensures Step(p, asleep, false, d)
            == if asleep then ScaledTo(p, initial, p.Min(), Current(initial))
               else Workload(Some(Current(initial)), initial.annotations)
  {
    var m := d.replicas.value;
    CountsReadBack(d.annotations, SavedReplicas, Current(initial));
    CountsReadBack(d.annotations, AppliedReplicas, m);
    NotesReplaceNotes(initial.annotations, Current(initial), m, p.Min(), p.name);
  }

  lemma StepStaysOnlyScaled(p: Policy, asleep: bool, hpaOwned: bool, initial: Workload, d: Workload)
    requires Untouched(initial) && OnlyScaledBy(p.name, initial, d)
    ensures var e := Step(p, asleep, hpaOwned, d);
            && OnlyScaledBy(p.name, initial, e)
            && (!p.LeavesToHpa(hpaOwned) ==>
                  if asleep then e == ScaledTo(p, initial, p.Min(), Current(initial))
                  else e.annotations == initial.annotations && Current(e) == Current(initial))
  {
    if !p.LeavesToHpa(hpaOwned) {
      assert Step(p, asleep, hpaOwned, d) == Step(p, asleep, false, d);
      if SleepingAs(p.name, initial, d) {
        SleepingStep(p, asleep, initial, d);
      }
    }
  }

  lemma {:induction false} RunStaysOnlyScaled(owner: string, ns: Namespace, run: seq<Happening>, name: string)
    requires name in ns && Untouched(ns[name])
    requires OnlyPasses(run) && forall i :: 0 <= i < |run| ==> run[i].pass.policy.name == owner
    ensures name in Run(ns, run) && OnlyScaledBy(owner, ns[name], Run(ns, run)[name])
  {
    if run != [] {
      var before, p := run[..|run| - 1], run[|run| - 1].pass;
      RunStaysOnlyScaled(owner, ns, before, name);
      StepStaysOnlyScaled(p.policy, p.asleep, name in p.hpaOwned, ns[name], Run(ns, before)[name]);
    }
  }

  /** However many passes of the window came before, missed, repeated, failed or made under other
      settings, the last landed pass alone decides where the workload ends: text for text when
      asleep, and back to its original size without a trace when awake. */
  lemma LastPassDecides(ns: Namespace, run: seq<Happening>, last: Pass, name: string)
    requires name in ns && Untouched(ns[name]) && last.Governs(name)
    requires OnlyPasses(run) && forall i :: 0 <= i < |run| ==> run[i].pass.policy.name == last.policy.name
    ensures var ns' := Run(ns, run + [Reconciled(last)]);
            && name in ns'
            && if last.asleep then ns'[name] == ScaledTo(last.policy, ns[name], last.policy.Min(), Current(ns[name]))
               else ns'[name].annotations == ns[name].annotations && Current(ns'[name]) == Current(ns[name])
  {
    RunStaysOnlyScaled(last.policy.name, ns, run, name);
    StepStaysOnlyScaled(last.policy, last.asleep, name in last.hpaOwned, ns[name], Run(ns, run)[name]);
    assert (run + [Reconciled(last)])[..|run|] == run;
  }

  // ----- Someone scaling by hand wins -----

  /** A run of passes of windows that respect people. */
  predicate Respectful(run: seq<Happening>) {
    OnlyPasses(run) && forall i :: 0 <= i < |run| ==> run[i].pass.policy.Respects()
  }

  /** No pass of the run hands the workload back: each one is asleep or does not govern it. */
  predicate StaysNight(run: seq<Happening>, name: string) {
    Respectful(run) && forall i :: 0 <= i < |run| ==> run[i].pass.asleep || !run[i].pass.Governs(name)
  }

  ghost predicate StandsThroughout(ns: Namespace, run: seq<Happening>, name: string)
    requires name in ns
  {
    forall i :: 0 <= i <= |run| ==> RunHolds(ns, run[..i], name, ns[name])
  }

  predicate RunHolds(ns: Namespace, run: seq<Happening>, name: string, d: Workload) {
    name in Run(ns, run) && Run(ns, run)[name] == d
  }

  lemma {:induction false} ManualSizeStands(ns: Namespace, night: seq<Happening>, name: string)
    requires name in ns && ManuallyChanged(ns[name])
    requires Respectful(night) && (SavedReplicas !in ns[name].annotations || StaysNight(night, name))
    ensures RunHolds(ns, night, name, ns[name])
  {
    if night != [] {
      ManualSizeStands(ns, night[..|night| - 1], name);
    }
  }

  /** A hand-scaled workload is left alone by every pass of a run exactly when there is no saved
      size to drop or every pass that governs it is asleep. One awake pass is enough to end that,
      whether the window is over or a wake request interrupts it. */
  lemma ManualSizeStandsIff(ns: Namespace, run: seq<Happening>, name: string)
    requires name in ns && ManuallyChanged(ns[name]) && Respectful(run)
    ensures StandsThroughout(ns, run, name) <==> SavedReplicas !in ns[name].annotations || StaysNight(run, name)
  {
    if SavedReplicas !in ns[name].annotations || StaysNight(run, name) {
      forall i | 0 <= i <= |run| ensures RunHolds(ns, run[..i], name, ns[name]) {
        ManualSizeStands(ns, run[..i], name);
      }
    } else {
      var i :| 0 <= i < |run| && !run[i].pass.asleep && run[i].pass.Governs(name);
      var p := run[i].pass;
      WakeHandsBackIff(p.policy, name in p.hpaOwned, ns[name]);
      assert run[..i + 1][..i] == run[..i];
      if RunHolds(ns, run[..i], name, ns[name]) {
        assert !RunHolds(ns, run[..i + 1], name, ns[name]);
      }
    }
  }

  /** A day: no pass puts the workload to sleep. */
  predicate StaysDay(run: seq<Happening>, name: string) {
    && OnlyPasses(run)
    && forall i :: 0 <= i < |run| ==> !run[i].pass.asleep || !run[i].pass.Governs(name)
  }

  lemma {:induction false} UntouchedStaysThroughTheDay(ns: Namespace, day: seq<Happening>, name: string)
    requires name in ns && Untouched(ns[name]) && StaysDay(day, name)
    ensures name in Run(ns, day) && Run(ns, day)[name] == ns[name]
  {
    if day != [] {
      UntouchedStaysThroughTheDay(ns, day[..|day| - 1], name);
    }
  }

  /** A size chosen by hand during a sleep survives the rest of the night, is what the workload
      runs at after the wake, and is what the next sleep records for restoring. */
  lemma ManualSizeWins(ns: Namespace, night: seq<Happening>, wake: Pass, day: seq<Happening>, sleep: Pass, name: string)
    requires name in ns && ManuallyChanged(ns[name]) && SavedReplicas in ns[name].annotations
    requires StaysNight(night, name) && StaysDay(day, name)
    requires wake.Governs(name) && wake.policy.Respects() && !wake.asleep
    requires sleep.Governs(name) && sleep.asleep
    ensures var evening := Run(ns, night + [Reconciled(wake)] + day);
            && name in evening && evening[name] == Forgotten(ns[name])
            && Current(evening[name]) == Current(ns[name]) && Untouched(evening[name])
            && AfterPass(evening, sleep)[name]
               == ScaledTo(sleep.policy, evening[name], sleep.policy.Min(), Current(ns[name]))
            && Saved(AfterPass(evening, sleep)[name]) == Some(Current(ns[name]))
  {
    var morning := Run(ns, night + [Reconciled(wake)]);
    ManualSizeStands(ns, night, name);
    assert (night + [Reconciled(wake)])[..|night|] == night;
    assert morning[name] == Forgotten(ns[name]);
    UntouchedStaysThroughTheDay(morning, day, name);
    RunConcat(ns, night + [Reconciled(wake)], day);
    ScaledToReads(sleep.policy, morning[name], sleep.policy.Min(), Current(ns[name]));
  }

  /** The bookkeeping is dropped only if the saved-replicas annotation is there. Without it a
      hand-scaled workload keeps its stale applied-replicas note and every later pass, asleep or
      awake, of every respecting window stands down for good. */
  lemma LosingTheSavedSizeMeansStandingDownForGood(ns: Namespace, run: seq<Happening>, name: string)
    requires name in ns && ManuallyChanged(ns[name]) && SavedReplicas !in ns[name].annotations
    requires Respectful(run)
    ensures name in Run(ns, run) && Run(ns, run)[name] == ns[name]
  {
    ManualSizeStands(ns, run, name);
  }

  /** Whether one awake pass hands a hand-scaled workload back depends on that annotation alone. */
  lemma WakeHandsBackIff(p: Policy, hpaOwned: bool, d: Workload)
    requires ManuallyChanged(d) && p.Respects() && !p.LeavesToHpa(hpaOwned)
    ensures var e := Step(p, false, hpaOwned, d);
            && e.replicas == d.replicas
            && (!ManuallyChanged(e) <==> SavedReplicas in d.annotations)
            && (Untouched(e) <==> SavedReplicas in d.annotations)
  {
  }

  // ----- Autoscaled workloads -----

  /** Under any windows with policy Skip, Warn or none, a Deployment with an autoscaler stays for ever
      as the last outside write left it. */
  lemma {:induction false} AutoscaledStaysAsWritten(ns: Namespace, run: seq<Happening>, name: string)
    requires name in ns
    requires forall i :: 0 <= i < |run| && run[i].Reconciled? ==>
               name in run[i].pass.hpaOwned && run[i].pass.policy.hpaPolicy in {Skip, Warn, Unset}
    ensures name in Run(ns, run) && Run(ns, run)[name] == LastWrite(ns[name], name, run)
  {
    if run != [] {
      var before, last := run[..|run| - 1], run[|run| - 1];
      AutoscaledStaysAsWritten(ns, before, name);
      if last.Reconciled? {
        AutoscalersUnderEachPolicy(last.pass.policy, last.pass.asleep, Run(ns, before)[name]);
      }
    }
  }

  // ----- Partial passes -----

  /** The same pass, tried several times with different patches landing. */
  function Attempts(pass: Pass, landings: seq<set<string>>): seq<Happening> {
    seq(|landings|, i requires 0 <= i < |landings| => Reconciled(pass.(landed := landings[i])))
  }

  lemma {:induction false} AttemptsDoAllOrNothing(ns: Namespace, pass: Pass, landings: seq<set<string>>, name: string)
    requires name in ns && pass.selected <= pass.landed
    ensures var ns' := Run(ns, Attempts(pass, landings));
            && name in ns'
            && (ns'[name] == ns[name] || ns'[name] == pass.On(name, ns[name]))
  {
    if landings != [] {
      var n := |landings| - 1;
      assert Attempts(pass, landings)[..n] == Attempts(pass, landings[..n]);
      AttemptsDoAllOrNothing(ns, pass, landings[..n], name);
      StepSettles(pass.policy, pass.asleep, name in pass.hpaOwned, ns[name]);
    }
  }

  /** Any number of partial attempts followed by one that lands everywhere is the same as that
      one alone, and nothing is left to patch. */
  lemma PartialPassesAreAbsorbed(ns: Namespace, pass: Pass, landings: seq<set<string>>)
    requires pass.selected <= pass.landed
    ensures var settled := AfterPass(ns, pass);
            && AfterPass(Run(ns, Attempts(pass, landings)), pass) == settled
            && forall name <- settled :: !pass.Patches(name, settled[name])
  {
    var tried := Run(ns, Attempts(pass, landings));
    AttemptsKeepNames(ns, pass, landings);
    forall name | name in ns
      ensures pass.On(name, tried[name]) == pass.On(name, ns[name])
      ensures !pass.Patches(name, pass.On(name, ns[name]))
    {
      StepSettles(pass.policy, pass.asleep, name in pass.hpaOwned, ns[name]);
      AttemptsDoAllOrNothing(ns, pass, landings, name);
    }
  }

  lemma {:induction false} AttemptsKeepNames(ns: Namespace, pass: Pass, landings: seq<set<string>>)
    ensures Run(ns, Attempts(pass, landings)).Keys == ns.Keys
  {
    if landings != [] {
      var n := |landings| - 1;
      assert Attempts(pass, landings)[..n] == Attempts(pass, landings[..n]);
      AttemptsKeepNames(ns, pass, landings[..n]);
    }
  }

  // ----- Overlapping windows -----

  /** A window's settings, its verdict of the moment, and whether it finds the workload autoscaled. */
  datatype Side = Side(policy: Policy, asleep: bool, hpaOwned: bool) {
    function On(d: Workload): Workload { Step(policy, asleep, hpaOwned, d) }

    predicate Patches(d: Workload) { Decide(policy, asleep, hpaOwned, d).patch.Some? }

    predicate Leaves() { hpaOwned && policy.hpaPolicy != Scale }
  }

  predicate Agree(a: Side, b: Side) { a.asleep == b.asleep && (a.asleep ==> a.policy.Min() == b.policy.Min()) }

  function Rounds(a: Side, b: Side, d: Workload, n: nat): Workload {
    if n == 0 then d else b.On(a.On(Rounds(a, b, d, n - 1)))
  }

  /** Neither side has anything to patch. */
  predicate AtRest(a: Side, b: Side, d: Workload) { !a.Patches(d) && !b.Patches(a.On(d)) }

  /** The workload is the operator's, and stands where this side wants it. */
  ghost predicate Settled(side: Side, d: Workload) {
    Tracked(Owed(d), d) && InPlace(side.policy, side.asleep, Owed(d), d)
  }

  /** A side that patches at all leaves sound bookkeeping behind, whatever it found. */
  lemma PatchSettles(side: Side, d: Workload)
    requires side.Patches(d)
    ensures Settled(side, side.On(d))
  {
    ScaledToReads(side.policy, d, side.policy.Min(), Original(d));
    ForgottenReads(d);
  }

  lemma SettledByNext(side: Side, d: Workload)
    requires Tracked(Owed(d), d) && !side.Leaves()
    ensures Settled(side, side.On(d)) && Owed(side.On(d)) == Owed(d)
  {
    StepPutsInPlace(side.policy, side.asleep, side.hpaOwned, Owed(d), d);
  }

  /** Where one side is settled the other has something to patch exactly when they disagree. */
  lemma SettledPatchesIff(done: Side, next: Side, d: Workload)
    requires Settled(done, d) && !next.Leaves()
    ensures next.Patches(d) <==> !Agree(done, next)
  {
  }

  /** If either side finds something to patch, both are in play from the first round on. */
  lemma {:induction false} RoundsSettle(a: Side, b: Side, d: Workload, n: nat)
    requires n > 0 && !a.Leaves() && !b.Leaves() && !AtRest(a, b, d)
    ensures Settled(b, Rounds(a, b, d, n))
  {
    var start := Rounds(a, b, d, n - 1);
    if n > 1 {
      RoundsSettle(a, b, d, n - 1);
      SettledByNext(a, start);
      SettledByNext(b, a.On(start));
    } else if a.Patches(d) {
      PatchSettles(a, d);
      SettledByNext(b, a.On(d));
    } else {
      PatchSettles(b, d);
    }
  }

  lemma {:induction false} RestLasts(a: Side, b: Side, d: Workload, n: nat)
    requires AtRest(a, b, d)
    ensures Rounds(a, b, d, n) == d
  {
    if n > 0 {
      RestLasts(a, b, d, n - 1);
    }
  }

  lemma {:induction false} OneSideSettles(a: Side, b: Side, d: Workload, n: nat)
    requires n > 0 && (a.Leaves() || b.Leaves())
    ensures AtRest(a, b, Rounds(a, b, d, n))
  {
    var start := Rounds(a, b, d, n - 1);
    StepSettles(a.policy, a.asleep, a.hpaOwned, start);
    StepSettles(b.policy, b.asleep, b.hpaOwned, a.On(start));
  }

  /** Two windows that select the same workload, in whatever state it is, come to rest after any
      number of rounds exactly when they give the same verdict and, asleep, the same minimum; or had
      nothing to patch to begin with; or one of them leaves the workload to its autoscaler. Otherwise
      each undoes the other in every round, for ever: owned-by is written and never read. */
  lemma OverlapRestsIff(a: Side, b: Side, d: Workload, n: nat)
    requires n > 0
    ensures var e := Rounds(a, b, d, n);
            var rests := Agree(a, b) || AtRest(a, b, d) || a.Leaves() || b.Leaves();
            && (AtRest(a, b, e) <==> rests)
            && (!rests ==> a.Patches(e) && b.Patches(a.On(e)))
  {
    var e := Rounds(a, b, d, n);
    if AtRest(a, b, d) {
      RestLasts(a, b, d, n);
    } else if a.Leaves() || b.Leaves() {
      OneSideSettles(a, b, d, n);
    } else {
      RoundsSettle(a, b, d, n);
      SettledPatchesIff(b, a, e);
      SettledByNext(a, e);
      SettledPatchesIff(a, b, a.On(e));
    }
  }

  lemma {:induction false} RoundsKeepTracked(a: Side, b: Side, size: int32, d: Workload, n: nat)
    requires Tracked(size, d) && !a.Leaves() && !b.Leaves()
    ensures Tracked(size, Rounds(a, b, d, n))
  {
    if n > 0 {
      var start := Rounds(a, b, d, n - 1);
      RoundsKeepTracked(a, b, size, d, n - 1);
      SideKeepsTracked(a, size, start);
      SideKeepsTracked(b, size, a.On(start));
    }
  }

  lemma SideKeepsTracked(side: Side, size: int32, d: Workload)
    requires Tracked(size, d) && !side.Leaves()
    ensures Tracked(size, side.On(d))
  {
    StepPutsInPlace(side.policy, side.asleep, side.hpaOwned, size, d);
  }

  /** With sound bookkeeping only the verdicts and the minimums matter. */
  lemma OverlapSettlesIff(a: Side, b: Side, size: int32, d: Workload, n: nat)
    requires Tracked(size, d) && n > 0 && !a.Leaves() && !b.Leaves()
    ensures Tracked(size, Rounds(a, b, d, n))
    ensures var e := Rounds(a, b, d, n);
            && (!a.Patches(e) <==> Agree(a, b))
            && (!b.Patches(a.On(e)) <==> Agree(a, b))
  {
    OverlapRestsIff(a, b, d, n);
    RoundsKeepTracked(a, b, size, d, n);
    if AtRest(a, b, d) {
      SettledByNext(a, d);
      SettledByNext(b, d);
    }
  }

  /** Two respecting windows do come to rest, whatever they disagree on, over a hand-scaled workload
      whose recorded size is gone, or while both are asleep: both stand down from it. */
  lemma OverlapStandsDownTogether(a: Side, b: Side, d: Workload, n: nat)
    requires a.policy.Respects() && b.policy.Respects() && ManuallyChanged(d)
    requires SavedReplicas !in d.annotations || (a.asleep && b.asleep)
    ensures Rounds(a, b, d, n) == d && AtRest(a, b, d)
  {
    RestLasts(a, b, d, n);
  }
}
