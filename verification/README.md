# idle-reaper, verified

A Dafny model of the idle-reaper operator's reconcile loop and proofs of what it promises. The
operator scales the Deployments of a namespace down while a declared window is idle and back up
afterwards, remembering everything it needs in annotations on the Deployments themselves.

The files follow the operator's parts:

| file | part |
|---|---|
| `Workload.dfy`, `Decimal.dfy` | one Deployment, its three bookkeeping annotations as decimal text, and the decision a pass makes about it |
| `Runs.dfy` | whole runs over a namespace: several windows, lost patches, half passes, outside writes |
| `Reconciler.dfy` | the workload loop as it runs: local copies changed in place, patched one at a time, a tally on the side |
| `Reports.dfy`, `Resources.dfy` | what a pass counts and how much it reports as reclaimed |
| `Window.dfy`, `Daily.dfy` | the schedule comparison and the timer; schedules with one firing a period |
| `WakeRequests.dfy` | requests that hold a namespace awake, and what is written back to them |
| `Verdicts.dfy`, `Quiescence.dfy`, `Tracking.dfy` | schedule and requests merged, the deadline, rest between deadlines, and the real-time bound |
| `Nodes.dfy` | the census of drainable nodes |
| `Interplay.dfy` | wake requests in the middle of a sleep and workloads scaled by hand |
| `Conditions.dfy`, `ChangeLogs.dfy` | the Unblocked condition; Events as a change log |
| `Reconcile.dfy`, `StatusRuns.dfy` | one whole pass, tying the parts together; what a run of passes announces |
| `Options.dfy`, `Sequences.dfy` | an option type; facts about sequences |

Central notions. The *owed* size of a workload (`Workloads.Owed`) is the count a person chose, if
they changed it since the operator last wrote it, and otherwise the recorded size, or the current
one if none is recorded. A schedule is the function giving the next firing after an instant
(`Window.Cron`), which is the same as an unbounded set of instants. A workload is *in place*
(`Workloads.InPlace`) when it stands where the verdict says: at the minimum with its size on
record, or at its size without a trace.

Where the code and its documentation differ, the model follows the code and the difference is a
theorem:

- The comparison of next firings is described as right for any pair of recurring schedules. It is
  right exactly for pairs whose boundaries alternate (`Window.ForwardTestLooksBackIffAlternating`,
  `Window.VerdictFlipsAtNextIffAlternating`); a nightly sleep with a weekday wake is the
  counterexample (`Daily.SaturdayNoonReadsAwake`).
- The owned-by annotation is described as keeping two windows from fighting over a Deployment. It
  is never read: unless they agree, have nothing to patch from the start, or one leaves the workload
  to its autoscaler, they fight in every round (`Runs.OverlapRestsIff`).
- A workload scaled by hand is described as left alone for the remainder of the window. A wake request
  in between ends that: it hands the workload over, and when it lapses the same sleep scales it down
  (`Interplay.ManualSizeStandsForTheSleepIff`, `Interplay.WakeRequestEndsTheTruce`).
- Two windows in one namespace also keep rewriting each wake request
  (`WakeRequests.TwoWindowsNeverSettle`).
- A request is described as unable to extend itself (wakerequest.go:44-47), its expiry as not extended
  by editing (wakerequest_types.go:82-85). Editing the duration in its spec extends it exactly when the
  new one is longer and within the cap (`WakeRequests.EditExtendsIff`), and the shown expiry follows an
  edit exactly when the phase has changed by then (`WakeRequests.ShownExpiryIsRealIff`).
- The owed size is conserved by any mix of windows until a pass overrides a person; the exact
  exception is `Workloads.Overrides` (`Workloads.StepKeepsOwedIff`, `Runs.OwedIsConserved`).
- A pass is described as acting on the current clock. It reads it twice, and across a wake it can act
  on a verdict that held at neither reading (`Verdicts.TwoReadingsMisleadIff`,
  `Tracking.AwakeYetPutToSleep`).
- Dropping a status write on a conflict is described as losing nothing. It can lose an Event or repeat
  one, of the phase and of the Unblocked condition alike, under an exact condition on the stored and
  the previous value (`StatusRuns.PhaseEventsAreTheChangesIff`,
  `StatusRuns.UnblockedEventsAreTheChangesIff`).
- A hand-scaled workload is released at the wake only if its saved-replicas annotation is still
  there (`Runs.WakeHandsBackIff`, `Runs.LosingTheSavedSizeMeansStandingDownForGood`).
- An Event is emitted when the *set* of blockers changes, and also when the same set is listed in
  another order (`Conditions.ConditionChangesIffBlockersDo`).

`dafny verify dfyconfig.toml` checks the project.

## Model

| member | source | states |
|---|---|---|
| Tracking.WorkloadsTrackTheVerdict | operators/idle-reaper/internal/controller/idlewindow_controller.go:119-211 | At every instant after a landed patch, however many have failed since, the workload is where the verdict of that instant puts it, unless that verdict flipped within the lag plus one retry per failed patch, or the landed pass read the clock on both sides of a schedule boundary just as recently and acted on a verdict of neither reading; passes may take time and come early |
| Tracking.SomePatchLandedLast | operators/idle-reaper/internal/controller/idlewindow_controller.go:155-166 | From the first landed patch to the last pass, every instant has a last landed patch and a number of failed ones since, so the bound covers the whole run |
| Tracking.AwakeYetPutToSleep | operators/idle-reaper/internal/controller/idlewindow_controller.go:119-138 | A concrete pass that reads the clock on both sides of a wake puts a workload to sleep although both instants say awake and no verdict flipped within ten minutes: the second exception of the bound is real |
| Tracking.StaleVerdictMeansAFlip | operators/idle-reaper/internal/controller/idlewindow_controller.go:119-141 | If the verdict differs from the one a pass acted on, it flipped at or after the announced deadline, or the two readings misled the pass and a boundary lies between them |
| Tracking.InstantPassesLagByTheMargin | operators/idle-reaper/internal/controller/window.go:83-97 | With passes that take no time the lag is the five-second margin and a flip is the only exception |
| Tracking.MissesDelayThePatch | operators/idle-reaper/internal/controller/idlewindow_controller.go:155-166 | Each failed patch delays the next one by at most ten minutes and two passes beyond the deadline the last landed pass announced, the ten minutes as a literal |
| Tracking.NextPatchIsSoon | operators/idle-reaper/internal/controller/window.go:90-106 | The patch after a pass comes no later than the announced deadline plus the lag, even if the pass ran past the deadline |
| Workloads.AutoscalersUnderEachPolicy | operators/idle-reaper/internal/controller/idlewindow_controller.go:263-270 | For every workload state: under Skip, Warn or no policy an autoscaled workload gets no patch and is skipped, named under Warn only; under Scale it is treated as if it had no autoscaler |
| Runs.AutoscaledStaysAsWritten | operators/idle-reaper/internal/controller/idlewindow_controller.go:263-270 | Over any run of windows with those policies an autoscaled workload stays as the last outside write left it |
| Workloads.HandScalingIsRespected | operators/idle-reaper/internal/controller/idlewindow_controller.go:278-296 | A count other than the one written in the annotation: with the flag set, named and left alone asleep, released awake; without it, never skipped |
| Workloads.FallingAsleep | operators/idle-reaper/internal/controller/idlewindow_controller.go:298-348 | The first sleep, text for text: the minimum or zero, the three notes with old count, new count and window name, and the difference reported as reclaimed; an unset replica field counts as one |
| Workloads.ANight | operators/idle-reaper/internal/controller/idlewindow_controller.go:318-363 | Asleep and awake again, under any settings in the morning: the old count and the old annotations |
| Workloads.OnlySleepReclaims | operators/idle-reaper/internal/controller/idlewindow_controller.go:298-309 | Reclaimed pods are reported exactly by an asleep pass that does not stand down |
| Workloads.StepKeepsOwedIff | operators/idle-reaper/internal/controller/idlewindow_controller.go:255-325 | From any annotation contents, one pass keeps the owed size exactly when it does not override a hand-scaled workload that has another size on record |
| Workloads.StepKeepsOriginalIff | operators/idle-reaper/internal/controller/idlewindow_controller.go:278-324 | One pass keeps the recorded size except when a respecting window hands a hand-scaled workload back |
| Runs.OwedIsConserved | operators/idle-reaper/internal/controller/idlewindow_controller.go:92-98 | Over any interleaving of respecting and overriding windows, lost patches, half passes, policy edits and outside writes in which no pass overrides a person at the workload, it is owed what the last outside write made it owe |
| Runs.OwedChangesOnlyByOutsideWrites | operators/idle-reaper/internal/controller/idlewindow_controller.go:281-296 | In particular under windows that all respect manual scaling |
| Runs.RecordedSizeUnderOverridingWindows | operators/idle-reaper/internal/controller/idlewindow_controller.go:298-324 | The same for windows that do not respect manual scaling, with the recorded size as the conserved quantity |
| Runs.OwedConservedWithoutManualChanges | operators/idle-reaper/internal/controller/idlewindow_controller.go:281-296 | If nobody scales by hand, windows with and without the flag may overlap and the owed size is still conserved |
| Runs.NeverStranded | operators/idle-reaper/api/v1alpha1/idlewindow_types.go:25-30 | Stopping after any run in which no pass overrides a person, outside writes included, a workload runs at the size it is owed or carries that size in its annotation |
| Runs.UntouchedIsNeverStranded | operators/idle-reaper/api/v1alpha1/idlewindow_types.go:25-30 | In particular an untouched workload that nobody else writes to, under windows of either kind |
| Workloads.StepKeepsForeignAnnotations | operators/idle-reaper/internal/controller/idlewindow_controller.go:332-374 | No annotation but the three bookkeeping ones is ever touched |
| Decimal.AtoiItoa | operators/idle-reaper/internal/controller/idlewindow_controller.go:337-338 | Every 64-bit integer written as text is the integer read back |
| Decimal.AtoiReadsIff | operators/idle-reaper/internal/controller/idlewindow_controller.go:516-526 | Text reads as a number exactly when it is a sign or none, any zeros and its decimal digits, and it fits 64 bits; any other text is absent |
| Workloads.AnnotationsReadAsNumbers | operators/idle-reaper/internal/controller/idlewindow_controller.go:516-526 | An annotation reads as absent exactly when missing or no number, and otherwise as the low 32 bits |
| Workloads.CountsReadBack | operators/idle-reaper/internal/controller/idlewindow_controller.go:516-526 | A replica count written into an annotation is the count read from it, whatever else is there |
| Runs.LastPassDecides | operators/idle-reaper/internal/controller/idlewindow_controller.go:92-98 | Whatever passes of a window came before, missed, failed, repeated or made under other settings, the last landed one alone decides how the workload ends: text for text asleep, original size and annotations awake |
| Workloads.StepPutsInPlace | operators/idle-reaper/internal/controller/idlewindow_controller.go:298-324 | One landed pass takes a workload with sound bookkeeping to the minimum with its size on record, or to its size with no bookkeeping |
| Runs.ManualSizeStandsIff | operators/idle-reaper/internal/controller/idlewindow_controller.go:278-296 | Over any run of respecting passes a hand-scaled workload is left alone throughout exactly when it has no saved-replicas annotation or every pass that governs it is asleep |
| Interplay.ManualSizeStandsForTheSleepIff | operators/idle-reaper/api/v1alpha1/idlewindow_types.go:137-143 | For the remainder of a sleep it is left alone exactly when it has no such annotation or no pass governs it while a wake request holds |
| Interplay.WakeRequestEndsTheTruce | operators/idle-reaper/internal/controller/idlewindow_controller.go:278-296 | A pass while a request holds drops the bookkeeping, and after the request has lapsed the same window scales the hand-chosen size to the minimum in the same sleep |
| Interplay.FiveByHandAreGoneInTheSameSleep | operators/idle-reaper/internal/controller/idlewindow_controller.go:278-296 | A concrete night with one window, one workload and one request in which that happens |
| Runs.ManualSizeWins | operators/idle-reaper/internal/controller/idlewindow_controller.go:278-296 | Through a night, the wake, any day and the next sleep, the hand-chosen size is kept, then recorded as the size to restore |
| Runs.WakeHandsBackIff | operators/idle-reaper/internal/controller/idlewindow_controller.go:365-374 | The wake keeps the size, and drops the bookkeeping exactly when the saved-replicas annotation is present |
| Runs.LosingTheSavedSizeMeansStandingDownForGood | operators/idle-reaper/internal/controller/idlewindow_controller.go:365-368 | Without that annotation a hand-scaled workload is left alone by every later pass, asleep or awake |
| Workloads.StepSettles | operators/idle-reaper/internal/controller/idlewindow_controller.go:311-322 | A landed pass leaves the same pass nothing to patch, from any starting state |
| Workloads.PatchIffChange | operators/idle-reaper/internal/controller/idlewindow_controller.go:311-324 | A patch is sent exactly when it changes the workload |
| Runs.PartialPassesAreAbsorbed | operators/idle-reaper/internal/controller/idlewindow_controller.go:155-166 | Any number of partial attempts followed by one that lands everywhere equals that one alone, and then nothing is left to patch |
| Runs.OverlapRestsIff | operators/idle-reaper/api/v1alpha1/idlewindow_types.go:41-43 | Over any workload whatsoever, two windows rest after any number of rounds exactly when they give the same verdict and minimum, or had nothing to patch to begin with, or one leaves the workload to its autoscaler; otherwise both patch in every round, because owned-by is never read |
| Runs.OverlapSettlesIff | operators/idle-reaper/api/v1alpha1/idlewindow_types.go:41-43 | With sound bookkeeping and no autoscaler only the verdicts and minimums matter |
| Runs.OverlapStandsDownTogether | operators/idle-reaper/internal/controller/idlewindow_controller.go:282-296 | Over a hand-scaled workload, two respecting windows never patch if its saved-replicas annotation is gone or both are asleep, whatever they disagree on |
| Reconciler.Deployment.ScaleTo | operators/idle-reaper/internal/controller/idlewindow_controller.go:332-348 | The local copy gets the count and the three annotations; the cluster gets the whole copy or nothing |
| Reconciler.Deployment.RestoreTo | operators/idle-reaper/internal/controller/idlewindow_controller.go:351-363 | The local copy loses the three annotations and gets the saved count; the cluster gets the whole copy or nothing |
| Reconciler.Deployment.ClearAnnotations | operators/idle-reaper/internal/controller/idlewindow_controller.go:365-374 | Drops the three annotations if the saved-replicas key is there, and otherwise sends nothing |
| Reconciler.Cluster.SelectDeployments | operators/idle-reaper/internal/controller/idlewindow_controller.go:220-236 | Fresh copies of exactly the selected Deployments, each once, in any order |
| Reconciler.ReconcileDeployment | operators/idle-reaper/internal/controller/idlewindow_controller.go:255-325 | The tally and the cluster change by exactly the decision for the state read |
| Reconciler.ReconcileTargets | operators/idle-reaper/internal/controller/idlewindow_controller.go:155-166 | After the loop every workload whose patch landed has stepped, all others are as they were, the tally covers every target and the failures are those needing a patch that did not land |
| Reports.CountsMeaning | operators/idle-reaper/internal/controller/idlewindow_controller.go:263-320 | Skipped counts the workloads stood down from, whatever the verdict; affected counts the others that are held or restored |
| Reports.EveryTargetIsCountedOnce | operators/idle-reaper/internal/controller/idlewindow_controller.go:264-320 | Asleep, affected and skipped add up to the selected workloads; awake, exactly the never-slept are missing |
| Reports.SkippedWorkloadsAreNamed | operators/idle-reaper/internal/controller/idlewindow_controller.go:263-296 | Every skipped workload is named as a blocker exactly when no skip was of a silent kind |
| Reports.BlockersMeaning | operators/idle-reaper/internal/controller/idlewindow_controller.go:263-289 | The listed blockers are the autoscaled workloads of a Warn policy and, asleep, the hand-scaled ones, each with its reason |
| Reports.BlockersKeepOrder | operators/idle-reaper/internal/controller/idlewindow_controller.go:157-166 | Blockers are listed in the order of the workloads |
| Resources.PodRequests | operators/idle-reaper/internal/controller/idlewindow_controller.go:377-390 | Per resource, the sum over the containers that mention it, in whatever order entries are visited |
| Resources.PodRequestsAdd | operators/idle-reaper/internal/controller/idlewindow_controller.go:377-390 | What a pod requests is additive in its containers, and mentions what any of them does |
| Reconciler.Tally.AddReclaimed | operators/idle-reaper/internal/controller/idlewindow_controller.go:393-410 | Adds one workload's share to the running total, in whatever order resources are visited |
| Resources.TotalIsTheSum | operators/idle-reaper/internal/controller/idlewindow_controller.go:393-410 | The total holds a resource exactly when a share contributes to it, and then the plain sum |
| Resources.TotalIgnoresOrder | operators/idle-reaper/internal/controller/idlewindow_controller.go:157-166 | The total does not depend on the order of the workloads |
| Resources.ReportedInWholeSteps | operators/idle-reaper/internal/controller/idlewindow_controller.go:398-402 | CPU is reported in whole milli-units, everything else in whole units |
| Resources.RoundingIsBounded | operators/idle-reaper/internal/controller/idlewindow_controller.go:398-402 | Rounding never understates and overstates by less than one unit, or one milli-CPU, per reclaimed pod |
| Reports.ReclaimedCpuIsExact | operators/idle-reaper/internal/controller/idlewindow_controller.go:298-309 | Asleep, under any window, the reported CPU is one pod's milli-CPU times the recorded or else current size beyond the minimum, summed over the workloads not left alone |
| Reports.ReclaimedCpuIsOwed | operators/idle-reaper/internal/controller/idlewindow_controller.go:281-309 | Under a window that respects manual scaling that is the same sum over the owed sizes |
| Reports.ReclaimedIgnoresOrder | operators/idle-reaper/internal/controller/idlewindow_controller.go:157-166 | The reported total is the same for any order of the same targets |
| Reports.AwakeReclaimsNothing | operators/idle-reaper/internal/controller/idlewindow_controller.go:298-309 | An awake pass reports nothing reclaimed |
| Reports.ReclaimedNamesWhatWasRequested | operators/idle-reaper/internal/controller/idlewindow_controller.go:393-410 | A resource is in the total exactly when some container of a workload that gave up pods requests it |
| Reports.RepeatedAsleepReport | operators/idle-reaper/internal/controller/idlewindow_controller.go:298-309 | A repeated asleep pass reports the same counts, blockers and total, however many patches landed |
| Workloads.ReclaimedIsOriginalLessMin | operators/idle-reaper/internal/controller/idlewindow_controller.go:303-309 | The pods reported are the recorded or else current size less the minimum, exactly unless the 32-bit subtraction wraps; that size is the owed one except exactly where a hand-chosen size is overridden |
| Workloads.AsleepReportIsStable | operators/idle-reaper/internal/controller/idlewindow_controller.go:298-315 | After the patch lands the decision is the same, less the patch |
| Window.NextIsTheLeastFiring | operators/idle-reaper/internal/controller/window.go:70-72 | The next occurrence is a firing and no firing lies before it |
| Window.LeastElementsMakeACron | operators/idle-reaper/internal/controller/window.go:43-50 | Any unbounded set of instants gives a recurring schedule whose firings are its elements |
| Window.ForwardReadsTheNextBoundary | operators/idle-reaper/internal/controller/window.go:74-79 | The verdict is asleep exactly when the nearest coming boundary is a wake and not also a sleep; next is that boundary |
| Window.ReadingsAgreeIff | operators/idle-reaper/internal/controller/window.go:41-52 | At one instant the forward comparison and the backward reading agree exactly when the boundaries on both sides are opposite |
| Window.ForwardTestLooksBackIffAlternating | operators/idle-reaper/internal/controller/window.go:46-52 | The comparison says whether the last boundary was a sleep, at every instant, exactly for schedules that alternate |
| Window.VerdictFlipsAtNextIffAlternating | operators/idle-reaper/internal/controller/window.go:33-39 | The verdict flips at the announced next instant, always, exactly for schedules that alternate |
| Window.VerdictHoldsUntilNext | operators/idle-reaper/internal/controller/window.go:70-80 | For any recurring pair the verdict and deadline are constant up to next |
| Daily.DailyWindowClosedForm | operators/idle-reaper/internal/controller/window_test.go:44-56 | For one sleep and one wake per period the window is from sleep, inclusive, to wake, exclusive, at every instant |
| Daily.DailyAlternates | operators/idle-reaper/internal/controller/window_test.go:35-39 | Such schedules alternate, so the schedule theorems apply to them |
| Daily.SaturdayNoonReadsAwake | operators/idle-reaper/internal/controller/window.go:50-52 | A nightly sleep with a weekday wake: at Saturday noon the last boundary was a sleep, the verdict is awake, and it does not flip at next |
| Window.TimerIsAClampedWait | operators/idle-reaper/internal/controller/window.go:90-106 | The wait lies between one second and ten minutes and lands five seconds after the boundary whenever that lies between them, all in literal nanoseconds |
| Window.TimerLandsJustAfterNext | operators/idle-reaper/internal/controller/window.go:90-106 | Following the timer lands in the five seconds from next on, at an exact instant and after one wait per started ten minutes; the one-second floor is not used before next |
| Window.AnEightHourNightTakes48Waits | operators/idle-reaper/internal/controller/window.go:86-89 | Eight hours ahead take exactly 48 waits |
| WakeRequests.ActiveMeansGranted | operators/idle-reaper/internal/controller/wakerequest.go:58-102 | A request is active exactly when its duration and the cap are readable, the cap positive and no shorter, and the duration since creation has not run out; an unreadable cap rejects everything |
| WakeRequests.GrantedAreCounted | operators/idle-reaper/internal/controller/wakerequest.go:64-73 | The running count is the number of such requests |
| WakeRequests.CapBoundsEveryRequest | operators/idle-reaper/internal/controller/wakerequest.go:89-101 | Over all durations an author may write, a request can be active exactly until the cap has elapsed since creation, and never under a cap of zero |
| WakeRequests.PhasesOverTime | operators/idle-reaper/internal/controller/wakerequest.go:83-102 | For a positive duration rejected means active at no instant from creation on, expired means active after creation and not any more; with any other duration a request is never active in its life |
| WakeRequests.PhaseOnlyMovesForward | operators/idle-reaper/internal/controller/wakerequest.go:97-101 | With duration and cap fixed a request moves only from active to expired, at its expiry |
| WakeRequests.ZeroMeansNoneActive | operators/idle-reaper/internal/controller/wakerequest.go:30-39 | The count and the earliest expiry are those of the active requests; the zero time appears exactly when there are none |
| WakeRequests.RunningStates | operators/idle-reaper/internal/controller/wakerequest.go:64-80 | Counting request by request, with zero read as none yet, ends at the number of active requests and the least of their expiries |
| WakeRequests.EvaluateWakeRequests | operators/idle-reaper/internal/controller/wakerequest.go:48-81 | The loop returns the count and minimum over all requests, and stores and announces the outcomes up to the first failed write |
| WakeRequests.RecordWakeRequest | operators/idle-reaper/internal/controller/wakerequest.go:106-150 | Writes and announces the outcome exactly when phase or window differ from what is stored; a conflict is dropped, a failure is an error |
| WakeRequests.AnnouncementsAreNews | operators/idle-reaper/internal/controller/wakerequest.go:113-147 | A sweep announces exactly the requests reached whose phase or window is not the one they show, each with the phase it now has |
| WakeRequests.SweepRecordsEachRequest | operators/idle-reaper/internal/controller/wakerequest.go:76-78 | After a sweep each request is recorded if reached and landed, and unchanged otherwise |
| WakeRequests.SweepLeavesOthersAlone | operators/idle-reaper/internal/controller/wakerequest.go:65-79 | A sweep writes to no request outside its list |
| WakeRequests.AtMostTwoWrites | operators/idle-reaper/internal/controller/wakerequest.go:113-116 | Over any non-decreasing clock, with writes lost, one window writes each unedited request at most twice, and at most once before it expires |
| WakeRequests.StatusShowsTheLastLandedVisit | operators/idle-reaper/internal/controller/wakerequest.go:118-135 | An unedited request shows phase, expiry and acceptance of the last visit whose write landed |
| WakeRequests.ShownExpiryIsRealIff | operators/idle-reaper/api/v1alpha1/wakerequest_types.go:82-85 | After an edit of the duration, whatever phase the request was in, the next landed visit leaves the shown expiry real exactly when the edit changed nothing or the phase has changed; an edit into rejection goes on showing the old expiry |
| WakeRequests.EditExtendsIff | operators/idle-reaper/internal/controller/wakerequest.go:44-47 | An edit of its spec extends a granted request exactly when the duration is longer and within the cap |
| WakeRequests.ExtendedRequestShowsTheOldExpiry | operators/idle-reaper/api/v1alpha1/wakerequest_types.go:82-85 | A concrete request extended from thirty to sixty minutes is active to the later expiry and shows the earlier |
| WakeRequests.RecordedSettlesIff | operators/idle-reaper/internal/controller/wakerequest.go:113-116 | After a landed visit another has something to write exactly when window or phase differ |
| WakeRequests.TwoWindowsNeverSettle | operators/idle-reaper/internal/controller/idlewindow_controller.go:571-586 | When two windows of a namespace take turns, every landed visit after the first is a write again |
| Verdicts.NothingChangesBeforeTheDeadline | operators/idle-reaper/internal/controller/idlewindow_controller.go:133-141 | Before the announced deadline schedule verdict, holding requests, merged verdict and deadline are all unchanged |
| Verdicts.DeadlineIsAhead | operators/idle-reaper/internal/controller/idlewindow_controller.go:139-141 | The announced deadline lies in the future |
| Verdicts.ActedOnInFull | operators/idle-reaper/internal/controller/idlewindow_controller.go:119-175 | In the terms of the schedule and the requests: the verdict acted on, the phase, and the deadline as the first of the two firings and the expiries of the granted requests |
| Verdicts.HoldingShrinks | operators/idle-reaper/internal/controller/wakerequest.go:65-74 | With the list fixed, requests only drop out, each at its expiry |
| Verdicts.AsleepExactlyFromTheLastExpiry | operators/idle-reaper/internal/controller/wakerequest.go:34-37 | While the schedule stays asleep the namespace is asleep exactly from the last expiry on |
| Verdicts.DeadlinesReachTheLastExpiry | operators/idle-reaper/internal/controller/idlewindow_controller.go:133-141 | Going from deadline to deadline reaches sleep exactly at the last expiry in at most as many steps as active requests, losing one at each |
| Verdicts.RequestsCannotOutliveTheCap | operators/idle-reaper/internal/controller/wakerequest.go:89-101 | Once the cap has elapsed since every request was created, the merged verdict is the schedule's |
| Verdicts.TwoReadingsActAsOne | operators/idle-reaper/internal/controller/idlewindow_controller.go:119-131 | The two clock readings of a pass act as one unless a schedule boundary lies between them |
| Verdicts.TwoReadingsMisleadIff | operators/idle-reaper/internal/controller/idlewindow_controller.go:119-138 | The pass acts on a verdict that held at neither reading exactly when a wake and the last lapse lie between them: it sleeps though both say awake |
| Quiescence.QuietUntilTheDeadline | operators/idle-reaper/internal/controller/idlewindow_controller.go:311-323 | After one pass whose writes land, a pass of that window before the deadline patches nothing and writes to no request |
| Quiescence.SomethingHappensAtTheDeadline | operators/idle-reaper/internal/controller/idlewindow_controller.go:139-141 | At the deadline a schedule boundary is due or an active request has lapsed |
| Nodes.CountDrainableNodes | operators/idle-reaper/internal/controller/nodes.go:61-107 | Workers are the nodes neither control plane nor fargate, drainable those of them on which every assigned pod is terminal or a DaemonSet's, both as cardinalities of sets of nodes |
| Nodes.PodHoldsNode | operators/idle-reaper/internal/controller/nodes.go:109-119 | Holds exactly for pods neither terminal nor owned by a DaemonSet |
| Nodes.ScanOwners | operators/idle-reaper/internal/controller/nodes.go:121-128 | Finds a DaemonSet among the owners exactly when there is one |
| Nodes.DrainableNodesAreWorkers | operators/idle-reaper/internal/controller/nodes.go:100-104 | Drainable nodes never outnumber workers, nor workers nodes |
| Nodes.FewerPodsDrainNoLess | operators/idle-reaper/internal/controller/nodes.go:83-90 | Removing pods never lowers the drainable count |
| Nodes.FullyDrainableIff | operators/idle-reaper/internal/controller/nodes.go:62-65 | The fraction is full exactly when no worker is held |
| Reconcile.IdleWindow.SetUnblocked | operators/idle-reaper/internal/controller/idlewindow_controller.go:461-491 | Rewrites the condition, which holds exactly when nothing blocks, and emits an Event exactly when status or message changed |
| Conditions.ConditionSaysWhatBlocks | operators/idle-reaper/internal/controller/idlewindow_controller.go:464-475 | The condition holds exactly for no blockers, and its message lists them |
| Conditions.ConditionChangesIffBlockersDo | operators/idle-reaper/internal/controller/idlewindow_controller.go:471-480 | The condition stays the same exactly for the same blockers in the same order |
| StatusRuns.LastTransitionIsTheLastChange | operators/idle-reaper/internal/controller/idlewindow_controller.go:176-180 | Over any run the stored last transition is the clock reading of the last round that was written and changed the stored phase |
| StatusRuns.PhaseEventsAreTheChangesIff | operators/idle-reaper/internal/controller/idlewindow_controller.go:176-180 | Over any run of completed passes with any status writes dropped, the PhaseChanged Events are the changes of the phase if and only if at no pass exactly one of the stored and the previous phase equals the new one |
| StatusRuns.UnblockedEventsAreTheChangesIff | operators/idle-reaper/internal/controller/idlewindow_controller.go:412-417 | The same for the Events of the Unblocked condition, starting with or without a stored one |
| ChangeLogs.EventsAreTheChangesIff | operators/idle-reaper/internal/controller/idlewindow_controller.go:412-417 | What both rest on: Events emitted against a stored value are the change log of the computed values if and only if the stored value always tells the same as the previous one |
| ChangeLogs.EventsAreTheChangeLog | operators/idle-reaper/internal/controller/idlewindow_controller.go:453-460 | In particular when the status writes before the last land |
| ChangeLogs.ChangeLogNeverRepeats | operators/idle-reaper/internal/controller/idlewindow_controller.go:456-460 | Such a log never repeats itself and ends at the current condition |
| ChangeLogs.DroppedWriteLosesAChange | operators/idle-reaper/internal/controller/idlewindow_controller.go:412-417 | A concrete run with a dropped status write: a change passes without an Event and the last Event is stale |
| ChangeLogs.DroppedWriteRepeatsAnEvent | operators/idle-reaper/internal/controller/idlewindow_controller.go:456-460 | A concrete run with a dropped status write: the same Event is emitted twice in a row |
| Reconcile.ReconcileWindow | operators/idle-reaper/internal/controller/idlewindow_controller.go:99-212 | A suspended window or an unreadable schedule touches no workload or request and is not ready; a failed write to a request ends the pass there, with the requests before it recorded and no workload touched; any other pass is one pass of the run model, sets the timer from the deadline it shows, and shows the phase, that deadline, the granted requests, the census and the blocking budgets as the schedule and the lists give them; its condition holds exactly when no budget and no selected workload stands in the way |
| Reconcile.ManageWorkloads | operators/idle-reaper/internal/controller/idlewindow_controller.go:143-166 | Selects and reconciles: the namespace after is that of the run model's pass, the report that of the targets |
| Reconcile.RepeatedAsleepPassIsSilent | operators/idle-reaper/internal/controller/idlewindow_controller.go:168-205 | The pass after an asleep pass, however many patches of that one landed, leaves the status as it is, with its last transition, and emits no Event but that of failing patches |

## Left out

- Tracking.WorkloadsTrackTheVerdict: assumes a fixed spec and request list and no outside writes during the run, and that after a pass that ends in an error the work queue's backoff is no longer than the timer would have been.
- Reports.ReclaimedCpuIsExact: assumes the 32-bit difference of size and minimum does not wrap, as it cannot for the non-negative counts the API server admits.
- Reconcile.ReconcileWindow: the list calls (Deployments, autoscalers, nodes, pods, budgets, requests) always succeed; a failing list ends a pass early, before or after the workloads were patched.
- WakeRequests.StatusShowsTheLastLandedVisit: assumes the expiry is not the zero time itself, which the operator would not record; WakeRequests.ShownExpiryIsRealIff likewise for the expiry after the edit.
- StatusRuns.PhaseEventsAreTheChangesIff: runs of completed passes; a suspended pass in between blanks the stored phase without an Event, so the next completed pass announces its phase afresh.
- Stale reads: each Deployment is read and patched in one step, so a patch computed from an outdated cache entry is outside the model.
- Cron expressions, time zones and daylight saving: a schedule is its next-firing function.
- Duration strings, quantity strings and label selectors: parsed values, nano-unit counts and sets of names stand for them; negative requests, which the API server rejects, are excluded.
- Machine limits other than int32 replica counts: counters, quantities and instants are unbounded, so overflow of int64 products and of Go durations is not modelled; nor is the truncation of stored times to whole seconds.
- Event texts other than the Unblocked message, the per-Deployment scale Events, the count in the Ready message, condition reasons and generations, and Prometheus gauges.
- The mapping of watched objects to windows, the deletion of a window (which touches no workload), RBAC, leader election and manager wiring.
- The selection of autoscaler targets and of blocking disruption budgets: short filters, taken as given lists.
- Node selection by the reclaimable-nodes selector: the node list is the one already selected.
- The Slack front end, the demo services, the charts and the scripts of the repository.
