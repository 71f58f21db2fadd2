/**
 One whole reconcile pass: the window is evaluated, the wake requests are looked at, the
 workloads are brought in line, the status is rewritten and the timer is set.
 */
module Reconcile {
  import opened Options
  import opened Workloads
  import opened Runs
  import opened Reports
  import opened Reconciler
  import opened Window
  import opened WakeRequests
  import opened Verdicts
  import N = Nodes
  import opened ChangeLogs
  import opened Conditions

  datatype Status = Status(
    phase: WindowPhase,
    lastTransition: Option<int>,
    nextTransition: Option<int>,
    report: Report,
    census: N.Census,
    blockingPdbs: nat,
    activeWakeRequests: nat,
    ready: Option<Condition>,
    unblocked: Option<Condition>)

  datatype Event = InvalidSchedule | PhaseChanged(phase: WindowPhase) | ScaleFailed(workloads: set<string>)
                 | UnblockedChanged(condition: Condition)

  const SUSPENDED: Condition := Condition(false, "spec.suspend is set; no workloads are managed")
  const INVALID: Condition := Condition(false, "schedule or timezone cannot be parsed")
  const READY: Condition := Condition(true, "reconciled")

  /** The local copy of an IdleWindow, and the status the API server holds for it. */
  class IdleWindow {
    const policy: Policy
    const suspend: Option<bool>
    const schedule: Option<Schedule>
    const selector: Option<set<string>>
    const maxWakeDuration: Option<int>
    var status: Status
    var stored: Status
    var events: seq<Event>

    constructor (policy: Policy, suspend: Option<bool>, schedule: Option<Schedule>,
                 selector: Option<set<string>>, maxWakeDuration: Option<int>, stored: Status)
      ensures this.policy == policy && this.suspend == suspend && this.schedule == schedule
      ensures this.selector == selector && this.maxWakeDuration == maxWakeDuration
      ensures status == this.stored == stored && events == []
    {
      this.policy, this.suspend, this.schedule := policy, suspend, schedule;
      this.selector, this.maxWakeDuration := selector, maxWakeDuration;
      this.status, this.stored, this.events := stored, stored, [];
    }

    predicate Acts() { suspend != Some(true) && schedule.Some? }

    /** Rewrites the condition, and emits an Event when it changed. */
    method SetUnblocked(workloadBlockers: seq<string>, pdbBlockers: seq<string>)
      modifies this`status, this`events
      ensures var next := UnblockedCondition(workloadBlockers + pdbBlockers);
              && status == old(status).(unblocked := Some(next))
              && (next.holds <==> workloadBlockers == [] && pdbBlockers == [])
              && events == old(events) + if Emits(old(status).unblocked, next) then [UnblockedChanged(next)] else []
    {
      var all := workloadBlockers + pdbBlockers;
      var next := Condition(true, NOTHING_BLOCKING);
      if |all| > 0 {
        next := Condition(false, BLOCKED + Join(all, ", "));
      }
      var previous := status.unblocked;
      var same := previous.Some? && previous.value.holds == next.holds && previous.value.message == next.message;
      status := status.(unblocked := Some(next));
      if !same {
        events := events + [UnblockedChanged(next)];
      }
    }

    /** Overwrites the status with what a completed pass saw and did. */
    method Conclude(state: WindowState, effective: WindowState, active: nat, report: Report,
                    failed: set<string>, world: World)
      modifies this`status, this`events
      ensures status == Concluded(old(status), state, effective, active, report, world)
      ensures events == old(events) + Announced(old(status), state, effective, report, failed, world)
    {
      if failed != {} {
        events := events + [ScaleFailed(failed)];
      }
      var phase := PhaseOf(state, effective);
      if status.phase != phase {
        status := status.(lastTransition := Some(world.phaseNow));
        events := events + [PhaseChanged(phase)];
      }
      var census := N.CountDrainableNodes(world.nodes, world.pods);
      status := status.(phase := phase, nextTransition := Some(effective.next), report := report, census := census,
                        blockingPdbs := |world.pdbBlockers|, activeWakeRequests := active, ready := Some(READY));
      SetUnblocked(report.blockers, world.pdbBlockers);
    }

    /** Losing a race is not an error: the write is dropped and the next pass recomputes it. */
    method WriteStatus(result: WriteResult) returns (ok: bool)
      modifies this`stored
      ensures ok <==> result != Failed
      ensures stored == if result == Landed then status else old(stored)
    {
      if result == Landed {
        stored := status;
      }
      ok := result != Failed;
    }
  }

  /** Everything a pass gets from outside: its clock readings, the lists it reads and the fate of
      each of its writes. */
  datatype World = World(
    scheduleNow: int, wakesNow: int, phaseNow: int, doneNow: int,
    hpaOwned: set<string>,
    nodes: seq<N.Node>, pods: seq<N.Pod>,
    pdbBlockers: seq<string>,
    landed: set<string>, wakeResults: seq<WriteResult>, statusResult: WriteResult)

  ghost function InputsOf(w: IdleWindow, reqs: seq<WakeRequest>): Inputs
    requires w.schedule.Some?
  {
    Inputs(w.schedule.value, Specs(reqs), Cap(w.maxWakeDuration))
  }

  /** The verdict and deadline the pass acts on. */
  ghost function ActedOn(w: IdleWindow, reqs: seq<WakeRequest>, world: World): WindowState
    requires w.schedule.Some?
  {
    EffectiveAt(InputsOf(w, reqs), world.scheduleNow, world.wakesNow)
  }

  function SelectedNames(selector: Option<set<string>>, ns: Namespace): set<string> {
    set name | name in ns && (selector.None? || name in selector.value)
  }

  ghost function PassOf(w: IdleWindow, reqs: seq<WakeRequest>, world: World, ns: Namespace): Pass
    requires w.schedule.Some?
  {
    Pass(w.policy, ActedOn(w, reqs, world).asleep, true, SelectedNames(w.selector, ns), world.hpaOwned, world.landed)
  }

  /** The status a completed pass computes. */
  function Concluded(before: Status, state: WindowState, effective: WindowState, active: nat,
                     report: Report, world: World): Status
  {
    var phase := PhaseOf(state, effective);
    Status(
      phase,
      if phase == before.phase then before.lastTransition else Some(world.phaseNow),
      Some(effective.next),
      report,
      N.Census(N.CountWorkers(world.nodes), N.CountDrainable(world.nodes, world.pods)),
      |world.pdbBlockers|,
      active,
      Some(READY),
      Some(UnblockedCondition(report.blockers + world.pdbBlockers)))
  }

  /** The Events of a completed pass. A failing patch is announced, a phase or a condition only
      when it changes. */
  function Announced(before: Status, state: WindowState, effective: WindowState, report: Report,
                     failed: set<string>, world: World): seq<Event>
  {
    var phase, unblocked := PhaseOf(state, effective), UnblockedCondition(report.blockers + world.pdbBlockers);
    (if failed != {} then [ScaleFailed(failed)] else [])
    + (if phase != before.phase then [PhaseChanged(phase)] else [])
    + (if Emits(before.unblocked, unblocked) then [UnblockedChanged(unblocked)] else [])
  }

  /** The lists a pass reports from, whatever its clock and the fate of its writes. */
  predicate SameLists(a: World, b: World) { a.nodes == b.nodes && a.pods == b.pods && a.pdbBlockers == b.pdbBlockers }

  /** A sleep that goes on is not news: the pass after an asleep pass, however many patches of that
      one landed, leaves the status as it is, its last transition included, and emits no Event
      unless patches fail again. */
  lemma RepeatedAsleepPassIsSilent(p: Policy, hpaOwned: set<string>, landed: set<string>, targets: seq<Target>,
                                   before: Status, state: WindowState, effective: WindowState, active: nat,
                                   failed: set<string>, first: World, second: World)
    requires effective.asleep && SameLists(first, second)
    ensures var again := AfterLandings(p, hpaOwned, landed, targets);
            var after := Concluded(before, state, effective, active, ReportOf(p, true, hpaOwned, targets), first);
            var report := ReportOf(p, true, hpaOwned, again);
            && Concluded(after, state, effective, active, report, second) == after
            && Announced(after, state, effective, report, failed, second)
               == if failed == {} then [] else [ScaleFailed(failed)]
  {
    RepeatedAsleepReport(p, hpaOwned, landed, targets);
  }

  ghost function NewStatus(w: IdleWindow, reqs: seq<WakeRequest>, world: World, before: Status, report: Report): Status
    requires w.schedule.Some?
  {
    Concluded(before, EvaluateWindow(w.schedule.value, world.scheduleNow), ActedOn(w, reqs, world),
              WakeStateOf(Specs(reqs), Cap(w.maxWakeDuration), world.wakesNow).active, report, world)
  }

  /** What a completed pass tells a reader of the status, in the terms of the schedule, the requests
      and the lists it read. */
  ghost predicate TellsTheTruth(w: IdleWindow, reqs: seq<WakeRequest>, world: World, before: Status, after: Status)
    requires w.schedule.Some?
  {
    var s := w.schedule.value;
    var held := exists r <- Specs(reqs) :: Granted(r, w.maxWakeDuration, world.wakesNow);
    && after.phase == (if s.sleep(world.scheduleNow) <= s.wake(world.scheduleNow) then Awake
                       else if held then WakeRequested else Asleep)
    && after.lastTransition == (if after.phase == before.phase then before.lastTransition else Some(world.phaseNow))
    && after.nextTransition.Some?
    && IsNextChange(after.nextTransition.value, s, world.scheduleNow, Specs(reqs), w.maxWakeDuration, world.wakesNow)
    && after.activeWakeRequests
       == |set i | 0 <= i < |Specs(reqs)| && Granted(Specs(reqs)[i], w.maxWakeDuration, world.wakesNow)|
    && after.blockingPdbs == |world.pdbBlockers|
    && after.census.workers
       == |set i | 0 <= i < |world.nodes| && !world.nodes[i].controlPlane
                   && world.nodes[i].computeType != Some("fargate")|
    && after.census.drainable
       == |set i | 0 <= i < |world.nodes| && !world.nodes[i].controlPlane
                   && world.nodes[i].computeType != Some("fargate")
                   && (world.nodes[i].name != "" ==> forall pod <- world.pods :: pod.nodeName == world.nodes[i].name ==>
                         pod.phase in {N.Succeeded, N.Failed} || "DaemonSet" in pod.ownerKinds)|
    && after.ready.Some? && after.ready.value.holds
  }

  lemma NewStatusTellsTheTruth(w: IdleWindow, reqs: seq<WakeRequest>, world: World, before: Status, report: Report)
    requires w.schedule.Some? && world.wakesNow >= ZERO_TIME
    ensures TellsTheTruth(w, reqs, world, before, NewStatus(w, reqs, world, before, report))
  {
    ActedOnInFull(w.schedule.value, Specs(reqs), w.maxWakeDuration, world.scheduleNow, world.wakesNow);
    GrantedAreCounted(Specs(reqs), w.maxWakeDuration, world.wakesNow);
    N.CensusMeaning(world.nodes, world.pods);
  }

  /** No selected workload stands in the way: none is autoscaled under Warn and, in a sleep, none is
      scaled by hand under a window that respects that. */
  predicate NothingInTheWay(p: Policy, selected: set<string>, hpaOwned: set<string>, asleep: bool, ns: Namespace) {
    forall name | name in ns && name in selected ::
      if name in hpaOwned && p.hpaPolicy != Scale then p.hpaPolicy != Warn
      else !(asleep && p.respectManualScale == Some(true) && ManuallyChanged(ns[name]))
  }

  lemma NoBlockersMeansNothingInTheWay(p: Policy, selected: set<string>, hpaOwned: set<string>, asleep: bool,
                                       ns: Namespace, targets: seq<Target>)
    requires Names(targets) == selected
    requires forall t <- targets :: t.name in ns && t.workload == ns[t.name]
    ensures ReportOf(p, asleep, hpaOwned, targets).blockers == []
            <==> NothingInTheWay(p, selected, hpaOwned, asleep, ns)
  {
    NoBlockersIff(p, asleep, hpaOwned, targets);
    forall name | name in ns && name in selected
      ensures exists t <- targets :: t.name == name && t.workload == ns[name]
    {
      var t :| t in targets && t.name == name;
    }
  }

  ghost function NewEvents(w: IdleWindow, reqs: seq<WakeRequest>, world: World, before: Status, targets: seq<Target>)
    : seq<Event>
    requires w.schedule.Some?
  {
    var acted := ActedOn(w, reqs, world);
    Announced(before, EvaluateWindow(w.schedule.value, world.scheduleNow), acted,
              ReportOf(w.policy, acted.asleep, world.hpaOwned, targets),
              Failures(w.policy, acted.asleep, world.hpaOwned, world.landed, targets), world)
  }

  /** The targets of a pass, in the order the API server listed them. */
  ghost predicate Lists(targets: seq<Target>, cluster: Cluster, selected: set<string>)
    reads cluster
  {
    && Names(targets) == selected
    && (forall i, j :: 0 <= i < j < |targets| ==> targets[i].name != targets[j].name)
    && forall i :: 0 <= i < |targets| ==>
         targets[i].name in cluster.workloads && targets[i] == cluster.TargetNamed(targets[i].name)
  }

  /** Lists the selected workloads and brings each in line. */
  method ManageWorkloads(cluster: Cluster, p: Policy, selector: Option<set<string>>, asleep: bool,
                         hpaOwned: set<string>, landed: set<string>)
    returns (report: Report, failed: set<string>, ghost targets: seq<Target>)
    modifies cluster`workloads
    ensures old(Lists(targets, cluster, SelectedNames(selector, cluster.workloads)))
    ensures cluster.workloads
            == AfterPass(old(cluster.workloads),
                         Pass(p, asleep, true, SelectedNames(selector, old(cluster.workloads)), hpaOwned, landed))
    ensures report == ReportOf(p, asleep, hpaOwned, targets)
    ensures failed == Failures(p, asleep, hpaOwned, landed, targets)
  {
    var selected := cluster.SelectDeployments(selector);
    targets := Reads(selected);
    assert Names(targets) == CopiedNames(selected) by {
      assert forall i :: 0 <= i < |selected| ==> targets[i] in targets && targets[i].name == selected[i].name;
    }
    var t;
    t, failed := ReconcileTargets(cluster, p, selected, asleep, hpaOwned, landed);
    report := t.Sums();
  }

  ghost function SweepOf(w: IdleWindow, reqs: seq<WakeRequest>, world: World): Sweep {
    Sweep(w.policy.name, Specs(reqs), Cap(w.maxWakeDuration), world.wakesNow, world.wakeResults)
  }

  /** Some outcome has to be written to a request and that write fails. */
  ghost predicate RecordingFails(w: IdleWindow, server: WakeServer, reqs: seq<WakeRequest>, world: World)
    requires |world.wakeResults| == |reqs| && server.CopiesOf(reqs)
    reads server, reqs
  {
    exists i :: 0 <= i < |reqs| && SweepOf(w, reqs, world).WriteFails(i, server.statuses)
  }

  /** A pass either stands down (suspended, unreadable schedule, a failed write to a wake request)
      and touches no workload, or runs to the end as one Pass of the run model and sets the timer
      from the deadline it acted on. */
  method ReconcileWindow(w: IdleWindow, cluster: Cluster, server: WakeServer, reqs: seq<WakeRequest>, world: World)
    returns (requeue: Option<int>, ok: bool, ghost targets: seq<Target>)
    requires world.wakesNow >= ZERO_TIME && |world.wakeResults| == |reqs|
    requires forall i, j :: 0 <= i < j < |reqs| ==> reqs[i] != reqs[j]
    requires server.CopiesOf(reqs)
    modifies w, cluster`workloads, server, reqs
    ensures !w.Acts() ==>
              && requeue == None && (ok <==> world.statusResult != Failed)
              && cluster.workloads == old(cluster.workloads)
              && server.statuses == old(server.statuses) && server.announced == old(server.announced)
              && w.status
                 == (if w.suspend == Some(true) then old(w.status).(phase := Suspended, ready := Some(SUSPENDED))
                     else old(w.status).(ready := Some(INVALID)))
              && w.events == old(w.events) + (if w.suspend == Some(true) then [] else [InvalidSchedule])
              && w.stored == if world.statusResult == Landed then w.status else old(w.stored)
    ensures w.Acts() && old(RecordingFails(w, server, reqs, world)) ==>
              && requeue == None && !ok
              && (exists n :: 0 <= n < |reqs| && var s := SweepOf(w, reqs, world);
                    && s.FailsFirstAt(n, old(server.statuses))
                    && server.statuses == Swept(s, old(server.statuses), n)
                    && server.announced == SweepAnnounces(s, old(server.statuses), old(server.announced), n + 1))
              && cluster.workloads == old(cluster.workloads)
              && w.status == old(w.status) && w.stored == old(w.stored) && w.events == old(w.events)
    ensures w.Acts() && !old(RecordingFails(w, server, reqs, world)) ==>
              && server.statuses == Swept(SweepOf(w, reqs, world), old(server.statuses), |reqs|)
              && server.announced
                 == SweepAnnounces(SweepOf(w, reqs, world), old(server.statuses), old(server.announced), |reqs|)
              && old(Lists(targets, cluster, SelectedNames(w.selector, cluster.workloads)))
              && cluster.workloads == AfterPass(old(cluster.workloads), PassOf(w, reqs, world, old(cluster.workloads)))
              && w.status == NewStatus(w, reqs, world, old(w.status),
                                       ReportOf(w.policy, ActedOn(w, reqs, world).asleep, world.hpaOwned, targets))
              && w.events == old(w.events) + NewEvents(w, reqs, world, old(w.status), targets)
              && (w.stored == if world.statusResult == Landed then w.status else old(w.stored))
              && (ok <==> world.statusResult != Failed)
              && requeue == if ok then Some(RequeueAfter(world.doneNow, ActedOn(w, reqs, world).next)) else None
    ensures w.Acts() && !old(RecordingFails(w, server, reqs, world)) ==>
              && TellsTheTruth(w, reqs, world, old(w.status), w.status)
              && w.status.unblocked.Some?
              && (w.status.unblocked.value.holds <==>
                  world.pdbBlockers == []
                  && NothingInTheWay(w.policy, SelectedNames(w.selector, old(cluster.workloads)), world.hpaOwned,
                                     w.status.phase == Asleep, old(cluster.workloads)))
              && (ok ==> requeue == Some(RequeueAfter(world.doneNow, w.status.nextTransition.value)))
    ensures !w.Acts() ==> w.status.ready.Some? && !w.status.ready.value.holds
  {
    targets := [];
    requeue := None;
    if w.suspend == Some(true) {
      w.status := w.status.(phase := Suspended, ready := Some(SUSPENDED));
      ok := w.WriteStatus(world.statusResult);
      return;
    }
    if w.schedule.None? {
      w.status := w.status.(ready := Some(INVALID));
      w.events := w.events + [InvalidSchedule];
      ok := w.WriteStatus(world.statusResult);
      return;
    }
    var state := EvaluateWindow(w.schedule.value, world.scheduleNow);
    var wakes, _, recorded := EvaluateWakeRequests(server, w.policy.name, reqs, w.maxWakeDuration,
                                                   world.wakesNow, world.wakeResults);
    if !recorded {
      ok := false;
      return;
    }
    var effective := Merge(state, wakes);

    var report, failed;
    report, failed, targets := ManageWorkloads(cluster, w.policy, w.selector, effective.asleep,
                                               world.hpaOwned, world.landed);
    w.Conclude(state, effective, wakes.active, report, failed, world);
    NewStatusTellsTheTruth(w, reqs, world, old(w.status), report);
    NoBlockersMeansNothingInTheWay(w.policy, SelectedNames(w.selector, old(cluster.workloads)), world.hpaOwned,
                                   effective.asleep, old(cluster.workloads), targets);
    ok := w.WriteStatus(world.statusResult);
    if ok {
      requeue := Some(RequeueAfter(world.doneNow, effective.next));
    }
  }
}
