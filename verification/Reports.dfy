/**
 What one pass over the selected workloads adds up to: how many it holds, how many it left
 alone and why, and how much is reclaimed.
 */
module Reports {
  import opened Options
  import opened Decimal
  import opened Workloads
  import opened Resources
  import opened Sequences

  /** A selected Deployment as it was read: its state and its pod template. */
  datatype Target = Target(name: string, workload: Workload, containers: seq<ResourceList>)

  datatype Report = Report(affected: nat, skipped: nat, blockers: seq<string>, reclaimed: ResourceList)

  const EMPTY: Report := Report(0, 0, [], map[])

  function Judge(p: Policy, asleep: bool, hpaOwned: set<string>, t: Target): Decision {
    Decide(p, asleep, t.name in hpaOwned, t.workload)
  }

  function WithTarget(r: Report, t: Target, verdict: Decision): Report {
    Report(
      r.affected + (if verdict.affected then 1 else 0),
      r.skipped + (if verdict.skipped then 1 else 0),
      if verdict.blocker.Some? then r.blockers + [t.name + verdict.blocker.value] else r.blockers,
      if verdict.reclaimed.Some? then WithShare(r.reclaimed, Share(PerPod(t.containers), verdict.reclaimed.value))
      else r.reclaimed)
  }

  function ReportBy(judge: Target -> Decision, targets: seq<Target>): Report {
    if targets == [] then EMPTY
    else
      var last := targets[|targets| - 1];
      WithTarget(ReportBy(judge, targets[..|targets| - 1]), last, judge(last))
  }

  function Judging(p: Policy, asleep: bool, hpaOwned: set<string>): Target -> Decision {
    (t: Target) => Judge(p, asleep, hpaOwned, t)
  }

  function ReportOf(p: Policy, asleep: bool, hpaOwned: set<string>, targets: seq<Target>): Report {
    ReportBy(Judging(p, asleep, hpaOwned), targets)
  }

  function CountIf(property: Target -> bool, targets: seq<Target>): nat {
    if targets == [] then 0
    else CountIf(property, targets[..|targets| - 1]) + if property(targets[|targets| - 1]) then 1 else 0
  }

  lemma {:induction false} CountsFollowFlags(judge: Target -> Decision, targets: seq<Target>,
                                             held: Target -> bool, alone: Target -> bool)
    requires forall t :: judge(t).affected == held(t) && judge(t).skipped == alone(t)
    ensures var r := ReportBy(judge, targets);
            r.affected == CountIf(held, targets) && r.skipped == CountIf(alone, targets)
  {
    if targets != [] {
      CountsFollowFlags(judge, targets[..|targets| - 1], held, alone);
    }
  }

  /** An autoscaled workload the policy leaves alone, or a hand-scaled one it respects. */
  predicate StandsDown(p: Policy, hpaOwned: set<string>, t: Target) {
    || (t.name in hpaOwned && p.hpaPolicy != Scale)
    || (ManuallyChanged(t.workload) && p.respectManualScale == Some(true))
  }

  /** Which workloads are left alone does not depend on the verdict. The others are all counted as
      affected when asleep, and when awake those that carry a saved size. */
  lemma CountsMeaning(p: Policy, asleep: bool, hpaOwned: set<string>, targets: seq<Target>)
    ensures var r := ReportOf(p, asleep, hpaOwned, targets);
            && r.skipped == CountIf(t => StandsDown(p, hpaOwned, t), targets)
            && r.affected == CountIf(t => !StandsDown(p, hpaOwned, t) && (asleep || Saved(t.workload).Some?), targets)
  {
    CountsFollowFlags(Judging(p, asleep, hpaOwned), targets,
                      t => !StandsDown(p, hpaOwned, t) && (asleep || Saved(t.workload).Some?),
                      t => StandsDown(p, hpaOwned, t));
  }

  lemma {:induction false} CountsAddUp(one: Target -> bool, other: Target -> bool, targets: seq<Target>)
    requires forall t :: !(one(t) && other(t))
    ensures var n := CountIf(one, targets) + CountIf(other, targets);
            && n <= |targets|
            && (n == |targets| <==> forall t <- targets :: one(t) || other(t))
  {
    if targets != [] {
      var front, last := targets[..|targets| - 1], targets[|targets| - 1];
      CountsAddUp(one, other, front);
      assert targets == front + [last];
    }
  }

  /** Asleep, every selected workload is accounted for once: held down or left alone. Awake, a
      workload that never slept is in neither count. */
  lemma EveryTargetIsCountedOnce(p: Policy, asleep: bool, hpaOwned: set<string>, targets: seq<Target>)
    ensures var r := ReportOf(p, asleep, hpaOwned, targets);
            && r.affected + r.skipped <= |targets|
            && (r.affected + r.skipped == |targets| <==>
                forall t <- targets :: asleep || Saved(t.workload).Some? || StandsDown(p, hpaOwned, t))
  {
    CountsMeaning(p, asleep, hpaOwned, targets);
    CountsAddUp(t => StandsDown(p, hpaOwned, t),
                t => !StandsDown(p, hpaOwned, t) && (asleep || Saved(t.workload).Some?), targets);
  }

  /** Left alone without a word: only an autoscaled workload under a policy other than Warn, or a
      hand-scaled one once the window is over. */
  predicate Silent(p: Policy, asleep: bool, hpaOwned: set<string>, t: Target) {
    if t.name in hpaOwned && p.hpaPolicy != Scale then p.hpaPolicy != Warn
    else ManuallyChanged(t.workload) && p.respectManualScale == Some(true) && !asleep
  }

  lemma {:induction false} NamedAtMostOnce(judge: Target -> Decision, targets: seq<Target>)
    requires forall t :: judge(t).blocker.Some? ==> judge(t).skipped
    ensures var r := ReportBy(judge, targets);
            && |r.blockers| <= r.skipped
            && (|r.blockers| == r.skipped <==> forall t <- targets :: judge(t).skipped ==> judge(t).blocker.Some?)
  {
    if targets != [] {
      var front, last := targets[..|targets| - 1], targets[|targets| - 1];
      NamedAtMostOnce(judge, front);
      assert targets == front + [last];
    }
  }

  /** The report names a reason for every workload it skipped, exactly when none was silent. */
  lemma SkippedWorkloadsAreNamed(p: Policy, asleep: bool, hpaOwned: set<string>, targets: seq<Target>)
    ensures var r := ReportOf(p, asleep, hpaOwned, targets);
            && |r.blockers| <= r.skipped
            && (|r.blockers| == r.skipped <==> forall t <- targets :: !Silent(p, asleep, hpaOwned, t))
  {
    NamedAtMostOnce(Judging(p, asleep, hpaOwned), targets);
  }

  lemma {:induction false} BlockersComeFromTargets(judge: Target -> Decision, targets: seq<Target>, b: string)
    ensures b in ReportBy(judge, targets).blockers
            <==> exists t <- targets :: judge(t).blocker.Some? && b == t.name + judge(t).blocker.value
  {
    if targets != [] {
      var front, last := targets[..|targets| - 1], targets[|targets| - 1];
      BlockersComeFromTargets(judge, front, b);
      assert targets == front + [last];
    }
  }

  /** What the report says stands in the way: the autoscaled workloads a Warn policy leaves alone,
      and during a sleep the hand-scaled ones, each with its reason; nothing else. */
  lemma BlockersMeaning(p: Policy, asleep: bool, hpaOwned: set<string>, targets: seq<Target>, b: string)
    ensures b in ReportOf(p, asleep, hpaOwned, targets).blockers
            <==> exists t <- targets ::
                   if t.name in hpaOwned && p.hpaPolicy != Scale then p.hpaPolicy == Warn && b == t.name + " (HPA)"
                   else && asleep && ManuallyChanged(t.workload) && p.respectManualScale == Some(true)
                        && b == t.name + " (manual)"
  {
    BlockersComeFromTargets(Judging(p, asleep, hpaOwned), targets, b);
  }

  /** A target that stands in the way, in the terms of the policy. */
  predicate Blocks(p: Policy, asleep: bool, hpaOwned: set<string>, t: Target) {
    if t.name in hpaOwned && p.hpaPolicy != Scale then p.hpaPolicy == Warn
    else asleep && ManuallyChanged(t.workload) && p.respectManualScale == Some(true)
  }

  lemma NoBlockersIff(p: Policy, asleep: bool, hpaOwned: set<string>, targets: seq<Target>)
    ensures ReportOf(p, asleep, hpaOwned, targets).blockers == []
            <==> forall t <- targets :: !Blocks(p, asleep, hpaOwned, t)
  {
    var blockers := ReportOf(p, asleep, hpaOwned, targets).blockers;
    if blockers != [] {
      BlockersMeaning(p, asleep, hpaOwned, targets, blockers[0]);
      assert blockers[0] in blockers;
    }
    forall t | t in targets && Blocks(p, asleep, hpaOwned, t) ensures blockers != [] {
      BlockersMeaning(p, asleep, hpaOwned, targets, t.name + " (HPA)");
      BlockersMeaning(p, asleep, hpaOwned, targets, t.name + " (manual)");
    }
  }

  /** Blockers are listed in the order the workloads were visited. */
  lemma {:induction false} BlockersKeepOrder(p: Policy, asleep: bool, hpaOwned: set<string>,
                                             a: seq<Target>, b: seq<Target>)
    ensures ReportOf(p, asleep, hpaOwned, a + b).blockers
            == ReportOf(p, asleep, hpaOwned, a).blockers + ReportOf(p, asleep, hpaOwned, b).blockers
  {
    if b == [] {
      assert a + b == a;
    } else {
      var front, last := b[..|b| - 1], b[|b| - 1];
      BlockersKeepOrder(p, asleep, hpaOwned, a, front);
      assert (a + b)[..|a + b| - 1] == a + front && (a + b)[|a + b| - 1] == last;
    }
  }

  // ----- The reclaimed total -----

  function ShareBy(judge: Target -> Decision): Target -> Share {
    (t: Target) => Share(PerPod(t.containers), judge(t).reclaimed.GetOr(0))
  }

  lemma {:induction false} ReclaimedIsTotal(judge: Target -> Decision, targets: seq<Target>)
    ensures ReportBy(judge, targets).reclaimed == Total(Mapped(ShareBy(judge), targets))
  {
    if targets != [] {
      var n := |targets| - 1;
      ReclaimedIsTotal(judge, targets[..n]);
      assert Mapped(ShareBy(judge), targets)[..n] == Mapped(ShareBy(judge), targets[..n]);
    }
  }

  /** Reordering the selected workloads reorders the blockers and changes nothing else. */
  lemma ReclaimedIgnoresOrder(p: Policy, asleep: bool, hpaOwned: set<string>, a: seq<Target>, b: seq<Target>)
    requires multiset(a) == multiset(b)
    ensures ReportOf(p, asleep, hpaOwned, a).reclaimed == ReportOf(p, asleep, hpaOwned, b).reclaimed
  {
    var judge := Judging(p, asleep, hpaOwned);
    ReclaimedIsTotal(judge, a);
    ReclaimedIsTotal(judge, b);
    MappedIgnoresOrder(ShareBy(judge), a, b);
    TotalIgnoresOrder(Mapped(ShareBy(judge), a), Mapped(ShareBy(judge), b));
  }

  /** Awake, nothing is reclaimed. */
  lemma {:induction false} AwakeReclaimsNothing(p: Policy, hpaOwned: set<string>, targets: seq<Target>)
    ensures ReportOf(p, false, hpaOwned, targets).reclaimed == map[]
  {
    if targets != [] {
      var last := targets[|targets| - 1];
      AwakeReclaimsNothing(p, hpaOwned, targets[..|targets| - 1]);
      OnlySleepReclaims(p, false, last.name in hpaOwned, last.workload);
    }
  }

  /** Asleep, a resource is in the total exactly when some container of a workload that gave up pods
      requests it, be it zero. */
  lemma ReclaimedNamesWhatWasRequested(p: Policy, hpaOwned: set<string>, targets: seq<Target>, r: Resource)
    requires forall t <- targets :: NoWrap(p, t)
    ensures r in ReportOf(p, true, hpaOwned, targets).reclaimed
            <==> exists t <- targets :: && !StandsDown(p, hpaOwned, t) && Original(t.workload) > p.Min()
                                        && exists c <- t.containers :: r in c
  {
    var judge := Judging(p, true, hpaOwned);
    var shares := Mapped(ShareBy(judge), targets);
    ReclaimedIsTotal(judge, targets);
    TotalIsTheSum(shares, r);
    forall t | t in targets
      ensures Contributes(ShareBy(judge)(t), r)
              <==> !StandsDown(p, hpaOwned, t) && Original(t.workload) > p.Min() && exists c <- t.containers :: r in c
    {
      if !StandsDown(p, hpaOwned, t) {
        assert NoWrap(p, t);
        ReclaimedIsOriginalLessMin(p, t.name in hpaOwned, t.workload);
      }
    }
    forall t | t in targets ensures ShareBy(judge)(t) in shares {
      var i :| 0 <= i < |targets| && targets[i] == t;
      assert shares[i] == ShareBy(judge)(t);
    }
  }

  /** The pods of one workload that are not running because of the window, given its size without. */
  function PodsOff(p: Policy, hpaOwned: set<string>, size: int, t: Target): nat {
    if Judge(p, true, hpaOwned, t).skipped || size <= p.Min() then 0
    else size - p.Min()
  }

  /** One pod's CPU in whole milli-units. */
  function MilliCpu(t: Target): nat { RoundUp(Amount(PerPod(t.containers), Cpu), MILLI) }

  function CpuOff(p: Policy, hpaOwned: set<string>, size: Workload -> int32, targets: seq<Target>): int {
    if targets == [] then 0
    else
      var last := targets[|targets| - 1];
      CpuOff(p, hpaOwned, size, targets[..|targets| - 1])
      + MilliCpu(last) * PodsOff(p, hpaOwned, size(last.workload), last)
  }

  predicate NoWrap(p: Policy, t: Target) {
    -0x8000_0000 <= Original(t.workload) - p.Min() < 0x8000_0000
  }

  /** Asleep, the reported CPU is the milli-CPU of one pod times the pods each workload had beyond
      the minimum before the sleep, summed over the workloads not left alone. */
  lemma {:induction false} ReclaimedCpuIsExact(p: Policy, hpaOwned: set<string>, targets: seq<Target>)
    requires forall t <- targets :: NoWrap(p, t)
    ensures Amount(ReportOf(p, true, hpaOwned, targets).reclaimed, Cpu)
            == CpuOff(p, hpaOwned, Original, targets) * 1_000_000
  {
    if targets != [] {
      var n := |targets| - 1;
      var front, last := targets[..n], targets[n];
      assert forall t <- front :: t in targets;
      assert NoWrap(p, last);
      ReclaimedCpuIsExact(p, hpaOwned, front);
      var share := ShareBy(Judging(p, true, hpaOwned))(last);
      if Judge(p, true, hpaOwned, last).reclaimed.Some? {
        ReclaimedIsOriginalLessMin(p, last.name in hpaOwned, last.workload);
        WithShareAdds(ReportOf(p, true, hpaOwned, front).reclaimed, share, Cpu);
      }
      CpuShare(p, hpaOwned, last);
    }
  }

  lemma CpuShare(p: Policy, hpaOwned: set<string>, t: Target)
    requires NoWrap(p, t)
    ensures Reported(ShareBy(Judging(p, true, hpaOwned))(t), Cpu)
            == MilliCpu(t) * PodsOff(p, hpaOwned, Original(t.workload), t) * MILLI
  {
    var verdict, off := Judge(p, true, hpaOwned, t), PodsOff(p, hpaOwned, Original(t.workload), t);
    if !verdict.skipped {
      ReclaimedIsOriginalLessMin(p, t.name in hpaOwned, t.workload);
    }
    CpuOfPods(Share(PerPod(t.containers), verdict.reclaimed.GetOr(0)), off);
  }

  lemma CpuOfPods(share: Share, off: nat)
    requires off == if share.count <= 0 then 0 else share.count
    ensures Reported(share, Cpu) == RoundUp(Amount(share.perPod, Cpu), MILLI) * off * MILLI
  {
  }

  /** Under a window that respects people, those are the pods the workloads are owed. */
  lemma ReclaimedCpuIsOwed(p: Policy, hpaOwned: set<string>, targets: seq<Target>)
    requires p.Respects() && forall t <- targets :: NoWrap(p, t)
    ensures Amount(ReportOf(p, true, hpaOwned, targets).reclaimed, Cpu) == CpuOff(p, hpaOwned, Owed, targets) * MILLI
  {
    ReclaimedCpuIsExact(p, hpaOwned, targets);
    OwedIsOriginalUnlessSkipped(p, hpaOwned, targets);
  }

  lemma {:induction false} OwedIsOriginalUnlessSkipped(p: Policy, hpaOwned: set<string>, targets: seq<Target>)
    requires p.Respects()
    ensures CpuOff(p, hpaOwned, Owed, targets) == CpuOff(p, hpaOwned, Original, targets)
  {
    if targets != [] {
      OwedIsOriginalUnlessSkipped(p, hpaOwned, targets[..|targets| - 1]);
    }
  }

  // ----- Repeating the pass -----

  function Landed(p: Policy, asleep: bool, hpaOwned: set<string>, landed: set<string>, t: Target): Target {
    if t.name in landed then t.(workload := Step(p, asleep, t.name in hpaOwned, t.workload)) else t
  }

  function AfterLandings(p: Policy, hpaOwned: set<string>, landed: set<string>, targets: seq<Target>): seq<Target> {
    seq(|targets|, i requires 0 <= i < |targets| => Landed(p, true, hpaOwned, landed, targets[i]))
  }

  /** Asleep, the next pass reports the same thing however many of the patches landed. */
  lemma {:induction false} RepeatedAsleepReport(p: Policy, hpaOwned: set<string>, landed: set<string>,
                                                targets: seq<Target>)
    ensures ReportOf(p, true, hpaOwned, AfterLandings(p, hpaOwned, landed, targets))
            == ReportOf(p, true, hpaOwned, targets)
  {
    if targets != [] {
      var n := |targets| - 1;
      var again := AfterLandings(p, hpaOwned, landed, targets);
      assert again[..n] == AfterLandings(p, hpaOwned, landed, targets[..n]);
      RepeatedAsleepReport(p, hpaOwned, landed, targets[..n]);
      AsleepReportIsStable(p, targets[n].name in hpaOwned, targets[n].workload);
    }
  }
}
