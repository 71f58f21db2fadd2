/**
 The workload loop, in the shape the controller runs it: local copies of the Deployments are
 changed in place and patched back one at a time, and a tally is kept on the side. A patch
 replaces the Deployment as a whole or not at all; whether it lands is the cluster's choice.
 */
module Reconciler {
  import opened Options
  import opened Decimal
  import opened Workloads
  import opened Runs
  import opened Resources
  import opened Reports

  /** The API server's side: the Deployments of one namespace. */
  class Cluster {
    var workloads: Namespace
    const templates: map<string, seq<ResourceList>>

    constructor (workloads: Namespace, templates: map<string, seq<ResourceList>>)
      ensures this.workloads == workloads && this.templates == templates
    {
      this.workloads := workloads;
      this.templates := templates;
    }

    function Template(name: string): seq<ResourceList> {
      if name in templates then templates[name] else []
    }

    function TargetNamed(name: string): Target
      reads this
      requires name in workloads
    {
      Target(name, workloads[name], Template(name))
    }

    /** Each local copy is what the server holds. */
    ghost predicate CopiesOf(targets: seq<Deployment>)
      reads this, targets
    {
      forall i :: 0 <= i < |targets| ==>
        targets[i].name in workloads && targets[i].Read() == TargetNamed(targets[i].name)
    }

    /** A patch of a Deployment that is gone fails however willing the server is. */
    method Patch(name: string, after: Workload, lands: bool) returns (ok: bool)
      modifies this`workloads
      ensures ok <==> lands && name in old(workloads)
      ensures workloads == if ok then old(workloads)[name := after] else old(workloads)
    {
      ok := lands && name in workloads;
      if ok {
        workloads := workloads[name := after];
      }
    }

    /** Lists the selected Deployments, in whatever order, as fresh local copies. No selector
        means the whole namespace. */
    method SelectDeployments(selector: Option<set<string>>) returns (targets: seq<Deployment>)
      ensures fresh(targets)
      ensures Distinct(targets)
      ensures CopiesOf(targets)
      ensures CopiedNames(targets) == set name | name in workloads && (selector.None? || name in selector.value)
    {
      targets := [];
      var matching := set name | name in workloads && (selector.None? || name in selector.value);
      var todo := matching;
      while todo != {}
        invariant todo <= matching
        invariant fresh(targets)
        invariant Distinct(targets)
        invariant CopiesOf(targets)
        invariant CopiedNames(targets) == matching - todo
      {
        var name :| name in todo;
        var d := new Deployment(name, workloads[name], Template(name));
        CopiedNamesGrow(targets, d);
        targets := targets + [d];
        todo := todo - {name};
      }
    }
  }

  ghost predicate Distinct(targets: seq<Deployment>) {
    forall i, j :: 0 <= i < j < |targets| ==> targets[i] != targets[j] && targets[i].name != targets[j].name
  }

  ghost function CopiedNames(targets: seq<Deployment>): set<string> {
    set d <- targets :: d.name
  }

  lemma CopiedNamesGrow(targets: seq<Deployment>, d: Deployment)
    ensures CopiedNames(targets + [d]) == CopiedNames(targets) + {d.name}
  {
    assert forall e :: e in targets + [d] <==> e in targets || e == d;
  }

  /** A local copy of one Deployment. */
  class Deployment {
    const name: string
    const containers: seq<ResourceList>
    var replicas: Option<int32>
    var annotations: Annotations

    constructor (name: string, w: Workload, containers: seq<ResourceList>)
      ensures Read() == Target(name, w, containers) && this.name == name
    {
      this.name := name;
      this.containers := containers;
      this.replicas := w.replicas;
      this.annotations := w.annotations;
    }

    function State(): Workload
      reads this
    {
      Workload(replicas, annotations)
    }

    function Read(): Target
      reads this
    {
      Target(name, State(), containers)
    }

    method ScaleTo(cluster: Cluster, p: Policy, to: int32, original: int32, lands: bool) returns (ok: bool)
      modifies this, cluster`workloads
      ensures State() == ScaledTo(p, old(State()), to, original)
      ensures ok <==> lands && name in old(cluster.workloads)
      ensures cluster.workloads == if ok then old(cluster.workloads)[name := State()] else old(cluster.workloads)
    {
      annotations := annotations[SavedReplicas := Itoa(original)];
      annotations := annotations[AppliedReplicas := Itoa(to)];
      annotations := annotations[OwnedBy := p.name];
      replicas := Some(to);
      ok := cluster.Patch(name, State(), lands);
    }

    method RestoreTo(cluster: Cluster, to: int32, lands: bool) returns (ok: bool)
      modifies this, cluster`workloads
      ensures State() == RestoredTo(old(State()), to)
      ensures ok <==> lands && name in old(cluster.workloads)
      ensures cluster.workloads == if ok then old(cluster.workloads)[name := State()] else old(cluster.workloads)
    {
      annotations := annotations - {SavedReplicas};
      annotations := annotations - {AppliedReplicas};
      annotations := annotations - {OwnedBy};
      replicas := Some(to);
      ok := cluster.Patch(name, State(), lands);
    }

    method ClearAnnotations(cluster: Cluster, lands: bool) returns (ok: bool)
      modifies this, cluster`workloads
      ensures State() == ClearPatch(old(State())).GetOr(old(State()))
      ensures ok <==> ClearPatch(old(State())).None? || (lands && name in old(cluster.workloads))
      ensures cluster.workloads
              == if ok && ClearPatch(old(State())).Some? then old(cluster.workloads)[name := State()]
                 else old(cluster.workloads)
    {
      if SavedReplicas !in annotations {
        return true;
      }
      annotations := annotations - {SavedReplicas};
      annotations := annotations - {AppliedReplicas};
      annotations := annotations - {OwnedBy};
      ok := cluster.Patch(name, State(), lands);
    }
  }

  class Tally {
    var affected: nat
    var skipped: nat
    var reclaimed: ResourceList
    var blockers: seq<string>

    constructor ()
      ensures Sums() == EMPTY
    {
      affected, skipped, reclaimed, blockers := 0, 0, map[], [];
    }

    function Sums(): Report
      reads this
    {
      Report(affected, skipped, blockers, reclaimed)
    }

    /** Adds perPod times count into the running total, in place. */
    method AddReclaimed(perPod: ResourceList, count: int)
      modifies this`reclaimed
      ensures reclaimed == WithShare(old(reclaimed), Share(perPod, count))
    {
      if count <= 0 {
        return;
      }
      ghost var start := reclaimed;
      var todo := perPod.Keys;
      while todo != {}
        invariant todo <= perPod.Keys
        invariant reclaimed.Keys == start.Keys + (perPod.Keys - todo)
        invariant forall r :: r in reclaimed ==>
          reclaimed[r] == Amount(start, r) + (if r in perPod && r !in todo then Scaled(r, perPod[r], count) else 0)
      {
        var name :| name in todo;
        var scaled := Scaled(name, perPod[name], count);
        if name in reclaimed {
          reclaimed := reclaimed[name := reclaimed[name] + scaled];
        } else {
          reclaimed := reclaimed[name := scaled];
        }
        todo := todo - {name};
      }
    }
  }

  /** Brings one workload in line, in place: the tally grows by what the decision says, and the
      cluster changes by the decision's patch if there is one and it lands. */
  method ReconcileDeployment(cluster: Cluster, p: Policy, dep: Deployment, asleep: bool,
                             hpaOwned: set<string>, t: Tally, lands: bool)
    returns (ok: bool)
    modifies cluster`workloads, dep, t
    ensures var verdict := Judge(p, asleep, hpaOwned, old(dep.Read()));
            && t.Sums() == WithTarget(old(t.Sums()), old(dep.Read()), verdict)
            && (ok <==> verdict.patch.None? || (lands && dep.name in old(cluster.workloads)))
            && cluster.workloads
               == if ok && verdict.patch.Some? then old(cluster.workloads)[dep.name := verdict.patch.value]
                  else old(cluster.workloads)
  {
    ghost var was, sums := dep.Read(), t.Sums();
    ghost var d, verdict := was.workload, Judge(p, asleep, hpaOwned, was);
    if dep.name in hpaOwned && p.hpaPolicy != Scale {
      t.skipped := t.skipped + 1;
      if p.hpaPolicy == Warn {
        t.blockers := t.blockers + [dep.name + " (HPA)"];
      }
      assert verdict == Decision(None, false, true, if p.hpaPolicy == Warn then Some(" (HPA)") else None, None);
      return true;
    }

    var current := if dep.replicas.Some? then dep.replicas.value else 1;
    var saved := AnnotationInt(dep.annotations, SavedReplicas);
    var applied := AnnotationInt(dep.annotations, AppliedReplicas);
    assert current == Current(d) && saved == Saved(d) && applied == Applied(d);

    if applied.Some? && current != applied.value && p.respectManualScale == Some(true) {
      t.skipped := t.skipped + 1;
      if asleep {
        t.blockers := t.blockers + [dep.name + " (manual)"];
        assert verdict == Decision(None, false, true, Some(" (manual)"), None);
        return true;
      }
      assert verdict == Decision(ClearPatch(d), false, true, None, None);
      ok := dep.ClearAnnotations(cluster, lands);
      return;
    }

    if asleep {
      var min := p.minReplicas.GetOr(0);
      var original := if saved.Some? then saved.value else current;
      t.affected := t.affected + 1;
      var perPod := PodRequests(dep.containers);
      t.AddReclaimed(perPod, Narrow(original - min));
      assert verdict.(patch := None) == Decision(None, true, false, None, Some(Narrow(original - min)));
      assert t.Sums() == WithTarget(sums, was, verdict);
      if current == min && saved.Some? {
        return true;
      }
      assert verdict.patch == Some(ScaledTo(p, d, min, original));
      ok := dep.ScaleTo(cluster, p, min, original, lands);
      return;
    }

    if saved.None? {
      return true;
    }
    t.affected := t.affected + 1;
    if current == saved.value {
      ok := dep.ClearAnnotations(cluster, lands);
    } else {
      ok := dep.RestoreTo(cluster, saved.value, lands);
    }
  }

  ghost function Names(targets: seq<Target>): set<string> {
    set t <- targets :: t.name
  }

  ghost function Reads(targets: seq<Deployment>): (ts: seq<Target>)
    reads targets
  {
    seq(|targets|, i requires 0 <= i < |targets| reads targets => targets[i].Read())
  }

  /** The selected workloads whose patch was needed and did not land. */
  ghost function Failures(p: Policy, asleep: bool, hpaOwned: set<string>, landed: set<string>, targets: seq<Target>)
    : set<string>
  {
    set t <- targets | t.name !in landed && Judge(p, asleep, hpaOwned, t).patch.Some? :: t.name
  }

  /** The whole loop over the selected workloads. Whatever subset of the patches lands, every
      other workload ends as if it had been processed alone, and the tally does not depend on
      what landed. */
  method ReconcileTargets(cluster: Cluster, p: Policy, targets: seq<Deployment>, asleep: bool,
                          hpaOwned: set<string>, landed: set<string>)
    returns (t: Tally, failed: set<string>)
    requires Distinct(targets)
    requires cluster.CopiesOf(targets)
    modifies cluster`workloads, targets
    ensures fresh(t)
    ensures cluster.workloads
            == AfterPass(old(cluster.workloads), Pass(p, asleep, true, Names(old(Reads(targets))), hpaOwned, landed))
    ensures t.Sums() == ReportOf(p, asleep, hpaOwned, old(Reads(targets)))
    ensures failed == Failures(p, asleep, hpaOwned, landed, old(Reads(targets)))
  {
    ghost var was := Reads(targets);
    ghost var ns := cluster.workloads;
    t := new Tally();
    failed := {};
    for i := 0 to |targets|
      invariant forall j :: i <= j < |targets| ==> targets[j].Read() == was[j]
      invariant t.Sums() == ReportOf(p, asleep, hpaOwned, was[..i])
      invariant cluster.workloads == AfterPass(ns, Pass(p, asleep, true, Names(was[..i]), hpaOwned, landed))
      invariant failed == Failures(p, asleep, hpaOwned, landed, was[..i])
    {
      var dep := targets[i];
      assert dep.Read() == was[i] && dep.name in ns && ns[dep.name] == was[i].workload;
      OneMoreName(was, i);
      OneMoreWorkload(ns, Pass(p, asleep, true, Names(was[..i]), hpaOwned, landed), dep.name);
      var ok := ReconcileDeployment(cluster, p, dep, asleep, hpaOwned, t, dep.name in landed);
      if !ok {
        failed := failed + {dep.name};
      }
      assert t.Sums() == ReportOf(p, asleep, hpaOwned, was[..i + 1]) by {
        OneMoreReport(p, asleep, hpaOwned, was, i);
      }
      assert failed == Failures(p, asleep, hpaOwned, landed, was[..i + 1]) by {
        OneMoreFailure(p, asleep, hpaOwned, landed, was, i);
      }
    }
    assert was[..|targets|] == was;
  }

  // ----- What one more iteration must do to each of the things the loop maintains -----

  lemma OneMoreReport(p: Policy, asleep: bool, hpaOwned: set<string>, ts: seq<Target>, i: nat)
    requires i < |ts|
    ensures ReportOf(p, asleep, hpaOwned, ts[..i + 1])
            == WithTarget(ReportOf(p, asleep, hpaOwned, ts[..i]), ts[i], Judge(p, asleep, hpaOwned, ts[i]))
  {
    assert ts[..i + 1][..i] == ts[..i];
  }

  lemma OneMoreFailure(p: Policy, asleep: bool, hpaOwned: set<string>, landed: set<string>, ts: seq<Target>, i: nat)
    requires i < |ts|
    ensures Failures(p, asleep, hpaOwned, landed, ts[..i + 1])
            == Failures(p, asleep, hpaOwned, landed, ts[..i])
               + (if Judge(p, asleep, hpaOwned, ts[i]).patch.Some? && ts[i].name !in landed then {ts[i].name} else {})
  {
    assert ts[..i + 1] == ts[..i] + [ts[i]];
  }

  lemma OneMoreName(ts: seq<Target>, i: nat)
    requires i < |ts| && forall j :: 0 <= j < i ==> ts[j].name != ts[i].name
    ensures Names(ts[..i + 1]) == Names(ts[..i]) + {ts[i].name}
    ensures ts[i].name !in Names(ts[..i])
  {
    assert ts[..i + 1] == ts[..i] + [ts[i]];
  }

  lemma OneMoreWorkload(ns: Namespace, pass: Pass, name: string)
    requires pass.acts && name in ns && name !in pass.selected
    ensures var before := AfterPass(ns, pass);
            var patch := Decide(pass.policy, pass.asleep, name in pass.hpaOwned, ns[name]).patch;
            && before.Keys == ns.Keys
            && AfterPass(ns, pass.(selected := pass.selected + {name}))
               == if patch.Some? && name in pass.landed then before[name := patch.value] else before
  {
  }
}
