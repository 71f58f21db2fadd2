/**
 The node census: how many worker nodes hold nothing that would have to be moved first.
 */
module Nodes {
  import opened Options

  datatype PodPhase = Pending | Running | Succeeded | Failed | Unknown

  datatype Pod = Pod(nodeName: string, phase: PodPhase, ownerKinds: seq<string>)

  datatype Node = Node(name: string, controlPlane: bool, computeType: Option<string>)

  datatype Census = Census(workers: nat, drainable: nat)

  predicate OwnedByDaemonSet(pod: Pod) { "DaemonSet" in pod.ownerKinds }

  predicate HoldsNode(pod: Pod) {
    pod.phase != Succeeded && pod.phase != Failed && !OwnedByDaemonSet(pod)
  }

  predicate Worker(node: Node) { !node.controlPlane && node.computeType != Some("fargate") }

  /** The query asked node by node: is any assigned pod holding it? */
  predicate Held(name: string, pods: seq<Pod>) {
    exists pod :: pod in pods && pod.nodeName == name && name != "" && HoldsNode(pod)
  }

  predicate Drainable(node: Node, pods: seq<Pod>) { Worker(node) && !Held(node.name, pods) }

  function CountWorkers(nodes: seq<Node>): nat {
    if nodes == [] then 0
    else CountWorkers(nodes[..|nodes| - 1]) + if Worker(nodes[|nodes| - 1]) then 1 else 0
  }

  function CountDrainable(nodes: seq<Node>, pods: seq<Pod>): nat {
    if nodes == [] then 0
    else CountDrainable(nodes[..|nodes| - 1], pods) + if Drainable(nodes[|nodes| - 1], pods) then 1 else 0
  }

  /** The kinds of a pod's owners are scanned one by one. */
  method ScanOwners(pod: Pod) returns (found: bool)
    ensures found <==> "DaemonSet" in pod.ownerKinds
  {
    for i := 0 to |pod.ownerKinds|
      invariant "DaemonSet" !in pod.ownerKinds[..i]
    {
      if pod.ownerKinds[i] == "DaemonSet" {
        return true;
      }
    }
    found := false;
  }

  method PodHoldsNode(pod: Pod) returns (holds: bool)
    ensures holds <==> HoldsNode(pod)
    ensures holds <==> pod.phase in {Pending, Running, Unknown} && "DaemonSet" !in pod.ownerKinds
  {
    if pod.phase == Succeeded || pod.phase == Failed {
      return false;
    }
    var daemon := ScanOwners(pod);
    holds := !daemon;
  }

  /** One pass over the pods and one over the nodes give what asking each node would give. */
  method CountDrainableNodes(nodes: seq<Node>, pods: seq<Pod>) returns (census: Census)
    ensures census == Census(CountWorkers(nodes), CountDrainable(nodes, pods))
    ensures census.workers
            == |set i | 0 <= i < |nodes| && !nodes[i].controlPlane && nodes[i].computeType != Some("fargate")|
    ensures census.drainable
            == |set i | 0 <= i < |nodes| && !nodes[i].controlPlane && nodes[i].computeType != Some("fargate")
                        && (nodes[i].name != "" ==> forall pod <- pods :: pod.nodeName == nodes[i].name ==>
                              pod.phase in {Succeeded, Failed} || "DaemonSet" in pod.ownerKinds)|
  {
    var holders: map<string, nat> := map[];
    for i := 0 to |pods|
      invariant forall name :: name in holders ==> holders[name] > 0
      invariant forall name :: name in holders <==> Held(name, pods[..i])
    {
      var pod := pods[i];
      assert forall p :: p in pods[..i + 1] <==> p in pods[..i] || p == pod;
      var holds := PodHoldsNode(pod);
      if pod.nodeName == "" || !holds {
        continue;
      }
      var before := if pod.nodeName in holders then holders[pod.nodeName] else 0;
      holders := holders[pod.nodeName := before + 1];
    }
    assert pods[..|pods|] == pods;

    census := Census(0, 0);
    for i := 0 to |nodes|
      invariant census == Census(CountWorkers(nodes[..i]), CountDrainable(nodes[..i], pods))
    {
      var node := nodes[i];
      assert nodes[..i + 1][..i] == nodes[..i];
      if node.controlPlane || node.computeType == Some("fargate") {
        continue;
      }
      census := census.(workers := census.workers + 1);
      var holding := if node.name in holders then holders[node.name] else 0;
      if holding == 0 {
        census := census.(drainable := census.drainable + 1);
      }
    }
    assert nodes[..|nodes|] == nodes;
    CensusMeaning(nodes, pods);
  }

  lemma {:induction false} CensusMeaning(nodes: seq<Node>, pods: seq<Pod>)
    ensures CountWorkers(nodes)
            == |set i | 0 <= i < |nodes| && !nodes[i].controlPlane && nodes[i].computeType != Some("fargate")|
    ensures CountDrainable(nodes, pods)
            == |set i | 0 <= i < |nodes| && !nodes[i].controlPlane && nodes[i].computeType != Some("fargate")
                        && (nodes[i].name != "" ==> forall pod <- pods :: pod.nodeName == nodes[i].name ==>
                              pod.phase in {Succeeded, Failed} || "DaemonSet" in pod.ownerKinds)|
  {
    WorkersAreCounted(nodes);
    DrainableAreCounted(nodes, pods);
    assert forall i :: 0 <= i < |nodes| ==>
        (Held(nodes[i].name, pods) <==>
         nodes[i].name != "" && exists pod <- pods :: pod.nodeName == nodes[i].name
                                  && pod.phase !in {Succeeded, Failed} && "DaemonSet" !in pod.ownerKinds);
    assert (set i | 0 <= i < |nodes| && Worker(nodes[i]))
        == set i | 0 <= i < |nodes| && !nodes[i].controlPlane && nodes[i].computeType != Some("fargate");
    assert (set i | 0 <= i < |nodes| && Drainable(nodes[i], pods))
        == set i | 0 <= i < |nodes| && !nodes[i].controlPlane && nodes[i].computeType != Some("fargate")
                   && (nodes[i].name != "" ==> forall pod <- pods :: pod.nodeName == nodes[i].name ==>
                         pod.phase in {Succeeded, Failed} || "DaemonSet" in pod.ownerKinds);
  }

  lemma {:induction false} WorkersAreCounted(nodes: seq<Node>)
    ensures CountWorkers(nodes) == |set i | 0 <= i < |nodes| && Worker(nodes[i])|
  {
    if nodes != [] {
      var n := |nodes| - 1;
      WorkersAreCounted(nodes[..n]);
      var before := set i | 0 <= i < n && Worker(nodes[..n][i]);
      assert (set i | 0 <= i < |nodes| && Worker(nodes[i])) == before + if Worker(nodes[n]) then {n} else {};
    }
  }

  lemma {:induction false} DrainableAreCounted(nodes: seq<Node>, pods: seq<Pod>)
    ensures CountDrainable(nodes, pods) == |set i | 0 <= i < |nodes| && Drainable(nodes[i], pods)|
  {
    if nodes != [] {
      var n := |nodes| - 1;
      DrainableAreCounted(nodes[..n], pods);
      var before := set i | 0 <= i < n && Drainable(nodes[..n][i], pods);
      assert (set i | 0 <= i < |nodes| && Drainable(nodes[i], pods))
          == before + if Drainable(nodes[n], pods) then {n} else {};
    }
  }

  /** The reported fraction is a fraction. */
  lemma {:induction false} DrainableNodesAreWorkers(nodes: seq<Node>, pods: seq<Pod>)
    ensures CountDrainable(nodes, pods) <= CountWorkers(nodes) <= |nodes|
  {
    if nodes != [] {
      DrainableNodesAreWorkers(nodes[..|nodes| - 1], pods);
    }
  }

  /** Taking pods away never makes a node harder to drain. */
  lemma {:induction false} FewerPodsDrainNoLess(nodes: seq<Node>, fewer: seq<Pod>, pods: seq<Pod>)
    requires forall pod :: pod in fewer ==> pod in pods
    ensures CountDrainable(nodes, pods) <= CountDrainable(nodes, fewer)
  {
    if nodes != [] {
      FewerPodsDrainNoLess(nodes[..|nodes| - 1], fewer, pods);
    }
  }

  /** Every worker is drainable exactly when no worker is held: the fraction can be filled. */
  lemma {:induction false} FullyDrainableIff(nodes: seq<Node>, pods: seq<Pod>)
    ensures CountDrainable(nodes, pods) == CountWorkers(nodes)
            <==> forall node :: node in nodes && Worker(node) ==> !Held(node.name, pods)
  {
    if nodes != [] {
      var front, last := nodes[..|nodes| - 1], nodes[|nodes| - 1];
      FullyDrainableIff(front, pods);
      DrainableNodesAreWorkers(front, pods);
      assert forall node :: node in nodes <==> node in front || node == last;
    }
  }
}
