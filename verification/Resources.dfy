/**
 Resource quantities: what one pod asks for, and the running total a pass reports as
 reclaimed. A quantity is a count of nano-units, the finest step a Kubernetes quantity has.
 */
module Resources {
  import opened Sequences

  datatype Resource = Cpu | Named(name: string)

  type ResourceList = map<Resource, nat>

  const MILLI: nat := 1_000_000
  const UNIT: nat := 1_000_000_000

  function Amount(list: ResourceList, r: Resource): nat {
    if r in list then list[r] else 0
  }

  function RoundUp(q: nat, step: nat): nat
    requires step > 0
  {
    (q + step - 1) / step
  }

  /** CPU is reported in milli-units, everything else in whole units, both rounded up. */
  function Grain(r: Resource): nat { if r == Cpu then MILLI else UNIT }

  /** One resource of count pods, as it is added to the total. */
  function Scaled(r: Resource, q: nat, count: nat): nat {
    RoundUp(q, Grain(r)) * count * Grain(r)
  }

  // ----- One pod -----

  function Requested(containers: seq<ResourceList>, r: Resource): nat {
    if containers == [] then 0
    else Requested(containers[..|containers| - 1], r) + Amount(containers[|containers| - 1], r)
  }

  function Mentioned(containers: seq<ResourceList>): set<Resource> {
    set c, r | c in containers && r in c :: r
  }

  /** What one pod requests: every resource a container names, summed over all containers. */
  function PerPod(containers: seq<ResourceList>): ResourceList {
    map r | r in Mentioned(containers) :: Requested(containers, r)
  }

  lemma {:induction false} UnmentionedIsZero(containers: seq<ResourceList>, r: Resource)
    requires r !in Mentioned(containers)
    ensures Requested(containers, r) == 0
  {
    if containers != [] {
      var last := containers[|containers| - 1];
      assert last in containers;
      forall c | c in containers[..|containers| - 1] ensures c in containers {
      }
      UnmentionedIsZero(containers[..|containers| - 1], r);
    }
  }

  /** A container's list added into a total, whatever order its entries are visited in. */
  function Added(total: ResourceList, list: ResourceList): ResourceList {
    map r | r in total.Keys + list.Keys :: Amount(total, r) + Amount(list, r)
  }

  method AddRequests(before: ResourceList, c: ResourceList) returns (total: ResourceList)
    ensures total == Added(before, c)
  {
    total := before;
    var todo := c.Keys;
    while todo != {}
      invariant todo <= c.Keys
      invariant total.Keys == before.Keys + (c.Keys - todo)
      invariant forall r :: r in total ==>
        total[r] == Amount(before, r) + (if r in c && r !in todo then c[r] else 0)
    {
      var name :| name in todo;
      if name in total {
        total := total[name := total[name] + c[name]];
      } else {
        total := total[name := c[name]];
      }
      todo := todo - {name};
    }
  }

  method PodRequests(containers: seq<ResourceList>) returns (total: ResourceList)
    ensures total == PerPod(containers)
  {
    total := map[];
    for i := 0 to |containers|
      invariant total == PerPod(containers[..i])
    {
      total := AddRequests(total, containers[i]);
      PerPodGrows(containers[..i], containers[i]);
      assert containers[..i + 1] == containers[..i] + [containers[i]];
    }
    assert containers[..|containers|] == containers;
  }

  lemma {:induction false} MentionedGrows(front: seq<ResourceList>, c: ResourceList)
    ensures Mentioned(front + [c]) == Mentioned(front) + c.Keys
  {
    var whole := front + [c];
    assert forall d :: d in whole <==> d in front || d == c;
    forall r | r in Mentioned(front) ensures r in Mentioned(whole) {
      var d :| d in front && r in d;
      assert d in whole;
    }
    forall r | r in c ensures r in Mentioned(whole) {
      assert c in whole;
    }
  }

  lemma AmountIsRequested(containers: seq<ResourceList>, r: Resource)
    ensures Amount(PerPod(containers), r) == Requested(containers, r)
  {
    if r !in Mentioned(containers) {
      UnmentionedIsZero(containers, r);
    }
  }

  lemma {:induction false} RequestedGrows(front: seq<ResourceList>, c: ResourceList, r: Resource)
    ensures Requested(front + [c], r) == Requested(front, r) + Amount(c, r)
  {
    assert (front + [c])[..|front|] == front;
  }

  lemma {:induction false} PerPodGrows(front: seq<ResourceList>, c: ResourceList)
    ensures PerPod(front + [c]) == Added(PerPod(front), c)
  {
    MentionedGrows(front, c);
    var grown, added := PerPod(front + [c]), Added(PerPod(front), c);
    assert grown.Keys == added.Keys;
    forall r | r in grown ensures grown[r] == added[r] {
      RequestedGrows(front, c, r);
      AmountIsRequested(front, r);
    }
  }

  /** What a pod requests is additive in its containers and mentions what any of them does; one
      container requests what it says. */
  lemma {:induction false} PodRequestsAdd(a: seq<ResourceList>, b: seq<ResourceList>, r: Resource)
    ensures Amount(PerPod(a + b), r) == Amount(PerPod(a), r) + Amount(PerPod(b), r)
    ensures r in PerPod(a + b) <==> r in PerPod(a) || r in PerPod(b)
  {
    if b == [] {
      assert a + b == a;
    } else {
      var front, last := b[..|b| - 1], b[|b| - 1];
      PodRequestsAdd(a, front, r);
      assert a + b == (a + front) + [last] && b == front + [last];
      PerPodGrows(a + front, last);
      PerPodGrows(front, last);
    }
  }

  lemma OneContainer(c: ResourceList)
    ensures PerPod([c]) == c
  {
    PerPodGrows([], c);
    assert [] + [c] == [c];
  }

  // ----- The reclaimed total -----

  /** One workload's contribution: what its pods request each, and how many are gone. */
  datatype Share = Share(perPod: ResourceList, count: int)

  function WithShare(total: ResourceList, share: Share): ResourceList {
    if share.count <= 0 then total
    else
      map r | r in total.Keys + share.perPod.Keys ::
        Amount(total, r) + if r in share.perPod then Scaled(r, share.perPod[r], share.count) else 0
  }

  function Total(shares: seq<Share>): ResourceList {
    if shares == [] then map[] else WithShare(Total(shares[..|shares| - 1]), shares[|shares| - 1])
  }

  /** What a share adds to one resource. */
  function Reported(share: Share, r: Resource): nat {
    if share.count <= 0 then 0 else Scaled(r, Amount(share.perPod, r), share.count)
  }

  function SumReported(shares: seq<Share>, r: Resource): nat {
    if shares == [] then 0 else SumReported(shares[..|shares| - 1], r) + Reported(shares[|shares| - 1], r)
  }

  predicate Contributes(share: Share, r: Resource) { share.count > 0 && r in share.perPod }

  lemma WithShareAdds(total: ResourceList, share: Share, r: Resource)
    ensures r in WithShare(total, share) <==> r in total || Contributes(share, r)
    ensures Amount(WithShare(total, share), r) == Amount(total, r) + Reported(share, r)
  {
    if share.count > 0 && r !in share.perPod {
      assert RoundUp(0, Grain(r)) == 0;
      assert Scaled(r, 0, share.count) == 0 * share.count * Grain(r) == 0;
    }
  }

  /** The total holds a resource exactly when some share contributes to it, and then it holds
      the plain sum of what the shares report. */
  lemma {:induction false} TotalIsTheSum(shares: seq<Share>, r: Resource)
    ensures r in Total(shares) <==> exists s :: s in shares && Contributes(s, r)
    ensures Amount(Total(shares), r) == SumReported(shares, r)
  {
    if shares != [] {
      var front, last := shares[..|shares| - 1], shares[|shares| - 1];
      TotalIsTheSum(front, r);
      WithShareAdds(Total(front), last, r);
      assert shares == front + [last];
      assert forall s :: s in shares <==> s in front || s == last;
    }
  }

  lemma {:induction false} SumWithout(shares: seq<Share>, k: nat, r: Resource)
    requires k < |shares|
    ensures SumReported(shares, r) == SumReported(shares[..k] + shares[k + 1..], r) + Reported(shares[k], r)
  {
    var n := |shares| - 1;
    var rest := shares[..k] + shares[k + 1..];
    if k == n {
      assert rest == shares[..n];
    } else {
      SumWithout(shares[..n], k, r);
      assert rest[..n - 1] == shares[..n][..k] + shares[..n][k + 1..];
      assert rest[n - 1] == shares[n];
    }
  }

  lemma {:induction false} SumIgnoresOrder(a: seq<Share>, b: seq<Share>, r: Resource)
    requires multiset(a) == multiset(b)
    ensures SumReported(a, r) == SumReported(b, r)
    decreases |a|
  {
    if a == [] {
      assert |multiset(b)| == 0;
    } else {
      var n := |a| - 1;
      assert a[n] in multiset(b);
      var k :| 0 <= k < |b| && b[k] == a[n];
      var front, rest := a[..n], b[..k] + b[k + 1..];
      assert multiset(front) == multiset(rest) by {
        assert a == front + [a[n]];
        RemoveOne(b, k);
      }
      SumIgnoresOrder(front, rest, r);
      SumWithout(b, k, r);
    }
  }

  /** The reported total does not depend on the order the workloads were visited in. */
  lemma TotalIgnoresOrder(a: seq<Share>, b: seq<Share>)
    requires multiset(a) == multiset(b)
    ensures Total(a) == Total(b)
  {
    assert forall s :: s in a <==> s in multiset(a);
    assert forall s :: s in b <==> s in multiset(b);
    forall r: Resource
      ensures r in Total(a) <==> r in Total(b)
      ensures Amount(Total(a), r) == Amount(Total(b), r)
    {
      TotalIsTheSum(a, r);
      TotalIsTheSum(b, r);
      SumIgnoresOrder(a, b, r);
    }
  }

  function Pods(shares: seq<Share>): nat {
    if shares == [] then 0
    else Pods(shares[..|shares| - 1]) + if shares[|shares| - 1].count > 0 then shares[|shares| - 1].count else 0
  }

  /** The exact requests no longer scheduled, before any rounding. */
  function SumExact(shares: seq<Share>, r: Resource): nat {
    if shares == [] then 0
    else
      var last := shares[|shares| - 1];
      SumExact(shares[..|shares| - 1], r) + if last.count > 0 then Amount(last.perPod, r) * last.count else 0
  }

  lemma RoundingPerShare(q: nat, step: nat, count: nat)
    requires step > 0 && count > 0
    ensures q * count <= RoundUp(q, step) * count * step < q * count + step * count
  {
    var up := RoundUp(q, step);
    assert q <= up * step < q + step;
    assert up * count * step == (up * step) * count;
    assert q * count <= (up * step) * count by { MulMonotone(q, up * step, count); }
    assert (up * step) * count + count <= (q + step) * count by {
      MulMonotone(up * step + 1, q + step, count);
      assert (up * step + 1) * count == (up * step) * count + count;
    }
  }

  lemma MulMonotone(a: nat, b: nat, c: nat)
    requires a <= b
    ensures a * c <= b * c
  {
  }

  /** The steps the shares are rounded up to, counted. */
  function Steps(shares: seq<Share>, r: Resource): nat {
    if shares == [] then 0
    else
      var last := shares[|shares| - 1];
      Steps(shares[..|shares| - 1], r)
      + if last.count > 0 then RoundUp(Amount(last.perPod, r), Grain(r)) * last.count else 0
  }

  /** What is reported is whole milli-CPU for CPU, and whole units for everything else. */
  lemma {:induction false} ReportedInWholeSteps(shares: seq<Share>, r: Resource)
    ensures SumReported(shares, r) == Steps(shares, r) * (if r == Cpu then 1_000_000 else 1_000_000_000)
  {
    if shares != [] {
      ReportedInWholeSteps(shares[..|shares| - 1], r);
    }
  }

  /** Rounding never understates and overstates by less than one step per reclaimed pod: one
      milli-CPU for CPU, one whole unit for everything else. */
  lemma {:induction false} RoundingIsBounded(shares: seq<Share>, r: Resource)
    ensures SumExact(shares, r) <= SumReported(shares, r)
    ensures if Pods(shares) == 0 then SumReported(shares, r) == 0
            else SumReported(shares, r)
                 < SumExact(shares, r) + (if r == Cpu then 1_000_000 else 1_000_000_000) * Pods(shares)
  {
    if shares != [] {
      var front, last := shares[..|shares| - 1], shares[|shares| - 1];
      RoundingIsBounded(front, r);
      if last.count > 0 {
        RoundingPerShare(Amount(last.perPod, r), Grain(r), last.count);
        assert Grain(r) * Pods(shares) == Grain(r) * Pods(front) + Grain(r) * last.count;
      }
    }
  }
}
