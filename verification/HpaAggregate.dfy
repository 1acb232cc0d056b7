/** The utilization the HPA really observes is a total over pods and containers. When
    every request is at its floor, that total is within target - headroom too. */
module HpaAggregate {
  import opened Resources
  import opened PodRuns
  import opened QosRuns
  import opened Recommending
  import opened UsagePass
  import opened HpaCoordination

  /** All containers of some pods. */
  function Containers(pods: seq<Pod>): seq<Container> {
    if pods == [] then [] else Containers(pods[..|pods| - 1]) + pods[|pods| - 1].containers
  }

  function Holding(cs: seq<Container>, name: string): nat {
    if cs == [] then 0 else Holding(cs[..|cs| - 1], name) + (if cs[|cs| - 1].name == name then 1 else 0)
  }

  function RequestSum(cs: seq<Container>, name: string, r: ResourceName): nat {
    if cs == [] then 0
    else
      RequestSum(cs[..|cs| - 1], name, r) +
      (if cs[|cs| - 1].name == name then Amount(cs[|cs| - 1].requests, r) else 0)
  }

  function UsedSum(es: seq<Event>, name: string, r: ResourceName): real {
    if r == CPU then SumCpu(es, name) else SumMem(es, name)
  }

  function TotalUsed(es: seq<Event>, names: seq<string>, r: ResourceName): real {
    if names == [] then 0.0 else TotalUsed(es, names[..|names| - 1], r) + UsedSum(es, names[|names| - 1], r)
  }

  function TotalRequests(cs: seq<Container>, names: seq<string>, r: ResourceName): nat {
    if names == [] then 0 else TotalRequests(cs, names[..|names| - 1], r) + RequestSum(cs, names[|names| - 1], r)
  }

  lemma AddWithin(u: real, r: int, v: real, s: int, percent: int)
    requires WithinUtilization(u, percent, r) && WithinUtilization(v, percent, s)
    ensures WithinUtilization(u + v, percent, r + s)
  {
    assert percent as real * (r + s) as real == percent as real * r as real + percent as real * s as real;
  }

  /** n times the same usage. */
  function Copies(u: real, n: nat): real {
    if n == 0 then 0.0 else Copies(u, n - 1) + u
  }

  lemma {:induction false} CopiesOfMean(sum: real, n: nat, k: nat)
    requires n > 0 && k <= n
    ensures Copies(sum / n as real, k) == sum / n as real * k as real
    ensures k == n ==> Copies(sum / n as real, k) == sum
  {
    if k > 0 {
      CopiesOfMean(sum, n, k - 1);
      var u := sum / n as real;
      assert u * k as real == u * (k - 1) as real + u;
    }
  }

  lemma {:induction false} ContainersWithin(cs: seq<Container>, name: string, u: real, r: ResourceName, percent: int)
    requires forall c <- cs :: c.name == name ==> WithinUtilization(u, percent, Amount(c.requests, r))
    ensures WithinUtilization(Copies(u, Holding(cs, name)), percent, RequestSum(cs, name, r))
  {
    if cs != [] {
      var n := |cs| - 1;
      ContainersWithin(cs[..n], name, u, r, percent);
      assert cs[n] in cs;
      if cs[n].name == name {
        AddWithin(Copies(u, Holding(cs[..n], name)), RequestSum(cs[..n], name, r),
                  u, Amount(cs[n].requests, r), percent);
      }
    }
  }

  /** Every container of these pods that has usage is within the guard. */
  ghost predicate AllSafe(cs: seq<Container>, usage: Snapshot, g: Guard) {
    forall c <- cs :: c.name in usage ==> Safe(c.requests, usage[c.name], g)
  }

  /** The readings behind the means are one per container of the pods. */
  ghost predicate Covers(es: seq<Event>, cs: seq<Container>, names: seq<string>) {
    forall n <- names :: Count(es, n) == Holding(cs, n)
  }

  lemma NameWithin(cs: seq<Container>, es: seq<Event>, usage: Snapshot, g: Guard, name: string, r: ResourceName)
    requires IsMean(usage, es) && AllSafe(cs, usage, g) && r in {CPU, Memory} && Watches(g, r)
    requires name in usage && Count(es, name) == Holding(cs, name)
    ensures WithinUtilization(UsedSum(es, name, r), Percent(g, r), RequestSum(cs, name, r))
  {
    var n := Count(es, name);
    ContainersWithin(cs, name, UsedOf(usage[name], r), r, Percent(g, r));
    CopiesOfMean(UsedSum(es, name, r), n, n);
  }

  /** The aggregate: total usage over the managed containers of all pods, against their
      total requests, is within target - headroom. */
  lemma {:induction false} AggregateWithin(cs: seq<Container>, es: seq<Event>, usage: Snapshot, g: Guard,
                                           names: seq<string>, r: ResourceName)
    requires IsMean(usage, es) && AllSafe(cs, usage, g) && r in {CPU, Memory} && Watches(g, r)
    requires forall n <- names :: n in usage
    requires Covers(es, cs, names)
    ensures WithinUtilization(TotalUsed(es, names, r), Percent(g, r), TotalRequests(cs, names, r))
  {
    if names != [] {
      var k := |names| - 1;
      assert names[k] in names;
      AggregateWithin(cs, es, usage, g, names[..k], r);
      NameWithin(cs, es, usage, g, names[k], r);
      AddWithin(TotalUsed(es, names[..k], r), TotalRequests(cs, names[..k], r),
                UsedSum(es, names[k], r), RequestSum(cs, names[k], r), Percent(g, r));
    }
  }

  lemma {:induction false} ContainersOf(pods: seq<Pod>, c: Container)
    ensures c in Containers(pods) <==> exists i :: 0 <= i < |pods| && c in pods[i].containers
  {
    if pods != [] {
      ContainersOf(pods[..|pods| - 1], c);
    }
  }

  /** A pod whose containers are all safe stays so over guarded passes. */
  lemma PodStaysSafe(pod: Pod, rounds: seq<Round>, usage: Snapshot, g: Guard)
    requires Sound(pod) && PodFits(pod) && AllSafe(pod.containers, usage, g)
    requires forall r <- rounds :: Guarded(r.action, usage, g)
    ensures AllSafe(Run(pod, rounds).containers, usage, g)
  {
    RunKeepsShape(pod, rounds);
    var after := Run(pod, rounds);
    forall i | 0 <= i < |after.containers| && after.containers[i].name in usage
      ensures Safe(after.containers[i].requests, usage[after.containers[i].name], g)
    {
      assert pod.containers[i] in pod.containers;
      RunKeepsSafe(pod, rounds, usage, g, i);
    }
  }

  /** Run every pod through its own sequence of passes. */
  function RunAll(pods: seq<Pod>, runs: seq<seq<Round>>): (after: seq<Pod>)
    requires |runs| == |pods|
    ensures |after| == |pods|
  {
    seq(|pods|, i requires 0 <= i < |pods| => Run(pods[i], runs[i]))
  }

  /** The same containers by name, whatever their resources. */
  ghost predicate SameNames(cs: seq<Container>, ds: seq<Container>) {
    |cs| == |ds| && forall i :: 0 <= i < |cs| ==> cs[i].name == ds[i].name
  }

  lemma {:induction false} HoldingByName(cs: seq<Container>, ds: seq<Container>, name: string)
    requires SameNames(cs, ds)
    ensures Holding(cs, name) == Holding(ds, name)
  {
    if cs != [] {
      HoldingByName(cs[..|cs| - 1], ds[..|ds| - 1], name);
    }
  }

  lemma {:induction false} PodsKeepNames(pods: seq<Pod>, after: seq<Pod>)
    requires |pods| == |after| && forall i :: 0 <= i < |pods| ==> SameNames(pods[i].containers, after[i].containers)
    ensures SameNames(Containers(pods), Containers(after))
  {
    if pods != [] {
      PodsKeepNames(pods[..|pods| - 1], after[..|after| - 1]);
    }
  }

  /** All pods of a workload, each after its own run of guarded passes: the aggregate
      the HPA observes stays within target - headroom as long as usage is the same. */
  lemma AggregateStaysWithin(pods: seq<Pod>, runs: seq<seq<Round>>, es: seq<Event>, usage: Snapshot, g: Guard,
                             names: seq<string>, r: ResourceName)
    requires |runs| == |pods| && forall p <- pods :: Sound(p) && PodFits(p) && AllSafe(p.containers, usage, g)
    requires forall run <- runs :: forall x <- run :: Guarded(x.action, usage, g)
    requires IsMean(usage, es) && r in {CPU, Memory} && Watches(g, r)
    requires (forall n <- names :: n in usage) && Covers(es, Containers(pods), names)
    ensures var cs := Containers(RunAll(pods, runs));
            WithinUtilization(TotalUsed(es, names, r), Percent(g, r), TotalRequests(cs, names, r))
  {
    var after := RunAll(pods, runs);
    var cs := Containers(after);
    forall i | 0 <= i < |pods|
      ensures SameNames(pods[i].containers, after[i].containers) && AllSafe(after[i].containers, usage, g)
    {
      assert pods[i] in pods && runs[i] in runs;
      RunKeepsShape(pods[i], runs[i]);
      PodStaysSafe(pods[i], runs[i], usage, g);
    }
    PodsKeepNames(pods, after);
    forall n <- names ensures Count(es, n) == Holding(cs, n) {
      HoldingByName(Containers(pods), cs, n);
    }
    forall c <- cs | c.name in usage ensures Safe(c.requests, usage[c.name], g) {
      ContainersOf(after, c);
    }
    AggregateWithin(cs, es, usage, g, names, r);
  }

  /** In particular when every pass resizes to coordinated targets. */
  lemma CoordinatedAggregateStaysWithin(pods: seq<Pod>, runs: seq<seq<Round>>, es: seq<Event>, usage: Snapshot,
                                        g: Guard, names: seq<string>, r: ResourceName)
    requires |runs| == |pods| && forall p <- pods :: Sound(p) && PodFits(p) && AllSafe(p.containers, usage, g)
    requires forall run <- runs :: forall x <- run :: CoordinatedRound(x, usage, g)
    requires IsMean(usage, es) && r in {CPU, Memory} && Watches(g, r)
    requires (forall n <- names :: n in usage) && Covers(es, Containers(pods), names)
    ensures WithinUtilization(TotalUsed(es, names, r), Percent(g, r),
                              TotalRequests(Containers(RunAll(pods, runs)), names, r))
  {
    forall run <- runs, x <- run ensures Guarded(x.action, usage, g) {
      CoordinatedIsGuarded(x, usage, g);
    }
    AggregateStaysWithin(pods, runs, es, usage, g, names, r);
  }
}
