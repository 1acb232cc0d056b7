/** One workload's recommendation pass: readings go to the recommender, mean usage is
    kept for the HPA math, and each container gets its target. */
module UsagePass {
  import opened Resources
  import opened Planner
  import opened Api
  import opened Exponentials
  import opened Recommending
  import opened TargetPipeline
  import opened Recommenders

  datatype ContainerUsage = ContainerUsage(container: string, cpuMilli: nat, memBytes: nat)

  datatype PodUsage = PodUsage(pod: string, timestamp: int, containers: seq<ContainerUsage>)

  /** Mean usage of one container over the pods of a workload. */
  datatype Usage = Usage(cpuMilli: real, memBytes: real)

  type Snapshot = map<string, Usage>

  function ReadingOf(ns: string, workload: string, u: PodUsage, cu: ContainerUsage): Event {
    Event(ContainerKey(ns, workload, cu.container), u.pod, cu.cpuMilli as real, cu.memBytes as real, u.timestamp)
  }

  function PodReadings(ns: string, workload: string, u: PodUsage, cus: seq<ContainerUsage>): seq<Event> {
    if cus == [] then []
    else PodReadings(ns, workload, u, cus[..|cus| - 1]) + [ReadingOf(ns, workload, u, cus[|cus| - 1])]
  }

  /** All readings of the pass, in the order they are fed. */
  function Readings(ns: string, workload: string, usages: seq<PodUsage>): seq<Event> {
    if usages == [] then []
    else
      var u := usages[|usages| - 1];
      Readings(ns, workload, usages[..|usages| - 1]) + PodReadings(ns, workload, u, u.containers)
  }

  /** A reading of one container of one pod, as an event of that workload. */
  predicate Reports(e: Event, ns: string, workload: string, u: PodUsage, j: nat)
    requires j < |u.containers|
  {
    && e.key.namespace == ns && e.key.workload == workload && e.key.container == u.containers[j].container
    && e.pod == u.pod && e.t == u.timestamp
    && e.cpu == u.containers[j].cpuMilli as real && e.mem == u.containers[j].memBytes as real
  }

  lemma {:induction false} PodReadingsExactly(ns: string, workload: string, u: PodUsage, n: nat, e: Event)
    requires n <= |u.containers|
    ensures e in PodReadings(ns, workload, u, u.containers[..n]) <==>
            exists j :: 0 <= j < n && Reports(e, ns, workload, u, j)
  {
    if n > 0 {
      assert u.containers[..n][..n - 1] == u.containers[..n - 1];
      PodReadingsExactly(ns, workload, u, n - 1, e);
      assert e == ReadingOf(ns, workload, u, u.containers[n - 1]) <==> Reports(e, ns, workload, u, n - 1);
    }
  }

  /** The readings of a pass are exactly those of all containers of all its pods, each with
      its own pod, time, CPU and memory. */
  lemma {:induction false} ReadingsExactly(ns: string, workload: string, usages: seq<PodUsage>, e: Event)
    ensures e in Readings(ns, workload, usages) <==>
            exists i, j :: 0 <= i < |usages| && 0 <= j < |usages[i].containers| &&
                           Reports(e, ns, workload, usages[i], j)
  {
    if usages != [] {
      var front, u := usages[..|usages| - 1], usages[|usages| - 1];
      ReadingsExactly(ns, workload, front, e);
      assert u.containers[..|u.containers|] == u.containers;
      PodReadingsExactly(ns, workload, u, |u.containers|, e);
    }
  }

  function FeedFrom(shs: Shapes, m: Model, es: seq<Event>): (r: Model)
    requires shs.Ok() && AllSized(shs, m)
    ensures AllSized(shs, r)
  {
    if es == [] then m else ObserveEvent(shs, FeedFrom(shs, m, es[..|es| - 1]), es[|es| - 1])
  }

  lemma FeedOneMore(shs: Shapes, m: Model, es: seq<Event>, e: Event)
    requires shs.Ok() && AllSized(shs, m)
    ensures FeedFrom(shs, m, es + [e]) == ObserveEvent(shs, FeedFrom(shs, m, es), e)
  {
    assert (es + [e])[..|es|] == es;
  }

  lemma TraceOneMore(shs: Shapes, trace: seq<Event>, e: Event)
    requires shs.Ok()
    ensures Feed(shs, trace + [e]) == ObserveEvent(shs, Feed(shs, trace), e)
  {
    assert (trace + [e])[..|trace|] == trace;
  }

  lemma LastApart(trace: seq<Event>, es: seq<Event>)
    requires es != []
    ensures trace + es == trace + es[..|es| - 1] + [es[|es| - 1]]
  {}

  /** Feeding a pass on top of a trace is feeding the longer trace. */
  lemma {:induction false} FeedContinues(shs: Shapes, trace: seq<Event>, es: seq<Event>)
    requires shs.Ok()
    ensures FeedFrom(shs, Feed(shs, trace), es) == Feed(shs, trace + es)
  {
    if es == [] {
      assert trace + es == trace;
    } else {
      var front, e := es[..|es| - 1], es[|es| - 1];
      LastApart(trace, es);
      FeedContinues(shs, trace, front);
      TraceOneMore(shs, trace + front, e);
    }
  }

  function SumCpu(es: seq<Event>, name: string): real {
    if es == [] then 0.0
    else SumCpu(es[..|es| - 1], name) + (if es[|es| - 1].key.container == name then es[|es| - 1].cpu else 0.0)
  }

  function SumMem(es: seq<Event>, name: string): real {
    if es == [] then 0.0
    else SumMem(es[..|es| - 1], name) + (if es[|es| - 1].key.container == name then es[|es| - 1].mem else 0.0)
  }

  function Count(es: seq<Event>, name: string): nat {
    if es == [] then 0
    else Count(es[..|es| - 1], name) + (if es[|es| - 1].key.container == name then 1 else 0)
  }

  predicate Reads(es: seq<Event>, name: string) {
    exists e <- es :: e.key.container == name
  }

  lemma {:induction false} CountPositive(es: seq<Event>, name: string)
    ensures Reads(es, name) <==> Count(es, name) > 0
  {
    if es != [] {
      var front, e := es[..|es| - 1], es[|es| - 1];
      assert es == front + [e];
      CountPositive(front, name);
    }
  }

  ghost predicate TalliedAt(sums: map<string, Usage>, counts: map<string, nat>, es: seq<Event>, n: string) {
    && (n in sums <==> Reads(es, n)) && (n in counts <==> Reads(es, n))
    && (n in sums ==> sums[n] == Usage(SumCpu(es, n), SumMem(es, n)))
    && (n in counts ==> counts[n] == Count(es, n))
  }

  /** The running sums of the pass: one entry per container seen. */
  ghost predicate Tallied(sums: map<string, Usage>, counts: map<string, nat>, es: seq<Event>) {
    forall n :: TalliedAt(sums, counts, es, n)
  }

  function AddUsage(sums: map<string, Usage>, e: Event): map<string, Usage> {
    var n := e.key.container;
    var s := if n in sums then sums[n] else Usage(0.0, 0.0);
    sums[n := Usage(s.cpuMilli + e.cpu, s.memBytes + e.mem)]
  }

  function AddCount(counts: map<string, nat>, e: Event): map<string, nat> {
    var n := e.key.container;
    counts[n := (if n in counts then counts[n] else 0) + 1]
  }

  lemma OneMoreReading(es: seq<Event>, e: Event, n: string)
    ensures Reads(es + [e], n) <==> Reads(es, n) || n == e.key.container
    ensures SumCpu(es + [e], n) == SumCpu(es, n) + (if e.key.container == n then e.cpu else 0.0)
    ensures SumMem(es + [e], n) == SumMem(es, n) + (if e.key.container == n then e.mem else 0.0)
    ensures Count(es + [e], n) == Count(es, n) + (if e.key.container == n then 1 else 0)
  {
    assert (es + [e])[..|es|] == es;
    assert forall x :: x in es + [e] <==> x in es || x == e;
  }

  lemma TallyOneMore(sums: map<string, Usage>, counts: map<string, nat>, es: seq<Event>, e: Event)
    requires Tallied(sums, counts, es)
    ensures Tallied(AddUsage(sums, e), AddCount(counts, e), es + [e])
  {
    forall n ensures TalliedAt(AddUsage(sums, e), AddCount(counts, e), es + [e], n) {
      assert TalliedAt(sums, counts, es, n);
      OneMoreReading(es, e, n);
      if !Reads(es, n) {
        NothingTallied(es, n);
      }
    }
  }

  lemma {:induction false} NothingTallied(es: seq<Event>, name: string)
    requires !Reads(es, name)
    ensures SumCpu(es, name) == SumMem(es, name) == 0.0 && Count(es, name) == 0
  {
    if es != [] {
      assert es[|es| - 1] in es;
      NothingTallied(es[..|es| - 1], name);
    }
  }

  /** Mean usage per container of the readings of a pass. */
  ghost predicate IsMean(snapshot: Snapshot, es: seq<Event>) {
    && (forall n :: n in snapshot <==> Reads(es, n))
    && (forall n <- snapshot :: Count(es, n) > 0
          && snapshot[n] == Usage(SumCpu(es, n) / Count(es, n) as real, SumMem(es, n) / Count(es, n) as real))
  }

  /** The targets of the containers read in this pass. */
  ghost predicate AreTargets(targets: Targets, spec: Spec, shs: Shapes, m: Model, ns: string, workload: string,
                             es: seq<Event>)
    requires shs.Ok() && AllSized(shs, m)
  {
    && (forall n :: n in targets <==> Reads(es, n) && TargetOf(spec, shs, m, ContainerKey(ns, workload, n)).Some?)
    && (forall n <- targets :: TargetOf(spec, shs, m, ContainerKey(ns, workload, n)) == Some(targets[n]))
  }

  lemma NextReading(ns: string, workload: string, u: PodUsage, j: nat, es: seq<Event>)
    requires j < |u.containers|
    ensures es + PodReadings(ns, workload, u, u.containers[..j + 1]) ==
            es + PodReadings(ns, workload, u, u.containers[..j]) + [ReadingOf(ns, workload, u, u.containers[j])]
  {
    assert u.containers[..j + 1][..j] == u.containers[..j];
  }

  method FeedReading(r: Recommender, e: Event, ghost start: Model, ghost fed: seq<Event>)
    requires r.Valid() && AllSized(r.shapes, start) && r.model == FeedFrom(r.shapes, start, fed)
    modifies r, r.footprint
    ensures r.Valid() && fresh(r.footprint - old(r.footprint))
    ensures r.model == FeedFrom(r.shapes, start, fed + [e])
  {
    FeedOneMore(r.shapes, start, fed, e);
    r.Observe(e.key, e.pod, e.cpu, e.mem, e.t);
  }

  /** The readings of one pod, fed and added up. */
  method FeedPod(r: Recommender, ns: string, workload: string, u: PodUsage,
                 sums0: map<string, Usage>, counts0: map<string, nat>, ghost start: Model, ghost es: seq<Event>)
    returns (sums: map<string, Usage>, counts: map<string, nat>)
    requires r.Valid() && AllSized(r.shapes, start) && r.model == FeedFrom(r.shapes, start, es)
    requires Tallied(sums0, counts0, es)
    modifies r, r.footprint
    ensures r.Valid() && fresh(r.footprint - old(r.footprint))
    ensures r.model == FeedFrom(r.shapes, start, es + PodReadings(ns, workload, u, u.containers))
    ensures Tallied(sums, counts, es + PodReadings(ns, workload, u, u.containers))
  {
    sums, counts := sums0, counts0;
    ghost var fed := es;
    for j := 0 to |u.containers|
      invariant r.Valid() && fresh(r.footprint - old(r.footprint))
      invariant fed == es + PodReadings(ns, workload, u, u.containers[..j])
      invariant r.model == FeedFrom(r.shapes, start, fed)
      invariant Tallied(sums, counts, fed)
    {
      var e := ReadingOf(ns, workload, u, u.containers[j]);
      NextReading(ns, workload, u, j, es);
      FeedReading(r, e, start, fed);
      TallyOneMore(sums, counts, fed, e);
      sums, counts := AddUsage(sums, e), AddCount(counts, e);
      fed := fed + [e];
    }
    assert u.containers[..|u.containers|] == u.containers;
  }

  method FeedAndTally(r: Recommender, ns: string, workload: string, usages: seq<PodUsage>)
    returns (sums: map<string, Usage>, counts: map<string, nat>)
    requires r.Valid()
    modifies r, r.footprint
    ensures r.Valid() && fresh(r.footprint - old(r.footprint)) && AllSized(r.shapes, old(r.model))
    ensures r.model == FeedFrom(r.shapes, old(r.model), Readings(ns, workload, usages))
    ensures Tallied(sums, counts, Readings(ns, workload, usages))
  {
    r.ModelIsSized();
    sums, counts := map[], map[];
    for i := 0 to |usages|
      invariant r.Valid() && fresh(r.footprint - old(r.footprint))
      invariant r.model == FeedFrom(r.shapes, old(r.model), Readings(ns, workload, usages[..i]))
      invariant Tallied(sums, counts, Readings(ns, workload, usages[..i]))
    {
      assert usages[..i + 1][..i] == usages[..i];
      sums, counts := FeedPod(r, ns, workload, usages[i], sums, counts, old(r.model),
                              Readings(ns, workload, usages[..i]));
    }
    assert usages[..|usages|] == usages;
  }

  /** All readings of the container lie in this range, of CPU or of memory. */
  ghost predicate CpuIn(es: seq<Event>, name: string, lo: real, hi: real) {
    forall e <- es :: e.key.container == name ==> lo <= e.cpu <= hi
  }

  ghost predicate MemIn(es: seq<Event>, name: string, lo: real, hi: real) {
    forall e <- es :: e.key.container == name ==> lo <= e.mem <= hi
  }

  lemma OneFactorMore(x: real, n: nat)
    ensures Times(x, (n + 1) as real) == Times(x, n as real) + x
  {}

  lemma {:induction false} CpuSumBetween(es: seq<Event>, name: string, lo: real, hi: real)
    requires CpuIn(es, name, lo, hi)
    ensures Times(lo, Count(es, name) as real) <= SumCpu(es, name) <= Times(hi, Count(es, name) as real)
  {
    if es != [] {
      var front, e := es[..|es| - 1], es[|es| - 1];
      assert e in es;
      CpuSumBetween(front, name, lo, hi);
      OneFactorMore(lo, Count(front, name));
      OneFactorMore(hi, Count(front, name));
    }
  }

  lemma {:induction false} MemSumBetween(es: seq<Event>, name: string, lo: real, hi: real)
    requires MemIn(es, name, lo, hi)
    ensures Times(lo, Count(es, name) as real) <= SumMem(es, name) <= Times(hi, Count(es, name) as real)
  {
    if es != [] {
      var front, e := es[..|es| - 1], es[|es| - 1];
      assert e in es;
      MemSumBetween(front, name, lo, hi);
      OneFactorMore(lo, Count(front, name));
      OneFactorMore(hi, Count(front, name));
    }
  }

  lemma QuotientBetween(sum: real, n: real, lo: real, hi: real)
    requires n > 0.0 && Times(lo, n) <= sum <= Times(hi, n)
    ensures lo <= sum / n <= hi
  {
    FractionExactly(sum, n, hi);
    FractionExactly(-sum, n, -lo);
    assert -sum / n == -(sum / n);
  }

  /** A mean lies between the readings it is of, of that container and resource. */
  lemma MeanIsBetween(mean: Snapshot, es: seq<Event>, name: string, lo: real, hi: real)
    requires IsMean(mean, es) && name in mean
    ensures CpuIn(es, name, lo, hi) ==> lo <= mean[name].cpuMilli <= hi
    ensures MemIn(es, name, lo, hi) ==> lo <= mean[name].memBytes <= hi
  {
    if CpuIn(es, name, lo, hi) {
      CpuSumBetween(es, name, lo, hi);
      QuotientBetween(SumCpu(es, name), Count(es, name) as real, lo, hi);
    }
    if MemIn(es, name, lo, hi) {
      MemSumBetween(es, name, lo, hi);
      QuotientBetween(SumMem(es, name), Count(es, name) as real, lo, hi);
    }
  }

  method MeanOf(sums: map<string, Usage>, counts: map<string, nat>, ghost es: seq<Event>) returns (mean: Snapshot)
    requires Tallied(sums, counts, es)
    ensures IsMean(mean, es)
  {
    mean := map[];
    var left := sums.Keys;
    assert forall n :: TalliedAt(sums, counts, es, n);
    while left != {}
      invariant left <= sums.Keys && mean.Keys == sums.Keys - left
      invariant forall n <- mean ::
                  && Count(es, n) > 0
                  && mean[n] == Usage(SumCpu(es, n) / Count(es, n) as real, SumMem(es, n) / Count(es, n) as real)
      decreases |left|
    {
      var n :| n in left;
      assert TalliedAt(sums, counts, es, n);
      CountPositive(es, n);
      mean := mean[n := Usage(sums[n].cpuMilli / counts[n] as real, sums[n].memBytes / counts[n] as real)];
      left := left - {n};
    }
    forall n ensures n in mean <==> Reads(es, n) {
      assert TalliedAt(sums, counts, es, n);
    }
  }

  method TargetOne(r: Recommender, spec: Spec, key: ContainerKey) returns (target: Option<ResourceList>)
    requires r.Valid()
    ensures AllSized(r.shapes, r.model)
    ensures target == TargetOf(spec, r.shapes, r.model, key)
  {
    r.ModelIsSized();
    if SwitchedOff(spec, key.container) {
      return None;
    }
    var (cp, mp) := Percentiles(spec);
    var raw := r.Recommend(key, cp, mp);
    if raw.None? {
      return None;
    }
    return Some(TargetFor(spec, key.container, raw.value));
  }

  /** The targets of a set of containers. The order in which they are listed plays no
      part in later decisions, so the result is a map. */
  method TargetsFor(r: Recommender, spec: Spec, ns: string, workload: string, names: set<string>)
    returns (targets: Targets)
    requires r.Valid()
    ensures AllSized(r.shapes, r.model)
    ensures forall n :: n in targets <==>
              n in names && TargetOf(spec, r.shapes, r.model, ContainerKey(ns, workload, n)).Some?
    ensures forall n <- targets :: TargetOf(spec, r.shapes, r.model, ContainerKey(ns, workload, n)) == Some(targets[n])
  {
    r.ModelIsSized();
    targets := map[];
    var left := names;
    ghost var wanted := map n | n in names :: TargetOf(spec, r.shapes, r.model, ContainerKey(ns, workload, n));
    while left != {}
      invariant left <= names
      invariant forall n :: n in targets <==> n in names && n !in left && wanted[n].Some?
      invariant forall n <- targets :: wanted[n] == Some(targets[n])
      decreases |left|
    {
      var n :| n in left;
      left := left - {n};
      var target := TargetOne(r, spec, ContainerKey(ns, workload, n));
      if target.Some? {
        targets := targets[n := target.value];
      }
    }
  }

  /** The pass for one workload. */
  method ComputeRecommendations(r: Recommender, spec: Spec, ns: string, workload: string, usages: seq<PodUsage>)
    returns (targets: Targets, snapshot: Snapshot)
    requires r.Valid()
    modifies r, r.footprint
    ensures r.Valid() && fresh(r.footprint - old(r.footprint))
    ensures AllSized(r.shapes, old(r.model)) && AllSized(r.shapes, r.model)
    ensures r.model == FeedFrom(r.shapes, old(r.model), Readings(ns, workload, usages))
    ensures IsMean(snapshot, Readings(ns, workload, usages))
    ensures AreTargets(targets, spec, r.shapes, r.model, ns, workload, Readings(ns, workload, usages))
  {
    var sums, counts := FeedAndTally(r, ns, workload, usages);
    snapshot := MeanOf(sums, counts, Readings(ns, workload, usages));
    targets := TargetsFor(r, spec, ns, workload, sums.Keys);
    ghost var es := Readings(ns, workload, usages);
    forall n ensures n in sums <==> Reads(es, n) {
      assert TalliedAt(sums, counts, es, n);
    }
  }
}
