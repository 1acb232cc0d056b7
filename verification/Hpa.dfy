/** Coupling with the HorizontalPodAutoscaler: request floors, and the proof that no
    downward resize pushes the utilization it observes over target - headroom. */
module HpaCoordination {
  import opened Resources
  import opened Planner
  import opened PodRuns
  import opened QosRuns
  import opened Api
  import opened Exponentials
  import opened TargetPipeline
  import opened UsagePass

  const DEFAULT_SETTLE: int := 10 * MINUTE
  const DEFAULT_HEADROOM: int := 10

  datatype MetricKind = ResourceMetric | ContainerResourceMetric | OtherMetric

  datatype MetricSource = MetricSource(name: ResourceName, utilization: bool, average: Option<int>)

  datatype Metric = Metric(kind: MetricKind, resource: Option<MetricSource>, containerResource: Option<MetricSource>)

  datatype Hpa = Hpa(desired: int, current: int, lastScale: Option<int>, metrics: seq<Metric>)

  /** What the lookup of the workload's HPA comes back with. */
  datatype HpaLookup = LookupFailed | NoHpa | Found(hpa: Hpa)

  datatype HpaState = Idle | AtMaxVertical | Scaling

  predicate IsScaling(hpa: Hpa, settle: int, now: int) {
    hpa.desired != hpa.current || (hpa.lastScale.Some? && now - hpa.lastScale.value < settle)
  }

  /** The source a metric reads, when it is one of the two resource kinds. */
  function SourceOf(m: Metric): Option<MetricSource> {
    match m.kind
    case ResourceMetric => m.resource
    case ContainerResourceMetric => m.containerResource
    case OtherMetric => None
  }

  predicate ReadsResource(m: Metric, r: ResourceName) {
    var s := SourceOf(m);
    s.Some? && s.value.utilization && s.value.average.Some? && s.value.name == r
  }

  function AverageOf(m: Metric): int {
    if SourceOf(m).Some? && SourceOf(m).value.average.Some? then SourceOf(m).value.average.value else 0
  }

  /** The metric sets this average utilization of the resource, for the pod or for one
      container. */
  predicate Sets(m: Metric, r: ResourceName, t: int) {
    || (m.kind == ResourceMetric && m.resource == Some(MetricSource(r, true, Some(t))))
    || (m.kind == ContainerResourceMetric && m.containerResource == Some(MetricSource(r, true, Some(t))))
  }

  lemma ReadsExactly(m: Metric, r: ResourceName)
    ensures forall t :: Sets(m, r, t) <==> ReadsResource(m, r) && AverageOf(m) == t
    ensures ReadsResource(m, r) <==> exists t :: Sets(m, r, t)
  {
    if ReadsResource(m, r) {
      assert Sets(m, r, AverageOf(m));
    }
  }

  ghost predicate SetsLast(metrics: seq<Metric>, r: ResourceName, t: int, i: nat) {
    i < |metrics| && Sets(metrics[i], r, t) && forall j, u :: i < j < |metrics| ==> !Sets(metrics[j], r, u)
  }

  /** The last utilization target for a resource wins; 0 when there is none. */
  ghost predicate IsTarget(metrics: seq<Metric>, r: ResourceName, t: int) {
    || (t == 0 && forall m <- metrics, u :: !Sets(m, r, u))
    || exists i: nat :: SetsLast(metrics, r, t, i)
  }

  method TargetUtilization(hpa: Hpa) returns (cpu: int, mem: int)
    ensures IsTarget(hpa.metrics, CPU, cpu) && IsTarget(hpa.metrics, Memory, mem)
    ensures cpu == LastTarget(hpa.metrics, CPU) && mem == LastTarget(hpa.metrics, Memory)
  {
    cpu, mem := 0, 0;
    for i := 0 to |hpa.metrics|
      invariant cpu == LastTarget(hpa.metrics[..i], CPU) && mem == LastTarget(hpa.metrics[..i], Memory)
    {
      var m := hpa.metrics[i];
      assert hpa.metrics[..i + 1][..i] == hpa.metrics[..i];
      var source := SourceOf(m);
      if source.None? || !source.value.utilization || source.value.average.None? {
        continue;
      }
      if source.value.name == CPU {
        cpu := source.value.average.value;
      } else if source.value.name == Memory {
        mem := source.value.average.value;
      }
    }
    assert hpa.metrics[..|hpa.metrics|] == hpa.metrics;
    LastTargetIsTarget(hpa.metrics, CPU);
    LastTargetIsTarget(hpa.metrics, Memory);
  }

  function LastTarget(metrics: seq<Metric>, r: ResourceName): int {
    if metrics == [] then 0
    else if ReadsResource(metrics[|metrics| - 1], r) then AverageOf(metrics[|metrics| - 1])
    else LastTarget(metrics[..|metrics| - 1], r)
  }

  lemma IsTargetStays(front: seq<Metric>, m: Metric, r: ResourceName, t: int)
    requires IsTarget(front, r, t) && !ReadsResource(m, r)
    ensures IsTarget(front + [m], r, t)
  {
    ReadsExactly(m, r);
    if i: nat :| SetsLast(front, r, t, i) {
      assert SetsLast(front + [m], r, t, i);
    }
  }

  lemma {:induction false} LastTargetIsTarget(metrics: seq<Metric>, r: ResourceName)
    ensures IsTarget(metrics, r, LastTarget(metrics, r))
  {
    if metrics != [] {
      var front, last := metrics[..|metrics| - 1], metrics[|metrics| - 1];
      if ReadsResource(last, r) {
        ReadsExactly(last, r);
        assert SetsLast(metrics, r, AverageOf(last), |metrics| - 1);
      } else {
        LastTargetIsTarget(front, r);
        IsTargetStays(front, last, r, LastTarget(front, r));
        assert metrics == front + [last];
      }
    }
  }

  // ---------- The floor ----------

  function RequestFloor(usage: real, target: int, headroom: int): int {
    var effective := target - headroom;
    if target <= 0 || effective <= 0 then 0 else Ceil(usage * 100.0 / effective as real)
  }

  /** Utilization of a request stays within a percentage. */
  predicate WithinUtilization(usage: real, percent: int, request: int) {
    usage * 100.0 <= percent as real * request as real
  }

  /** The floor is the least request within target - headroom: exactly the requests at
      or above it keep the utilization within. */
  lemma FloorIsLeast(usage: real, target: int, headroom: int, request: int)
    requires target > 0 && target - headroom > 0
    ensures request >= RequestFloor(usage, target, headroom) <==> WithinUtilization(usage, target - headroom, request)
  {
    var e := (target - headroom) as real;
    FractionExactly(usage * 100.0, e, request as real);
    assert Ceil(usage * 100.0 / e) <= request <==> usage * 100.0 / e <= request as real;
  }

  function RaiseTo(list: ResourceList, r: ResourceName, floor: int): ResourceList {
    if floor > 0 && Amount(list, r) < floor then list[r := floor] else list
  }

  /** The utilization targets of an HPA and the headroom kept below them. */
  datatype Guard = Guard(cpuTarget: int, memTarget: int, headroom: int)

  function FloorTarget(target: ResourceList, u: Usage, g: Guard): ResourceList {
    RaiseTo(RaiseTo(target, CPU, RequestFloor(u.cpuMilli, g.cpuTarget, g.headroom)),
            Memory, RequestFloor(u.memBytes, g.memTarget, g.headroom))
  }

  function FloorOne(name: string, target: ResourceList, usage: Snapshot, g: Guard): ResourceList {
    if name in usage then FloorTarget(target, usage[name], g) else target
  }

  function FloorTargets(targets: Targets, usage: Snapshot, g: Guard): Targets {
    map n | n in targets :: FloorOne(n, targets[n], usage, g)
  }

  function Headroom(spec: Spec): int {
    if spec.hpa.Some? && spec.hpa.value.reserveHeadroomPercent > 0 then spec.hpa.value.reserveHeadroomPercent
    else DEFAULT_HEADROOM
  }

  function Settle(spec: Spec): int {
    if spec.hpa.Some? && spec.hpa.value.cooldownAfterHpa.Some? then spec.hpa.value.cooldownAfterHpa.value
    else DEFAULT_SETTLE
  }

  predicate Pauses(spec: Spec) {
    spec.hpa.Some? && spec.hpa.value.pauseWhileScaling.Some? ==> spec.hpa.value.pauseWhileScaling.value
  }

  predicate Ignored(spec: Spec) {
    spec.hpa.Some? && spec.hpa.value.ignore
  }

  function GuardOf(spec: Spec, hpa: Hpa): Guard {
    Guard(LastTarget(hpa.metrics, CPU), LastTarget(hpa.metrics, Memory), Headroom(spec))
  }

  predicate AtMax(spec: Spec, name: string, target: ResourceList) {
    CpuBounds(spec, name).max != 0 && Amount(target, CPU) >= CpuBounds(spec, name).max
  }

  /** Every target but the ones still left is at its CPU maximum. */
  predicate AllAtMax(spec: Spec, targets: Targets, left: set<string>) {
    forall n <- targets :: n !in left ==> AtMax(spec, n, targets[n])
  }

  /** The table when only the targets that are left have not been floored yet. */
  ghost function Halfway(was: Targets, floored: Targets, left: set<string>): Targets
    requires was.Keys == floored.Keys
  {
    map n | n in was :: if n in left then was[n] else floored[n]
  }

  lemma OneMoreFloored(spec: Spec, was: Targets, floored: Targets, left: set<string>, n: string)
    requires was.Keys == floored.Keys && n in left && n in was
    ensures Halfway(was, floored, left)[n := floored[n]] == Halfway(was, floored, left - {n})
    ensures AllAtMax(spec, floored, left - {n}) <==> AllAtMax(spec, floored, left) && AtMax(spec, n, floored[n])
    ensures Halfway(was, floored, {}) == floored
  {}

  /** What coordination decides for a workload: its state and its targets. */
  datatype Coordinated = Unreadable | Coordinated(state: HpaState, targets: Targets)

  ghost function Coordination(spec: Spec, lookup: HpaLookup, targets: Targets, usage: Snapshot, now: int): Coordinated {
    if Ignored(spec) then Coordinated(Idle, targets)
    else
      match lookup
      case LookupFailed => Unreadable
      case NoHpa => Coordinated(Idle, targets)
      case Found(hpa) =>
        if Pauses(spec) && IsScaling(hpa, Settle(spec), now) then Coordinated(Scaling, targets)
        else
          var floored := FloorTargets(targets, usage, GuardOf(spec, hpa));
          Coordinated(if floored != map[] && AllAtMax(spec, floored, {}) then AtMaxVertical else Idle, floored)
  }

  /** When coordination answers Scaling, and so pauses the workload: with pausing not
      turned off, while the HPA's replicas disagree, and for the settle time, 10 minutes
      unless configured, after its last scale event. */
  lemma ScalingExactly(spec: Spec, hpa: Hpa, targets: Targets, usage: Snapshot, now: int)
    ensures var (c, cfg) := (Coordination(spec, Found(hpa), targets, usage, now), spec.hpa);
            var settle := if cfg.Some? && cfg.value.cooldownAfterHpa.Some? then cfg.value.cooldownAfterHpa.value
                          else 600_000_000_000;
            && (c.Coordinated? && c.state == Scaling <==>
                  && (cfg.Some? ==> !cfg.value.ignore && cfg.value.pauseWhileScaling != Some(false))
                  && (hpa.desired != hpa.current || (hpa.lastScale.Some? && now - hpa.lastScale.value < settle)))
            && (c.Coordinated? && c.state == Scaling ==> c.targets == targets)
  {}

  /** The HPA is found and makes the workload wait. */
  predicate MustWait(spec: Spec, lookup: HpaLookup, now: int) {
    && lookup.Found?
    && (spec.hpa.Some? ==> !spec.hpa.value.ignore && spec.hpa.value.pauseWhileScaling != Some(false))
    && (|| lookup.hpa.desired != lookup.hpa.current
        || (lookup.hpa.lastScale.Some? &&
            now - lookup.hpa.lastScale.value <
            if spec.hpa.Some? && spec.hpa.value.cooldownAfterHpa.Some? then spec.hpa.value.cooldownAfterHpa.value
            else 10 * MINUTE))
  }

  /** Exactly then is the state Scaling; and the lookup fails the pass exactly when it
      fails and the HPA is not ignored. Without an HPA, or ignoring it, targets stay. */
  lemma WaitsExactly(spec: Spec, lookup: HpaLookup, targets: Targets, usage: Snapshot, now: int)
    ensures var c := Coordination(spec, lookup, targets, usage, now);
            && (c.Coordinated? && c.state == Scaling <==> MustWait(spec, lookup, now))
            && (c.Unreadable? <==> lookup.LookupFailed? && (spec.hpa.Some? ==> !spec.hpa.value.ignore))
            && ((spec.hpa.Some? && spec.hpa.value.ignore) || lookup.NoHpa? ==> c == Coordinated(Idle, targets))
  {}

  /** AtMaxVertical is answered exactly when an HPA that does not make the workload wait is
      found, and every target, of which there are some, has reached its CPU maximum, which
      is set. */
  lemma AtMaxExactly(spec: Spec, lookup: HpaLookup, targets: Targets, usage: Snapshot, now: int)
    ensures var c := Coordination(spec, lookup, targets, usage, now);
            c.Coordinated? && c.state == AtMaxVertical <==>
              && lookup.Found? && (spec.hpa.Some? ==> !spec.hpa.value.ignore) && !MustWait(spec, lookup, now)
              && c.Coordinated? && c.targets != map[]
              && forall n <- c.targets :: 0 < CpuBounds(spec, n).max <= Amount(c.targets[n], CPU)
  {
    var c := Coordination(spec, lookup, targets, usage, now);
    if c.Coordinated? && c.targets != map[] {
      assert AllAtMax(spec, c.targets, {}) <==>
             forall n <- c.targets :: 0 < CpuBounds(spec, n).max <= Amount(c.targets[n], CPU);
    }
  }

  /** The guard keeps utilization the configured headroom below the last target, or 10
      where none is configured. */
  lemma HeadroomExactly(spec: Spec, hpa: Hpa, r: ResourceName)
    requires r in {CPU, Memory}
    ensures LastTarget(hpa.metrics, r) - Percent(GuardOf(spec, hpa), r) ==
            if spec.hpa.Some? && spec.hpa.value.reserveHeadroomPercent > 0 then spec.hpa.value.reserveHeadroomPercent
            else 10
  {}

  /** The target table of one workload, which coordination overwrites in place. */
  class TargetTable {
    var entries: Targets

    constructor (entries: Targets)
      ensures this.entries == entries
    {
      this.entries := entries;
    }

    method Coordinate(spec: Spec, lookup: HpaLookup, usage: Snapshot, now: int) returns (state: HpaState, failed: bool)
      modifies this
      ensures var c := Coordination(spec, lookup, old(entries), usage, now);
              && (failed <==> c.Unreadable?)
              && (failed ==> entries == old(entries))
              && (!failed ==> state == c.state && entries == c.targets)
    {
      state, failed := Idle, false;
      if Ignored(spec) {
        return;
      }
      if lookup.LookupFailed? {
        failed := true;
        return;
      }
      if lookup.NoHpa? {
        return;
      }
      var hpa := lookup.hpa;
      if Pauses(spec) && IsScaling(hpa, Settle(spec), now) {
        state := Scaling;
        return;
      }
      var cpuTarget, memTarget := TargetUtilization(hpa);
      var g := Guard(cpuTarget, memTarget, Headroom(spec));
      var atMax := RaiseFloors(spec, usage, g);
      if atMax {
        state := AtMaxVertical;
      }
    }

    /** One target, raised to its floors when there is usage to floor it by. */
    method RaiseEntry(n: string, usage: Snapshot, g: Guard)
      requires n in entries
      modifies this
      ensures entries == old(entries)[n := FloorOne(n, old(entries)[n], usage, g)]
    {
      if n !in usage {
        return;
      }
      var floor := RequestFloor(usage[n].cpuMilli, g.cpuTarget, g.headroom);
      if floor > 0 && Amount(entries[n], CPU) < floor {
        entries := entries[n := RaiseTo(entries[n], CPU, floor)];
      }
      floor := RequestFloor(usage[n].memBytes, g.memTarget, g.headroom);
      if floor > 0 && Amount(entries[n], Memory) < floor {
        entries := entries[n := RaiseTo(entries[n], Memory, floor)];
      }
    }

    /** The loop over the targets: each is raised to its floors, and compared with its
        CPU maximum afterwards. */
    method RaiseFloors(spec: Spec, usage: Snapshot, g: Guard) returns (atMax: bool)
      modifies this
      ensures entries == FloorTargets(old(entries), usage, g)
      ensures atMax <==> entries != map[] && AllAtMax(spec, entries, {})
    {
      ghost var was := entries;
      atMax := |entries| > 0;
      var left := entries.Keys;
      while left != {}
        invariant left <= was.Keys
        invariant entries == Halfway(was, FloorTargets(was, usage, g), left)
        invariant atMax <==> was != map[] && AllAtMax(spec, FloorTargets(was, usage, g), left)
        decreases |left|
      {
        var n :| n in left;
        RaiseEntry(n, usage, g);
        OneMoreFloored(spec, was, FloorTargets(was, usage, g), left, n);
        left := left - {n};
        if CpuBounds(spec, n).max == 0 || Amount(entries[n], CPU) < CpuBounds(spec, n).max {
          atMax := false;
        }
      }
    }
  }

  // ---------- Safety of one resize ----------

  /** The guard watches a resource: it has a target above the headroom. */
  predicate Watches(g: Guard, r: ResourceName) {
    (r == CPU && g.cpuTarget > 0 && g.cpuTarget - g.headroom > 0) ||
    (r == Memory && g.memTarget > 0 && g.memTarget - g.headroom > 0)
  }

  function Percent(g: Guard, r: ResourceName): int {
    if r == CPU then g.cpuTarget - g.headroom else g.memTarget - g.headroom
  }

  function UsedOf(u: Usage, r: ResourceName): real {
    if r == CPU then u.cpuMilli else u.memBytes
  }

  /** The request keeps the utilization of every watched resource within the guard. */
  ghost predicate Safe(list: ResourceList, u: Usage, g: Guard) {
    forall r <- {CPU, Memory} :: Watches(g, r) ==> WithinUtilization(UsedOf(u, r), Percent(g, r), Amount(list, r))
  }

  lemma FlooredIsSafe(target: ResourceList, u: Usage, g: Guard)
    ensures Safe(FloorTarget(target, u, g), u, g)
  {
    var t := FloorTarget(target, u, g);
    forall r <- {CPU, Memory} | Watches(g, r) ensures WithinUtilization(UsedOf(u, r), Percent(g, r), Amount(t, r)) {
      FloorIsLeast(UsedOf(u, r), if r == CPU then g.cpuTarget else g.memTarget, g.headroom, Amount(t, r));
    }
  }

  lemma MoreIsWithin(usage: real, percent: int, request: int, more: int)
    requires percent > 0 && request <= more && WithinUtilization(usage, percent, request)
    ensures WithinUtilization(usage, percent, more)
  {
    var d := (more - request) as real;
    assert percent as real * d >= 0.0;
    assert percent as real * more as real == percent as real * request as real + percent as real * d;
  }

  /** Through tolerance, step caps, limit capping and pinning: whenever a plan made from
      floored targets lowers a request, the new request is still within the guard. */
  lemma LoweringIsSafe(c: Container, targets: Targets, usage: Snapshot, g: Guard, policy: Policy, guaranteed: bool,
                       r: ResourceName)
    requires Fits(c) && c.name in targets && c.name in usage && r in {CPU, Memory} && Watches(g, r)
    ensures var d := After(c, Resize(FloorTargets(targets, usage, g)), policy, guaranteed);
            Amount(d.requests, r) < Amount(c.requests, r) ==>
              WithinUtilization(UsedOf(usage[c.name], r), Percent(g, r), Amount(d.requests, r))
  {
    var floored := FloorTargets(targets, usage, g);
    var d := After(c, Resize(floored), policy, guaranteed);
    FlooredIsSafe(targets[c.name], usage[c.name], g);
    ResizeMovesTowardsTarget(c, floored, policy, guaranteed);
    if Amount(d.requests, r) < Amount(c.requests, r) {
      assert Amount(floored[c.name], r) <= Amount(d.requests, r);
      MoreIsWithin(UsedOf(usage[c.name], r), Percent(g, r), Amount(floored[c.name], r), Amount(d.requests, r));
    }
  }

  /** The same for a pod: coordination, then a plan, then applying it. */
  lemma CoordinatedResizeIsSafe(pod: Pod, spec: Spec, hpa: Hpa, targets: Targets, usage: Snapshot, now: int,
                                policy: Policy, i: nat, r: ResourceName)
    requires Sound(pod) && PodFits(pod) && i < |pod.containers| && r in {CPU, Memory}
    requires !Ignored(spec) && !(Pauses(spec) && IsScaling(hpa, Settle(spec), now))
    requires pod.containers[i].name in targets && pod.containers[i].name in usage && Watches(GuardOf(spec, hpa), r)
    ensures var a := Resize(Coordination(spec, Found(hpa), targets, usage, now).targets);
            var after := StepPod(pod, a, policy);
            && |after.containers| == |pod.containers|
            && (Amount(after.containers[i].requests, r) < Amount(pod.containers[i].requests, r) ==>
                  WithinUtilization(UsedOf(usage[pod.containers[i].name], r), Percent(GuardOf(spec, hpa), r),
                                    Amount(after.containers[i].requests, r)))
  {
    StepIsPointwise(pod, Resize(FloorTargets(targets, usage, GuardOf(spec, hpa))), policy);
    LoweringIsSafe(pod.containers[i], targets, usage, GuardOf(spec, hpa), policy, QosClass(pod) == Guaranteed, r);
  }

  // ---------- Safety over runs ----------

  /** A pass under the guard: its targets are floored, or it is an OOM bump. */
  ghost predicate Guarded(a: Action, usage: Snapshot, g: Guard) {
    a.Resize? ==> forall n <- a.targets :: n in usage ==> Safe(a.targets[n], usage[n], g)
  }

  lemma FlooredActionIsGuarded(targets: Targets, usage: Snapshot, g: Guard)
    ensures Guarded(Resize(FloorTargets(targets, usage, g)), usage, g)
  {
    forall n <- targets | n in usage ensures Safe(FloorTargets(targets, usage, g)[n], usage[n], g) {
      FlooredIsSafe(targets[n], usage[n], g);
    }
  }

  lemma StepKeepsSafe(c: Container, a: Action, usage: Snapshot, g: Guard, policy: Policy, guaranteed: bool)
    requires Fits(c) && c.name in usage && Guarded(a, usage, g) && Safe(c.requests, usage[c.name], g)
    ensures Safe(After(c, a, policy, guaranteed).requests, usage[c.name], g)
  {
    var d := After(c, a, policy, guaranteed);
    match a {
      case Resize(targets) =>
        if c.name in targets {
          ResizeMovesTowardsTarget(c, targets, policy, guaranteed);
        }
      case Bump(oom, caps) =>
        BumpRaisesMemory(c, oom, caps, policy, guaranteed);
    }
    forall r <- {CPU, Memory} | Watches(g, r)
      ensures WithinUtilization(UsedOf(usage[c.name], r), Percent(g, r), Amount(d.requests, r))
    {
      var least := if a.Resize? && c.name in a.targets && Amount(a.targets[c.name], r) < Amount(c.requests, r)
                   then Amount(a.targets[c.name], r) else Amount(c.requests, r);
      MoreIsWithin(UsedOf(usage[c.name], r), Percent(g, r), least, Amount(d.requests, r));
    }
  }

  /** Once every request of a pod is within the guard, later passes with the same usage
      keep it so, however many and whatever their other targets. */
  lemma {:induction false} RunKeepsSafe(pod: Pod, rounds: seq<Round>, usage: Snapshot, g: Guard, i: nat)
    requires Sound(pod) && PodFits(pod) && i < |pod.containers| && pod.containers[i].name in usage
    requires forall r <- rounds :: Guarded(r.action, usage, g)
    requires Safe(pod.containers[i].requests, usage[pod.containers[i].name], g)
    ensures var after := Run(pod, rounds);
            && |after.containers| == |pod.containers| && after.containers[i].name == pod.containers[i].name
            && Safe(after.containers[i].requests, usage[pod.containers[i].name], g)
  {
    if rounds != [] {
      var front, last := rounds[..|rounds| - 1], rounds[|rounds| - 1];
      var before := Run(pod, front);
      RunKeepsSafe(pod, front, usage, g, i);
      RunKeepsShape(pod, front);
      StepIsPointwise(before, last.action, last.policy);
      StepKeepsSafe(before.containers[i], last.action, usage, g, last.policy, QosClass(before) == Guaranteed);
    }
  }

  predicate GuardedBy(spec: Spec, hpa: Hpa, now: int, g: Guard) {
    GuardOf(spec, hpa) == g && !Ignored(spec) && !(Pauses(spec) && IsScaling(hpa, Settle(spec), now))
  }

  ghost predicate CoordinatedTo(spec: Spec, hpa: Hpa, targets: Targets, usage: Snapshot, now: int, result: Targets) {
    var c := Coordination(spec, Found(hpa), targets, usage, now);
    c.Coordinated? && result == c.targets
  }

  /** The pass resizes to what coordination made of some targets, under some spec and HPA
      that come to this guard, neither ignored nor paused; or it is an OOM bump. */
  ghost predicate CoordinatedRound(r: Round, usage: Snapshot, g: Guard) {
    r.action.Resize? ==>
      exists spec, hpa, targets, now ::
        GuardedBy(spec, hpa, now, g) && CoordinatedTo(spec, hpa, targets, usage, now, r.action.targets)
  }

  lemma CoordinatedIsGuarded(r: Round, usage: Snapshot, g: Guard)
    requires CoordinatedRound(r, usage, g)
    ensures Guarded(r.action, usage, g)
  {
    if r.action.Resize? {
      var spec, hpa, targets, now :|
        GuardedBy(spec, hpa, now, g) && CoordinatedTo(spec, hpa, targets, usage, now, r.action.targets);
      FlooredActionIsGuarded(targets, usage, g);
    }
  }

  /** From coordination to requests: passes that resize to coordinated targets, with
      bumps between them, keep a request within the guard for the usage they were
      coordinated with, whatever the targets, specs and times of each pass. */
  lemma CoordinatedRunKeepsSafe(pod: Pod, rounds: seq<Round>, usage: Snapshot, g: Guard, i: nat)
    requires Sound(pod) && PodFits(pod) && i < |pod.containers| && pod.containers[i].name in usage
    requires forall r <- rounds :: CoordinatedRound(r, usage, g)
    requires Safe(pod.containers[i].requests, usage[pod.containers[i].name], g)
    ensures var after := Run(pod, rounds);
            && |after.containers| == |pod.containers| && after.containers[i].name == pod.containers[i].name
            && Safe(after.containers[i].requests, usage[pod.containers[i].name], g)
  {
    forall r <- rounds ensures Guarded(r.action, usage, g) {
      CoordinatedIsGuarded(r, usage, g);
    }
    RunKeepsSafe(pod, rounds, usage, g, i);
  }

  // ---------- The floor and the configured maximum ----------

  /** The floor is not clamped again: a target within its maximum stays within it
      exactly when the floor itself is. */
  lemma FloorKeepsMaxExactly(target: ResourceList, u: Usage, g: Guard, cpuMax: nat, memMax: nat)
    requires Amount(target, CPU) <= cpuMax && Amount(target, Memory) <= memMax
    ensures var t := FloorTarget(target, u, g);
            && (Amount(t, CPU) <= cpuMax <==> RequestFloor(u.cpuMilli, g.cpuTarget, g.headroom) <= cpuMax)
            && (Amount(t, Memory) <= memMax <==> RequestFloor(u.memBytes, g.memTarget, g.headroom) <= memMax)
  {}

  // ---------- Which targets the floor protects ----------

  ghost predicate Listed(metrics: seq<Metric>, r: ResourceName, t: int) {
    exists m <- metrics :: Sets(m, r, t)
  }

  /** Whatever the usage and the target, flooring by that usage keeps the utilization at
      least the headroom below t. */
  ghost predicate Protects(g: Guard, r: ResourceName, t: int) {
    forall target: ResourceList, u: Usage :: UsedOf(u, r) >= 0.0 ==>
      WithinUtilization(UsedOf(u, r), t - g.headroom, Amount(FloorTarget(target, u, g), r))
  }

  lemma FlooredIsWithin(target: ResourceList, u: Usage, g: Guard, r: ResourceName)
    requires r in {CPU, Memory} && Watches(g, r)
    ensures WithinUtilization(UsedOf(u, r), Percent(g, r), Amount(FloorTarget(target, u, g), r))
  {
    FlooredIsSafe(target, u, g);
  }

  lemma WiderIsWithin(usage: real, percent: int, wider: int, request: nat)
    requires WithinUtilization(usage, percent, request) && percent <= wider
    ensures WithinUtilization(usage, wider, request)
  {
    var d := (wider - percent) as real;
    assert d * request as real >= 0.0;
    assert wider as real * request as real == percent as real * request as real + d * request as real;
  }

  /** Usage that needs a request of exactly 100 to stay within `percent`. */
  function UsageOf(percent: int): Usage {
    Usage(percent as real, percent as real)
  }

  lemma FloorOfUsage(target: int, headroom: int)
    requires target > 0 && target - headroom > 0
    ensures RequestFloor((target - headroom) as real, target, headroom) == 100
  {
    var e := (target - headroom) as real;
    assert e * 100.0 / e == 100.0;
  }

  function TargetOn(g: Guard, r: ResourceName): int {
    if r == CPU then g.cpuTarget else g.memTarget
  }

  /** What flooring makes of an empty target. */
  lemma FloorOfNothing(u: Usage, g: Guard, r: ResourceName)
    requires r in {CPU, Memory}
    ensures var floor := RequestFloor(UsedOf(u, r), TargetOn(g, r), g.headroom);
            Amount(FloorTarget(map[], u, g), r) == if floor > 0 then floor else 0
  {}

  /** What flooring makes of any target: it stays when the resource is not guarded or the
      request it stands for is within the guard, and becomes the least request within the
      guard otherwise. */
  lemma FloorExactly(target: ResourceList, u: Usage, g: Guard, r: ResourceName)
    ensures var (x, y) := (Amount(target, r), Amount(FloorTarget(target, u, g), r));
            if r !in {CPU, Memory} || TargetOn(g, r) <= 0 || TargetOn(g, r) - g.headroom <= 0 ||
               WithinUtilization(UsedOf(u, r), TargetOn(g, r) - g.headroom, x)
            then y == x
            else && WithinUtilization(UsedOf(u, r), TargetOn(g, r) - g.headroom, y)
                 && !WithinUtilization(UsedOf(u, r), TargetOn(g, r) - g.headroom, y - 1)
  {
    if r in {CPU, Memory} && TargetOn(g, r) > 0 && TargetOn(g, r) - g.headroom > 0 {
      var x: int, y: int := Amount(target, r), Amount(FloorTarget(target, u, g), r);
      FloorIsLeast(UsedOf(u, r), TargetOn(g, r), g.headroom, x);
      FloorIsLeast(UsedOf(u, r), TargetOn(g, r), g.headroom, y);
      FloorIsLeast(UsedOf(u, r), TargetOn(g, r), g.headroom, y - 1);
    }
  }

  /** Flooring is about the containers that were read, and about no others. */
  lemma FlooredByUsage(targets: Targets, usage: Snapshot, g: Guard)
    ensures var floored := FloorTargets(targets, usage, g);
            && floored.Keys == targets.Keys
            && (forall n <- targets :: n in usage ==> floored[n] == FloorTarget(targets[n], usage[n], g))
            && (forall n <- targets :: n !in usage ==> floored[n] == targets[n])
  {}

  /** A target t is protected exactly when the one the guard keeps is not above it, and
      is above the headroom. */
  lemma ProtectsExactly(g: Guard, r: ResourceName, t: int)
    requires r in {CPU, Memory}
    ensures Protects(g, r, t) <==> Watches(g, r) && TargetOn(g, r) <= t
  {
    if Watches(g, r) && TargetOn(g, r) <= t {
      forall target: ResourceList, u: Usage
        ensures WithinUtilization(UsedOf(u, r), t - g.headroom, Amount(FloorTarget(target, u, g), r))
      {
        FlooredIsWithin(target, u, g, r);
        WiderIsWithin(UsedOf(u, r), Percent(g, r), t - g.headroom, Amount(FloorTarget(target, u, g), r));
      }
    } else {
      var u := UsageOf(if Watches(g, r) then Percent(g, r) else 1);
      FloorOfNothing(u, g, r);
      if Watches(g, r) {
        FloorOfUsage(TargetOn(g, r), g.headroom);
      }
      assert !WithinUtilization(UsedOf(u, r), t - g.headroom, Amount(FloorTarget(map[], u, g), r));
    }
  }

  /** What coordination makes of the container's target keeps its usage at least the
      headroom below t. */
  ghost predicate HoldsAfter(spec: Spec, hpa: Hpa, now: int, name: string, targets: Targets, usage: Snapshot,
                             used: Usage, r: ResourceName, t: int)
  {
    var c := Coordination(spec, Found(hpa), targets, usage, now);
    c.Coordinated? && name in c.targets &&
    WithinUtilization(UsedOf(used, r), t - Headroom(spec), Amount(c.targets[name], r))
  }

  /** Coordination does so for a named container whatever its targets and usage, when
      these containers have been read. */
  ghost predicate ProtectsIn(spec: Spec, hpa: Hpa, now: int, name: string, read: set<string>, r: ResourceName, t: int) {
    forall targets: Targets, usage: Snapshot, used ::
      name in targets && usage.Keys == read && (name in usage ==> usage[name] == used) && UsedOf(used, r) >= 0.0 ==>
        HoldsAfter(spec, hpa, now, name, targets, usage, used, r, t)
  }

  lemma ReadIsProtected(spec: Spec, hpa: Hpa, now: int, name: string, read: set<string>, r: ResourceName, t: int)
    requires r in {CPU, Memory} && GuardedBy(spec, hpa, now, GuardOf(spec, hpa)) && name in read
    ensures ProtectsIn(spec, hpa, now, name, read, r, t) <==> Protects(GuardOf(spec, hpa), r, t)
  {
    var g := GuardOf(spec, hpa);
    if Protects(g, r, t) {
      forall targets: Targets, usage: Snapshot, used |
        name in targets && usage.Keys == read && (name in usage ==> usage[name] == used) && UsedOf(used, r) >= 0.0
        ensures HoldsAfter(spec, hpa, now, name, targets, usage, used, r, t)
      {
        assert FloorTargets(targets, usage, g)[name] == FloorTarget(targets[name], used, g);
      }
    } else {
      var target, u :| UsedOf(u, r) >= 0.0 &&
                       !WithinUtilization(UsedOf(u, r), t - g.headroom, Amount(FloorTarget(target, u, g), r));
      var targets: Targets, usage: Snapshot := map[name := target], map n | n in read :: u;
      assert FloorTargets(targets, usage, g)[name] == FloorTarget(target, u, g);
      assert !HoldsAfter(spec, hpa, now, name, targets, usage, u, r, t);
    }
  }

  lemma UnreadIsUnprotected(spec: Spec, hpa: Hpa, now: int, name: string, read: set<string>, r: ResourceName, t: int)
    requires r in {CPU, Memory} && GuardedBy(spec, hpa, now, GuardOf(spec, hpa)) && name !in read
    ensures !ProtectsIn(spec, hpa, now, name, read, r, t)
  {
    var targets: Targets, usage: Snapshot := map[name := map[]], map n | n in read :: UsageOf(1);
    assert FloorTargets(targets, usage, GuardOf(spec, hpa))[name] == map[];
    assert !HoldsAfter(spec, hpa, now, name, targets, usage, UsageOf(1), r, t);
  }

  /** Every utilization target an HPA lists for a resource is protected for a container if
      and only if the container's usage was read and the last target listed is the least
      and above the headroom. */
  lemma AllProtectedExactly(spec: Spec, hpa: Hpa, now: int, name: string, read: set<string>, r: ResourceName)
    requires r in {CPU, Memory} && GuardedBy(spec, hpa, now, GuardOf(spec, hpa))
    requires exists t :: Listed(hpa.metrics, r, t)
    ensures var last := LastTarget(hpa.metrics, r);
            (forall t :: Listed(hpa.metrics, r, t) ==> ProtectsIn(spec, hpa, now, name, read, r, t)) <==>
            && name in read && last > 0 && last - Headroom(spec) > 0
            && forall t :: Listed(hpa.metrics, r, t) ==> last <= t
  {
    var g := GuardOf(spec, hpa);
    forall t
      ensures ProtectsIn(spec, hpa, now, name, read, r, t) <==> name in read && Watches(g, r) && TargetOn(g, r) <= t
    {
      if name in read {
        ReadIsProtected(spec, hpa, now, name, read, r, t);
        ProtectsExactly(g, r, t);
      } else {
        UnreadIsUnprotected(spec, hpa, now, name, read, r, t);
      }
    }
  }

  function CpuAt(percent: int): Hpa {
    Hpa(1, 1, None, [Metric(ResourceMetric, Some(MetricSource(CPU, true, Some(percent))), None)])
  }

  /** A pod of one container, and a spec with the default headroom of 10. */
  function Asking100(): Container {
    Container("app", map[CPU := 100, Memory := 100], map[])
  }

  function WithDefaults(): Spec {
    Spec(Bounds(0, 1000), Bounds(0, 1000), None, [], None, None, None, InPlaceOnly)
  }

  lemma ShrinksTo80()
    ensures var target: ResourceList := map[CPU := 80, Memory := 100];
            var (pod, a) := (OneContainerPod(Asking100()), Resize(map["app" := target]));
            StepPod(pod, a, DefaultPolicy(WithDefaults())).containers == [Asking100().(requests := target)]
  {
    var target: ResourceList := map[CPU := 80, Memory := 100];
    var c, a, policy := Asking100(), Resize(map["app" := target]), DefaultPolicy(WithDefaults());
    assert !WithinTolerance(100, 80, policy.tolerance);
    assert StepClamp(100, 80, policy) == 80 && StepClamp(100, 100, policy) == 100;
    assert PlanContainer(c, target, policy, false) == Some(Change("app", target, None));
    assert c.requests + target == target;
    StepIsPointwise(OneContainerPod(c), a, policy);
    assert StepPod(OneContainerPod(c), a, policy).containers == [After(c, a, policy, false)];
  }

  /** A gap in the metrics: with no usage read, the stored target of 80 is not floored, and
      a request of 100 goes down to it although 60 in use is 75% of that, with the HPA
      aiming for 75% and a headroom of 10. */
  lemma GapIsNotFloored(now: int)
    ensures var (spec, targets) := (WithDefaults(), map["app" := map[CPU := 80, Memory := 100]]);
            var c := Coordination(spec, Found(CpuAt(75)), targets, map[], now);
            && c == Coordinated(Idle, targets) && Watches(GuardOf(spec, CpuAt(75)), CPU)
            && StepPod(OneContainerPod(Asking100()), Resize(c.targets), DefaultPolicy(spec)).containers ==
               [Asking100().(requests := targets["app"])]
            && WithinUtilization(60.0, 65, 100) && !WithinUtilization(60.0, 65, 80)
  {
    var spec, hpa := WithDefaults(), CpuAt(75);
    var targets: Targets := map["app" := map[CPU := 80, Memory := 100]];
    assert hpa.metrics[..0] == [];
    assert GuardOf(spec, hpa) == Guard(75, LastTarget(hpa.metrics, Memory), 10);
    assert FloorTargets(targets, map[], GuardOf(spec, hpa)) == targets;
    assert !AtMax(spec, "app", targets["app"]);
    ShrinksTo80();
  }

  /** A headroom of 0, which the API allows, is read as the default of 10: the guard then
      keeps utilization 10 below the target. */
  lemma NoHeadroomIsTen(spec: Spec, hpa: Hpa, r: ResourceName)
    requires spec.hpa.Some? && spec.hpa.value.reserveHeadroomPercent == 0 && r in {CPU, Memory}
    ensures Percent(GuardOf(spec, hpa), r) == LastTarget(hpa.metrics, r) - 10
    ensures LastTarget(hpa.metrics, r) == 10 ==> !Watches(GuardOf(spec, hpa), r)
  {}
}
