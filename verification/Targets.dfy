/** From percentile readouts to targets: margin, rounding, the memory floor, bounds. */
module TargetPipeline {
  import opened Resources
  import opened Planner
  import opened PodRuns
  import opened QosRuns
  import opened Exponentials
  import opened Api
  import opened Histogram
  import opened Recommending
  import opened Interleavings

  const SAFETY_MARGIN: real := 1.10
  const CPU_ROUNDING_MILLI: nat := 10
  const MEM_ROUNDING_BYTES: nat := 1024 * 1024
  const MIN_MEMORY_BYTES: nat := 32 * 1024 * 1024

  function Ceil(x: real): int {
    -((-x).Floor)
  }

  /** The least multiple of the step at or above x. */
  function RoundUp(x: real, step: nat): int
    requires step > 0
  {
    Ceil(x / step as real) * step
  }

  function Clamp(q: int, b: Bounds): nat {
    if q < b.min then b.min else if q > b.max then b.max else q
  }

  function CpuTarget(raw: real, b: Bounds): nat {
    Clamp(RoundUp(raw * SAFETY_MARGIN, CPU_ROUNDING_MILLI), b)
  }

  function MemTarget(raw: real, b: Bounds): nat {
    var x := raw * SAFETY_MARGIN;
    Clamp(RoundUp(if x > MIN_MEMORY_BYTES as real then x else MIN_MEMORY_BYTES as real, MEM_ROUNDING_BYTES), b)
  }

  function TargetFor(spec: Spec, name: string, rec: Recommendation): ResourceList {
    map[CPU := CpuTarget(rec.cpuMilli, CpuBounds(spec, name)),
        Memory := MemTarget(rec.memBytes, MemoryBounds(spec, name))]
  }

  predicate SwitchedOff(spec: Spec, name: string) {
    var o := FindOverride(spec.overrides, name);
    o.Some? && o.value.off
  }

  /** The target of one container: none when it is switched off or has no readings. */
  function TargetOf(spec: Spec, shs: Shapes, m: Model, key: ContainerKey): Option<ResourceList>
    requires shs.Ok() && AllSized(shs, m)
  {
    if SwitchedOff(spec, key.container) then None
    else
      var (cp, mp) := Percentiles(spec);
      match Recommend(shs, m, key, cp, mp)
      case None => None
      case Some(rec) => Some(TargetFor(spec, key.container, rec))
  }

  // ---------- What a target is ----------

  lemma RoundUpBounds(x: real, step: nat)
    requires step > 0
    ensures x <= RoundUp(x, step) as real < x + step as real
  {
    var s := step as real;
    var c := Ceil(x / s);
    QuotientTimes(x, s);
    ScaledBetween(x / s, c as real, s);
    WholeTimes(c, step);
  }

  lemma QuotientTimes(x: real, s: real)
    requires s > 0.0
    ensures Times(x / s, s) == x
  {}

  lemma WholeTimes(c: int, step: nat)
    ensures (c * step) as real == Times(c as real, step as real)
  {}

  lemma ScaledAtMost(q: real, c: real, s: real)
    requires s > 0.0 && q <= c
    ensures Times(q, s) <= Times(c, s)
  {
    assert (c - q) * s >= 0.0;
  }

  lemma ScaledBelow(q: real, c: real, s: real)
    requires s > 0.0 && q < c
    ensures Times(q, s) < Times(c, s)
  {
    assert (c - q) * s > 0.0;
  }

  lemma OneMoreScaled(q: real, s: real)
    ensures Times(q + 1.0, s) == Times(q, s) + s
  {}

  lemma ScaledBetween(q: real, c: real, s: real)
    requires s > 0.0 && q <= c < q + 1.0
    ensures Times(q, s) <= Times(c, s) < Times(q, s) + s
  {
    ScaledAtMost(q, c, s);
    ScaledBelow(c, q + 1.0, s);
    OneMoreScaled(q, s);
  }

  lemma RoundUpMonotone(x: real, y: real, step: nat)
    requires step > 0 && x <= y
    ensures RoundUp(x, step) <= RoundUp(y, step)
  {
    var s := step as real;
    QuotientMonotone(x, y, s);
    assert Ceil(x / s) <= Ceil(y / s);
  }

  lemma QuotientMonotone(x: real, y: real, s: real)
    requires s > 0.0 && x <= y
    ensures x / s <= y / s
  {
    var a, b := x / s, y / s;
    assert a * s == x && b * s == y;
    var d := b - a;
    assert d * s == y - x;
  }

  lemma ClampedBounds(x: real, step: nat, b: Bounds)
    requires step > 0 && Ordered(b)
    ensures var t := Clamp(RoundUp(x, step), b);
            && b.min <= t <= b.max
            && (t < b.max ==> t as real >= x)
            && (t > b.min ==> (t as real) < x + step as real)
            && (b.min < t < b.max ==> t == RoundUp(x, step))
  {
    RoundUpBounds(x, step);
  }

  /** Every fresh target of a validated spec is within its bounds. Below the maximum it
      leaves the 10% margin, and memory is at least 32Mi; above the minimum it exceeds
      that by less than one rounding step, of 10 millicores or 1Mi; and strictly between
      the bounds it is a whole number of steps. */
  lemma TargetWithinBounds(spec: Spec, name: string, rec: Recommendation)
    requires Validated(spec)
    ensures TargetFor(spec, name, rec).Keys == {CPU, Memory}
    ensures var (t, b, wanted) := (TargetFor(spec, name, rec)[CPU], CpuBounds(spec, name), rec.cpuMilli * 1.1);
            && b.min <= t <= b.max
            && (t < b.max ==> t as real >= wanted)
            && (t > b.min ==> (t as real) < wanted + 10.0)
            && (b.min < t < b.max ==> t % 10 == 0)
    ensures var (t, b) := (TargetFor(spec, name, rec)[Memory], MemoryBounds(spec, name));
            var wanted := if rec.memBytes * 1.1 > 33_554_432.0 then rec.memBytes * 1.1 else 33_554_432.0;
            && b.min <= t <= b.max
            && (t < b.max ==> t as real >= wanted)
            && (t > b.min ==> (t as real) < wanted + 1_048_576.0)
            && (b.min < t < b.max ==> t % 1_048_576 == 0)
  {
    BoundsOrdered(spec, name);
    var x := rec.memBytes * SAFETY_MARGIN;
    var y := if x > MIN_MEMORY_BYTES as real then x else MIN_MEMORY_BYTES as real;
    ClampedBounds(rec.cpuMilli * SAFETY_MARGIN, CPU_ROUNDING_MILLI, CpuBounds(spec, name));
    ClampedBounds(y, MEM_ROUNDING_BYTES, MemoryBounds(spec, name));
  }

  /** A container is switched off exactly by the first override of its name. */
  lemma SwitchedOffExactly(spec: Spec, name: string)
    ensures SwitchedOff(spec, name) <==>
            exists i: nat :: FirstOf(spec.overrides, name, i) && spec.overrides[i].off
  {
    FirstOverrideDecides(spec.overrides, name);
  }

  /** A container has a target exactly when no override switches it off and a reading of it
      was accepted; the target is then made of the two configured percentiles of its
      accepted readings. */
  lemma TargetExactly(spec: Spec, shs: Shapes, trace: seq<Event>, key: ContainerKey)
    requires shs.Ok()
    ensures var (t, es) := (TargetOf(spec, shs, Feed(shs, trace), key), Accepted(trace, key));
            var (cp, mp) := Percentiles(spec);
            && (t.Some? <==> !SwitchedOff(spec, key.container) && es != [])
            && (t.Some? ==> t.value == TargetFor(spec, key.container,
                 Recommendation(Percentile(shs.cpu, HistOf(shs.cpu, CpuSamples(es)), cp),
                                Percentile(shs.mem, HistOf(shs.mem, MemSamples(es)), mp))))
  {
    var (cp, mp) := Percentiles(spec);
    RecommendReadsAccepted(shs, trace, key, cp, mp);
  }

  /** Margin, rounding and bounds preserve order, in each resource on its own. */
  lemma TargetMonotone(spec: Spec, name: string, r: Recommendation, s: Recommendation)
    requires Validated(spec)
    ensures r.cpuMilli <= s.cpuMilli ==> TargetFor(spec, name, r)[CPU] <= TargetFor(spec, name, s)[CPU]
    ensures r.memBytes <= s.memBytes ==> TargetFor(spec, name, r)[Memory] <= TargetFor(spec, name, s)[Memory]
  {
    BoundsOrdered(spec, name);
    if r.cpuMilli <= s.cpuMilli {
      RoundUpMonotone(r.cpuMilli * SAFETY_MARGIN, s.cpuMilli * SAFETY_MARGIN, CPU_ROUNDING_MILLI);
    }
    if r.memBytes <= s.memBytes {
      var x, y := r.memBytes * SAFETY_MARGIN, s.memBytes * SAFETY_MARGIN;
      RoundUpMonotone(if x > MIN_MEMORY_BYTES as real then x else MIN_MEMORY_BYTES as real,
                      if y > MIN_MEMORY_BYTES as real then y else MIN_MEMORY_BYTES as real, MEM_ROUNDING_BYTES);
    }
  }

  /** The whole pipeline is monotone in each resource: readings no larger at the same
      moments give targets no larger, and the same containers get one. */
  lemma PipelineMonotone(spec: Spec, shs: Shapes, tr: seq<Event>, us: seq<Event>, key: ContainerKey)
    requires shs.Ok() && Validated(spec) && SameMoments(tr, us)
    ensures var t, u := TargetOf(spec, shs, Feed(shs, tr), key), TargetOf(spec, shs, Feed(shs, us), key);
            && (t.Some? <==> u.Some?)
            && (t.Some? && CpuBelow(tr, us) ==> t.value[CPU] <= u.value[CPU])
            && (t.Some? && MemBelow(tr, us) ==> t.value[Memory] <= u.value[Memory])
  {
    var (cp, mp) := Percentiles(spec);
    RecommendMonotone(shs, tr, us, key, cp, mp);
    var r, s := Recommend(shs, Feed(shs, tr), key, cp, mp), Recommend(shs, Feed(shs, us), key, cp, mp);
    if r.Some? {
      TargetMonotone(spec, key.container, r.value, s.value);
    }
  }

  /** Targets do not depend on how per-pod streams were interleaved or repeated. */
  lemma PipelineIgnoresInterleaving(spec: Spec, shs: Shapes, tr: seq<Event>, us: seq<Event>, key: ContainerKey)
    requires shs.Ok() && AnchoredFor(tr, key) && AnchoredFor(us, key) && SameStreams(tr, us)
    ensures TargetOf(spec, shs, Feed(shs, tr), key) == TargetOf(spec, shs, Feed(shs, us), key)
  {
    var (cp, mp) := Percentiles(spec);
    RecommendIgnoresInterleaving(shs, tr, us, key, cp, mp);
  }

  // ---------- Bounds over runs ----------

  predicate InBounds(list: ResourceList, spec: Spec, name: string) {
    && CpuBounds(spec, name).min <= Amount(list, CPU) <= CpuBounds(spec, name).max
    && MemoryBounds(spec, name).min <= Amount(list, Memory) <= MemoryBounds(spec, name).max
  }

  /** An action whose targets are within bounds, or a bump capped at the maxima. */
  ghost predicate BoundedAction(a: Action, spec: Spec) {
    match a
    case Resize(targets) => forall n <- targets :: InBounds(targets[n], spec, n)
    case Bump(oom, caps) => forall n <- oom :: n in caps && caps[n] == MemoryBounds(spec, n).max
  }

  lemma StepKeepsBounds(c: Container, a: Action, spec: Spec, policy: Policy, g: bool)
    requires Fits(c) && BoundedAction(a, spec) && InBounds(c.requests, spec, c.name)
    ensures InBounds(After(c, a, policy, g).requests, spec, c.name)
  {
    match a
    case Resize(targets) =>
      if c.name in targets {
        ResizeMovesTowardsTarget(c, targets, policy, g);
      }
    case Bump(oom, caps) =>
      BumpRaisesMemory(c, oom, caps, policy, g);
  }

  /** Requests that start within bounds stay within them over every run of resizes to
      bounded targets and OOM bumps. */
  lemma {:induction false} RunKeepsBounds(pod: Pod, rounds: seq<Round>, spec: Spec, i: nat)
    requires Sound(pod) && PodFits(pod) && i < |pod.containers|
    requires forall r <- rounds :: BoundedAction(r.action, spec)
    requires InBounds(pod.containers[i].requests, spec, pod.containers[i].name)
    ensures var after := Run(pod, rounds);
            && |after.containers| == |pod.containers|
            && after.containers[i].name == pod.containers[i].name
            && InBounds(after.containers[i].requests, spec, after.containers[i].name)
  {
    if rounds != [] {
      var front, last := rounds[..|rounds| - 1], rounds[|rounds| - 1];
      var before := Run(pod, front);
      RunKeepsBounds(pod, front, spec, i);
      RunKeepsShape(pod, front);
      StepIsPointwise(before, last.action, last.policy);
      StepKeepsBounds(before.containers[i], last.action, spec, last.policy, QosClass(before) == Guaranteed);
    }
  }
}
