/** The parts of a DynamicResource spec that the decision code reads, and the lookups
    into it. An Option stands for a field that may be absent. */
module Api {
  import opened Resources
  import opened Planner

  datatype Bounds = Bounds(min: nat, max: nat)

  datatype Override = Override(containerName: string, off: bool, cpu: Option<Bounds>, memory: Option<Bounds>)

  datatype ScalingPolicy = ScalingPolicy(maxStepPercent: int, cooldown: Option<int>)

  datatype Behavior = Behavior(scaleUp: Option<ScalingPolicy>, scaleDown: Option<ScalingPolicy>)

  datatype HpaConfig = HpaConfig(ignore: bool, reserveHeadroomPercent: int, pauseWhileScaling: Option<bool>,
                                 cooldownAfterHpa: Option<int>)

  datatype MetricsConfig = MetricsConfig(cpuPercentile: int, memoryPercentile: int)

  datatype UpdateMode = Off | InPlaceOnly | InPlaceOrRecreate

  datatype Spec = Spec(
    cpu: Bounds,
    memory: Bounds,
    controlledValues: Option<ControlledValues>,
    overrides: seq<Override>,
    metrics: Option<MetricsConfig>,
    behavior: Option<Behavior>,
    hpa: Option<HpaConfig>,
    updateMode: UpdateMode)

  const DEFAULT_UP_COOLDOWN: int := 2 * MINUTE
  const DEFAULT_DOWN_COOLDOWN: int := 10 * MINUTE

  function DefaultPolicy(spec: Spec): Policy {
    var up := if spec.behavior.Some? && spec.behavior.value.scaleUp.Some?
              then spec.behavior.value.scaleUp.value.maxStepPercent else 0;
    var down := if spec.behavior.Some? && spec.behavior.value.scaleDown.Some?
                then spec.behavior.value.scaleDown.value.maxStepPercent else 0;
    Policy(if spec.controlledValues.Some? then spec.controlledValues.value else RequestsAndLimits,
           0.10,
           if up > 0 then up else 50,
           if down > 0 then down else 20)
  }

  function CooldownFor(spec: Spec, d: Direction): int {
    var policy := if spec.behavior.None? then None
                  else if d == Up then spec.behavior.value.scaleUp else spec.behavior.value.scaleDown;
    if policy.Some? && policy.value.cooldown.Some? then policy.value.cooldown.value
    else if d == Up then DEFAULT_UP_COOLDOWN
    else DEFAULT_DOWN_COOLDOWN
  }

  /** The configured percentiles as fractions, 90% and 95% by default. */
  function Percentiles(spec: Spec): (real, real) {
    (if spec.metrics.Some? && spec.metrics.value.cpuPercentile > 0
     then spec.metrics.value.cpuPercentile as real / 100.0 else 0.9,
     if spec.metrics.Some? && spec.metrics.value.memoryPercentile > 0
     then spec.metrics.value.memoryPercentile as real / 100.0 else 0.95)
  }

  /** The first override for a container. */
  function FindOverride(overrides: seq<Override>, name: string): Option<Override> {
    if overrides == [] then None
    else if overrides[0].containerName == name then Some(overrides[0])
    else FindOverride(overrides[1..], name)
  }

  ghost predicate FirstOf(overrides: seq<Override>, name: string, i: nat) {
    i < |overrides| && overrides[i].containerName == name
    && forall j :: 0 <= j < i ==> overrides[j].containerName != name
  }

  /** The first override of a name decides; without one there is nothing to decide. */
  lemma {:induction false} FirstOverrideDecides(overrides: seq<Override>, name: string)
    ensures var o := FindOverride(overrides, name);
            && (o.Some? ==> exists i: nat :: FirstOf(overrides, name, i) && overrides[i] == o.value)
            && (o.None? ==> forall i :: 0 <= i < |overrides| ==> overrides[i].containerName != name)
    ensures forall i: nat :: FirstOf(overrides, name, i) ==> FindOverride(overrides, name) == Some(overrides[i])
  {
    if overrides != [] && overrides[0].containerName != name {
      var rest := overrides[1..];
      FirstOverrideDecides(rest, name);
      forall i: nat | FirstOf(overrides, name, i) ensures FindOverride(overrides, name) == Some(overrides[i]) {
        assert i > 0 && FirstOf(rest, name, i - 1);
      }
      if FindOverride(rest, name).Some? {
        var i: nat :| FirstOf(rest, name, i) && rest[i] == FindOverride(rest, name).value;
        assert FirstOf(overrides, name, i + 1);
      } else {
        forall i | 0 <= i < |overrides| ensures overrides[i].containerName != name {
          assert i > 0 ==> rest[i - 1] == overrides[i];
        }
      }
    } else if overrides != [] {
      assert FirstOf(overrides, name, 0);
    }
  }

  function CpuBounds(spec: Spec, name: string): Bounds {
    var o := FindOverride(spec.overrides, name);
    if o.Some? && o.value.cpu.Some? then o.value.cpu.value else spec.cpu
  }

  function MemoryBounds(spec: Spec, name: string): Bounds {
    var o := FindOverride(spec.overrides, name);
    if o.Some? && o.value.memory.Some? then o.value.memory.value else spec.memory
  }

  /** The memory caps for an OOM bump: every named container gets one. */
  method MaxMemoryBounds(spec: Spec, containers: seq<string>) returns (caps: map<string, nat>)
    ensures caps == MemoryCaps(spec, containers)
  {
    caps := map[];
    for i := 0 to |containers|
      invariant caps == MemoryCaps(spec, containers[..i])
    {
      caps := caps[containers[i] := MemoryBounds(spec, containers[i]).max];
    }
    assert containers[..|containers|] == containers;
  }

  function MemoryCaps(spec: Spec, containers: seq<string>): map<string, nat> {
    map n | n in containers :: MemoryBounds(spec, n).max
  }

  predicate Ordered(b: Bounds) {
    b.min <= b.max
  }

  predicate OrderedIfSet(b: Option<Bounds>) {
    b.Some? ==> Ordered(b.value)
  }

  /** min <= max on every pair of bounds. */
  predicate Validated(spec: Spec) {
    && Ordered(spec.cpu) && Ordered(spec.memory)
    && forall o <- spec.overrides :: OrderedIfSet(o.cpu) && OrderedIfSet(o.memory)
  }

  /** A pair of bounds under the name that an error gives it. */
  datatype Pair = Pair(name: string, bounds: Option<Bounds>)

  function OverridePairs(overrides: seq<Override>): (r: seq<Pair>)
    ensures |r| == 2 * |overrides|
    ensures forall i :: 0 <= i < |overrides| ==>
              && r[2 * i] == Pair("containerOverrides[" + overrides[i].containerName + "].cpu", overrides[i].cpu)
              && r[2 * i + 1] == Pair("containerOverrides[" + overrides[i].containerName + "].memory",
                                      overrides[i].memory)
  {
    if overrides == [] then []
    else
      var n := |overrides| - 1;
      var prefix := "containerOverrides[" + overrides[n].containerName + "]";
      OverridePairs(overrides[..n]) + [Pair(prefix + ".cpu", overrides[n].cpu),
                                       Pair(prefix + ".memory", overrides[n].memory)]
  }

  /** All pairs of bounds in the order they are checked. */
  function Pairs(spec: Spec): seq<Pair> {
    [Pair("resources.cpu", Some(spec.cpu)), Pair("resources.memory", Some(spec.memory))] + OverridePairs(spec.overrides)
  }

  ghost predicate FirstBad(pairs: seq<Pair>, name: string) {
    exists i :: 0 <= i < |pairs| && pairs[i].name == name && !OrderedIfSet(pairs[i].bounds)
                && forall j :: 0 <= j < i ==> OrderedIfSet(pairs[j].bounds)
  }

  /** The check that runs before anything else; an error names the first bad pair. */
  method ValidateBounds(spec: Spec) returns (err: Option<string>)
    ensures err.None? <==> Validated(spec)
    ensures err.Some? ==> FirstBad(Pairs(spec), err.value)
  {
    ghost var pairs := Pairs(spec);
    if spec.cpu.min > spec.cpu.max {
      assert pairs[0].name == "resources.cpu";
      return Some("resources.cpu");
    }
    if spec.memory.min > spec.memory.max {
      assert pairs[1].name == "resources.memory";
      return Some("resources.memory");
    }
    for i := 0 to |spec.overrides|
      invariant forall j :: 0 <= j < 2 * i + 2 ==> OrderedIfSet(pairs[j].bounds)
      invariant forall j :: 0 <= j < i ==> OrderedIfSet(spec.overrides[j].cpu) && OrderedIfSet(spec.overrides[j].memory)
    {
      var o := spec.overrides[i];
      var prefix := "containerOverrides[" + o.containerName + "]";
      assert pairs[2 * i + 2] == Pair(prefix + ".cpu", o.cpu) && pairs[2 * i + 3] == Pair(prefix + ".memory", o.memory);
      if o.cpu.Some? && o.cpu.value.min > o.cpu.value.max {
        return Some(prefix + ".cpu");
      }
      if o.memory.Some? && o.memory.value.min > o.memory.value.max {
        return Some(prefix + ".memory");
      }
    }
    return None;
  }

  lemma {:induction false} OverrideFound(overrides: seq<Override>, name: string)
    ensures var o := FindOverride(overrides, name); o.Some? ==> o.value in overrides
  {
    if overrides != [] && overrides[0].containerName != name {
      OverrideFound(overrides[1..], name);
    }
  }

  /** In a validated spec the bounds of every container are ordered, overridden or not. */
  lemma BoundsOrdered(spec: Spec, name: string)
    requires Validated(spec)
    ensures Ordered(CpuBounds(spec, name)) && Ordered(MemoryBounds(spec, name))
  {
    OverrideFound(spec.overrides, name);
  }

  /** The bounds in force for a container: those of the first override of its name that
      it sets, each resource on its own, and those of the spec otherwise. */
  lemma BoundsInForce(spec: Spec, name: string, i: nat)
    requires FirstOf(spec.overrides, name, i)
    ensures var o := spec.overrides[i];
            && CpuBounds(spec, name) == (if o.cpu.Some? then o.cpu.value else spec.cpu)
            && MemoryBounds(spec, name) == (if o.memory.Some? then o.memory.value else spec.memory)
  {
    FirstOverrideDecides(spec.overrides, name);
  }

  lemma BoundsByDefault(spec: Spec, name: string)
    requires forall o <- spec.overrides :: o.containerName != name
    ensures CpuBounds(spec, name) == spec.cpu && MemoryBounds(spec, name) == spec.memory
  {
    FirstOverrideDecides(spec.overrides, name);
  }

  /** What is configured for scaling up decides the step and the cooldown upward and
      nothing else, and likewise downward; what is not set has the documented defaults:
      50% and 2 minutes up, 20% and 10 minutes down, both kinds of values, a tenth. */
  lemma BehaviorInForce(spec: Spec, up: Option<ScalingPolicy>, down: Option<ScalingPolicy>)
    requires spec.behavior == Some(Behavior(up, down)) || (spec.behavior.None? && up.None? && down.None?)
    ensures var p := DefaultPolicy(spec);
            && (up.Some? && up.value.maxStepPercent > 0 ==> p.stepUp == up.value.maxStepPercent)
            && (up.None? || up.value.maxStepPercent <= 0 ==> p.stepUp == 50)
            && (down.Some? && down.value.maxStepPercent > 0 ==> p.stepDown == down.value.maxStepPercent)
            && (down.None? || down.value.maxStepPercent <= 0 ==> p.stepDown == 20)
            && p.tolerance == 0.1
            && p.controlled == (if spec.controlledValues.Some? then spec.controlledValues.value else RequestsAndLimits)
    ensures up.Some? && up.value.cooldown.Some? ==> CooldownFor(spec, Up) == up.value.cooldown.value
    ensures up.None? || up.value.cooldown.None? ==> CooldownFor(spec, Up) == 120_000_000_000
    ensures down.Some? && down.value.cooldown.Some? ==> CooldownFor(spec, Down) == down.value.cooldown.value
    ensures down.None? || down.value.cooldown.None? ==> CooldownFor(spec, Down) == 600_000_000_000
  {}

  /** The configured percentile of each resource, in hundredths; 90 for CPU and 95 for
      memory where none is set. */
  lemma PercentilesInForce(spec: Spec)
    ensures var (cp, mp) := Percentiles(spec);
            && cp * 100.0 == (if spec.metrics.Some? && spec.metrics.value.cpuPercentile > 0
                              then spec.metrics.value.cpuPercentile as real else 90.0)
            && mp * 100.0 == (if spec.metrics.Some? && spec.metrics.value.memoryPercentile > 0
                              then spec.metrics.value.memoryPercentile as real else 95.0)
  {}
}
