/** The resize planner: tolerance band, step caps, limit scaling and the OOM bump. */
module Planner {
  import opened Resources

  datatype ControlledValues = RequestsAndLimits | RequestsOnly

  datatype Direction = Up | Down

  datatype Policy = Policy(controlled: ControlledValues, tolerance: real, stepUp: nat, stepDown: nat)

  /** New resources for one container; `limits == None` leaves the limits alone. */
  datatype Change = Change(name: string, requests: ResourceList, limits: Option<ResourceList>)

  datatype PodPlan = PodPlan(pod: string, changes: seq<Change>, direction: Direction)

  type Targets = map<string, ResourceList>

  predicate WithinTolerance(current: nat, desired: nat, tolerance: real) {
    if current == 0 then desired == 0
    else
      var diff := (desired - current) as real / current as real;
      (if diff < 0.0 then -diff else diff) <= tolerance
  }

  /** One step from `current` towards `desired`, at most the step cap away. */
  function StepClamp(current: nat, desired: nat, policy: Policy): nat {
    if desired > current then
      var maxUp := current + current * policy.stepUp / 100;
      if desired > maxUp then maxUp else desired
    else
      var minDown := current - current * policy.stepDown / 100;
      if desired < minDown then minDown else desired
  }

  /** A limit scaled by the old limit/request ratio, truncated as int64 truncates. */
  function ScaleLimit(newRequest: nat, limit: nat, request: nat): nat
    requires request > 0
  {
    newRequest * limit / request
  }

  function Max(a: nat, b: nat): nat {
    if a < b then b else a
  }

  function CapAt(value: nat, limits: ResourceList, r: ResourceName): nat {
    if r in limits && value > limits[r] then limits[r] else value
  }

  /** The requests after capping, and the new limits. */
  datatype Planned = Planned(cpu: nat, mem: nat, limits: Option<ResourceList>)

  predicate HasRequests(c: Container) {
    Amount(c.requests, CPU) > 0 && Amount(c.requests, Memory) > 0
  }

  function PlanLimits(c: Container, cpu: nat, mem: nat, policy: Policy, guaranteed: bool): Planned
    requires HasRequests(c)
  {
    if policy.controlled == RequestsOnly && !guaranteed then
      Planned(CapAt(cpu, c.limits, CPU), CapAt(mem, c.limits, Memory), None)
    else if guaranteed then
      Planned(cpu, mem, Some(map[CPU := cpu, Memory := mem]))
    else if CPU !in c.limits && Memory !in c.limits then
      Planned(cpu, mem, None)
    else
      Planned(cpu, mem, Some(ScaledLimits(c, cpu, mem)))
  }

  function ScaledLimits(c: Container, cpu: nat, mem: nat): ResourceList
    requires HasRequests(c)
  {
    (if CPU in c.limits
     then map[CPU := ScaleLimit(cpu, c.limits[CPU], Amount(c.requests, CPU))] else map[]) +
    (if Memory in c.limits
     then map[Memory := Max(ScaleLimit(mem, c.limits[Memory], Amount(c.requests, Memory)), c.limits[Memory])]
     else map[])
  }

  function ChangeTo(c: Container, s: Planned): Change {
    Change(c.name, map[CPU := s.cpu, Memory := s.mem], s.limits)
  }

  /** The requests the planner aims for this pass, before the limits are looked at. */
  function SteppedMemory(c: Container, want: nat, policy: Policy, guaranteed: bool): nat {
    var cur := Amount(c.requests, Memory);
    var mem := StepClamp(cur, want, policy);
    if guaranteed && mem < cur then cur else mem
  }

  function PlanContainer(c: Container, target: ResourceList, policy: Policy, guaranteed: bool): Option<Change> {
    var curCpu, curMem := Amount(c.requests, CPU), Amount(c.requests, Memory);
    var wantCpu, wantMem := Amount(target, CPU), Amount(target, Memory);
    if curCpu == 0 || curMem == 0 || wantCpu == 0 || wantMem == 0 then None
    else if WithinTolerance(curCpu, wantCpu, policy.tolerance) &&
            WithinTolerance(curMem, wantMem, policy.tolerance) then None
    else
      var sized := PlanLimits(c, StepClamp(curCpu, wantCpu, policy),
                              SteppedMemory(c, wantMem, policy, guaranteed), policy, guaranteed);
      if sized.cpu == curCpu && sized.mem == curMem then None else Some(ChangeTo(c, sized))
  }

  /** The OOM bump of one container: memory times 1.5, capped; CPU as it is. */
  function BumpContainer(c: Container, caps: map<string, nat>, policy: Policy, guaranteed: bool): Option<Change> {
    if !HasRequests(c) then None
    else
      var curMem := Amount(c.requests, Memory);
      var bumped := curMem * 3 / 2;
      var newMem := if c.name in caps && bumped > caps[c.name] then caps[c.name] else bumped;
      if newMem <= curMem then None
      else Some(ChangeTo(c, PlanLimits(c, Amount(c.requests, CPU), newMem, policy, guaranteed)))
  }

  /** The two ways a pod's resources are re-planned. */
  datatype Action =
    | Resize(targets: Targets)
    | Bump(oom: set<string>, caps: map<string, nat>)

  function PlanOne(c: Container, a: Action, policy: Policy, guaranteed: bool): (r: Option<Change>)
    ensures r.Some? ==> r.value.name == c.name && HasRequests(c)
  {
    match a
    case Resize(targets) =>
      if c.name in targets then PlanContainer(c, targets[c.name], policy, guaranteed) else None
    case Bump(oom, caps) =>
      if c.name in oom then BumpContainer(c, caps, policy, guaranteed) else None
  }

  /** A change that raises one of the two requests. */
  predicate Raises(c: Container, ch: Change) {
    Amount(ch.requests, CPU) > Amount(c.requests, CPU) || Amount(ch.requests, Memory) > Amount(c.requests, Memory)
  }

  function Changes(cs: seq<Container>, a: Action, policy: Policy, guaranteed: bool): seq<Change> {
    if cs == [] then []
    else
      var front := Changes(cs[..|cs| - 1], a, policy, guaranteed);
      match PlanOne(cs[|cs| - 1], a, policy, guaranteed)
      case Some(ch) => front + [ch]
      case None => front
  }

  predicate AnyRaise(cs: seq<Container>, a: Action, policy: Policy, guaranteed: bool) {
    exists c <- cs :: var r := PlanOne(c, a, policy, guaranteed); r.Some? && Raises(c, r.value)
  }

  /** The plan for one pod; `None` when nothing should change. */
  function PlanFor(pod: Pod, a: Action, policy: Policy): Option<PodPlan> {
    if a.Resize? && QosClass(pod) == BestEffort then None
    else
      var guaranteed := QosClass(pod) == Guaranteed;
      var changes := Changes(pod.containers, a, policy, guaranteed);
      if changes == [] then None
      else
        var up := a.Bump? || AnyRaise(pod.containers, a, policy, guaranteed);
        Some(PodPlan(pod.name, changes, if up then Up else Down))
  }

  method PlanPod(pod: Pod, targets: Targets, policy: Policy) returns (plan: Option<PodPlan>)
    ensures plan == PlanFor(pod, Resize(targets), policy)
    ensures QosClass(pod) == BestEffort ==> plan == None
    ensures plan.Some? ==> plan.value.pod == pod.name
  {
    var qos := ClassifyQos(pod);
    if qos == BestEffort {
      return None;
    }
    var guaranteed := qos == Guaranteed;
    ghost var a := Resize(targets);
    var cs := pod.containers;
    var changes: seq<Change> := [];
    var direction := Down;
    for i := 0 to |cs|
      invariant changes == Changes(cs[..i], a, policy, guaranteed)
      invariant direction == if AnyRaise(cs[..i], a, policy, guaranteed) then Up else Down
    {
      var c := cs[i];
      assert cs[..i + 1][..i] == cs[..i];
      assert forall d :: d in cs[..i + 1] <==> d in cs[..i] || d == c;
      if c.name !in targets {
        continue;
      }
      var change := PlanContainer(c, targets[c.name], policy, guaranteed);
      if change.None? {
        continue;
      }
      changes := changes + [change.value];
      if Raises(c, change.value) {
        direction := Up;
      }
    }
    assert cs[..|cs|] == cs;
    if changes == [] {
      return None;
    }
    return Some(PodPlan(pod.name, changes, direction));
  }

  method PlanOOMBump(pod: Pod, oomContainers: seq<string>, caps: map<string, nat>, policy: Policy)
    returns (plan: Option<PodPlan>)
    ensures plan == PlanFor(pod, Bump((set n | n in oomContainers), caps), policy)
    ensures plan.Some? ==> plan.value.pod == pod.name && plan.value.direction == Up
  {
    var oom: set<string> := {};
    for i := 0 to |oomContainers|
      invariant oom == set n | n in oomContainers[..i]
    {
      oom := oom + {oomContainers[i]};
    }
    assert oomContainers[..|oomContainers|] == oomContainers;
    var qos := ClassifyQos(pod);
    var guaranteed := qos == Guaranteed;
    var cs := pod.containers;
    var changes: seq<Change> := [];
    for i := 0 to |cs|
      invariant changes == Changes(cs[..i], Bump(oom, caps), policy, guaranteed)
    {
      var c := cs[i];
      assert cs[..i + 1][..i] == cs[..i];
      if c.name !in oom || !HasRequests(c) {
        continue;
      }
      var curMem := Amount(c.requests, Memory);
      var newMem := curMem * 3 / 2;
      if c.name in caps && newMem > caps[c.name] {
        newMem := caps[c.name];
      }
      if newMem <= curMem {
        continue;
      }
      var sized := PlanLimits(c, Amount(c.requests, CPU), newMem, policy, guaranteed);
      changes := changes + [ChangeTo(c, sized)];
    }
    assert cs[..|cs|] == cs;
    if changes == [] {
      return None;
    }
    return Some(PodPlan(pod.name, changes, Up));
  }
}
