/** Exactly when nothing is planned for a container. */
module Settling {
  import opened Resources
  import opened Planner
  import opened PodRuns
  import opened Exponentials

  /** The band: the distance is at most that fraction of the current quantity. */
  lemma WithinToleranceExactly(current: nat, desired: nat, tolerance: real)
    ensures WithinTolerance(current, desired, tolerance) <==>
            if current == 0 then desired == 0
            else && (desired - current) as real <= tolerance * current as real
                 && (current - desired) as real <= tolerance * current as real
  {
    if current > 0 {
      FractionExactly((desired - current) as real, current as real, tolerance);
      FractionExactly((current - desired) as real, current as real, tolerance);
      OppositeFractions(current, desired);
    }
  }

  lemma OppositeFractions(current: nat, desired: nat)
    requires current > 0
    ensures (current - desired) as real / current as real == -((desired - current) as real / current as real)
  {}

  /** A request that a pass cannot move: it is at its target, the step rounds to
      zero, an untouched limit is in the way, or memory is pinned. */
  predicate Stuck(c: Container, r: ResourceName, want: nat, policy: Policy, g: bool) {
    var cur := Amount(c.requests, r);
    || want == cur
    || (want > cur && cur * policy.stepUp / 100 == 0)
    || (want < cur && cur * policy.stepDown / 100 == 0)
    || (want > cur && policy.controlled == RequestsOnly && !g && r in c.limits && c.limits[r] == cur)
    || (want < cur && r == Memory && g)
  }

  predicate Settled(c: Container, target: ResourceList, policy: Policy, g: bool) {
    || !HasRequests(c) || Amount(target, CPU) == 0 || Amount(target, Memory) == 0
    || (&& WithinTolerance(Amount(c.requests, CPU), Amount(target, CPU), policy.tolerance)
        && WithinTolerance(Amount(c.requests, Memory), Amount(target, Memory), policy.tolerance))
    || (Stuck(c, CPU, Amount(target, CPU), policy, g) && Stuck(c, Memory, Amount(target, Memory), policy, g))
  }

  lemma StepClampStands(current: nat, desired: nat, policy: Policy)
    ensures StepClamp(current, desired, policy) == current <==>
            || desired == current
            || (desired > current && current * policy.stepUp / 100 == 0)
            || (desired < current && current * policy.stepDown / 100 == 0)
  {}

  /** No change is planned for a container exactly when it is settled. */
  lemma SettledExactly(c: Container, target: ResourceList, policy: Policy, g: bool)
    requires Fits(c)
    ensures PlanContainer(c, target, policy, g) == None <==> Settled(c, target, policy, g)
  {
    StepClampStands(Amount(c.requests, CPU), Amount(target, CPU), policy);
    StepClampStands(Amount(c.requests, Memory), Amount(target, Memory), policy);
    StepClampBetween(Amount(c.requests, CPU), Amount(target, CPU), policy);
    StepClampBetween(Amount(c.requests, Memory), Amount(target, Memory), policy);
  }

  /** Raising memory by half, up to the cap, leaves it where it is. */
  predicate AtCap(c: Container, oom: set<string>, caps: map<string, nat>) {
    var cur := Amount(c.requests, Memory);
    || c.name !in oom || !HasRequests(c)
    || cur * 3 / 2 <= cur || (c.name in caps && caps[c.name] <= cur)
  }

  /** The action leaves the container alone. */
  predicate Unmoved(c: Container, a: Action, policy: Policy, g: bool) {
    match a
    case Resize(targets) => c.name !in targets || Settled(c, targets[c.name], policy, g)
    case Bump(oom, caps) => AtCap(c, oom, caps)
  }

  /** No change is planned for a container exactly when the action leaves it alone. */
  lemma UnmovedExactly(c: Container, a: Action, policy: Policy, g: bool)
    requires Fits(c)
    ensures PlanOne(c, a, policy, g) == None <==> Unmoved(c, a, policy, g)
  {
    if a.Resize? && c.name in a.targets {
      SettledExactly(c, a.targets[c.name], policy, g);
    }
  }
}
