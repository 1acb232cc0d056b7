/** Termination and speed of the resize loop for fixed targets. */
module Convergence {
  import opened Resources
  import opened Planner
  import opened PodRuns
  import opened QosRuns
  import opened Settling
  import opened Exponentials

  // ---------- Every plan brings the pod closer to its targets ----------

  function Dist(a: nat, b: nat): nat {
    if a < b then b - a else a - b
  }

  /** How far a container is from its target, over both resources. */
  function Gap(c: Container, targets: Targets): nat {
    if c.name in targets
    then Dist(Amount(c.requests, CPU), Amount(targets[c.name], CPU)) +
         Dist(Amount(c.requests, Memory), Amount(targets[c.name], Memory))
    else 0
  }

  function Distance(cs: seq<Container>, targets: Targets): nat {
    if cs == [] then 0 else Distance(cs[..|cs| - 1], targets) + Gap(cs[|cs| - 1], targets)
  }

  lemma StepShrinksGap(c: Container, targets: Targets, policy: Policy, g: bool)
    requires Fits(c)
    ensures Gap(After(c, Resize(targets), policy, g), targets) <= Gap(c, targets)
    ensures PlanOne(c, Resize(targets), policy, g).Some? ==>
              Gap(After(c, Resize(targets), policy, g), targets) < Gap(c, targets)
  {
    if c.name in targets {
      ResizeMovesTowardsTarget(c, targets, policy, g);
    }
  }

  lemma {:induction false} DistanceMonotone(cs: seq<Container>, ds: seq<Container>, targets: Targets)
    requires |cs| == |ds|
    requires forall i :: 0 <= i < |cs| ==> Gap(ds[i], targets) <= Gap(cs[i], targets)
    ensures Distance(ds, targets) <= Distance(cs, targets)
    ensures (exists i :: 0 <= i < |cs| && Gap(ds[i], targets) < Gap(cs[i], targets)) ==>
              Distance(ds, targets) < Distance(cs, targets)
  {
    if cs != [] {
      var n := |cs| - 1;
      DistanceMonotone(cs[..n], ds[..n], targets);
      forall i | 0 <= i < n && Gap(ds[i], targets) < Gap(cs[i], targets)
        ensures Distance(ds[..n], targets) < Distance(cs[..n], targets)
      {
        assert Gap(ds[..n][i], targets) < Gap(cs[..n][i], targets);
      }
    }
  }

  /** Applying a plan strictly decreases the distance to the targets. */
  lemma PlanShrinksDistance(pod: Pod, targets: Targets, policy: Policy)
    requires Sound(pod) && PodFits(pod)
    requires PlanFor(pod, Resize(targets), policy).Some?
    ensures Distance(StepPod(pod, Resize(targets), policy).containers, targets) < Distance(pod.containers, targets)
  {
    var a, g := Resize(targets), QosClass(pod) == Guaranteed;
    StepIsPointwise(pod, a, policy);
    forall i | 0 <= i < |pod.containers|
      ensures Gap(After(pod.containers[i], a, policy, g), targets) <= Gap(pod.containers[i], targets)
      ensures PlanOne(pod.containers[i], a, policy, g).Some? ==>
                Gap(After(pod.containers[i], a, policy, g), targets) < Gap(pod.containers[i], targets)
    {
      StepShrinksGap(pod.containers[i], targets, policy, g);
    }
    var i := SomePlanned(pod.containers, a, policy, g);
    DistanceMonotone(pod.containers, StepPod(pod, a, policy).containers, targets);
  }

  /** `n` passes with the same targets. */
  function Passes(targets: Targets, policy: Policy, n: nat): seq<Round> {
    seq(n, _ => Round(Resize(targets), policy))
  }

  function RunPasses(pod: Pod, targets: Targets, policy: Policy, n: nat): Pod {
    Run(pod, Passes(targets, policy, n))
  }

  lemma OneMorePass(pod: Pod, targets: Targets, policy: Policy, n: nat)
    ensures RunPasses(pod, targets, policy, n + 1) ==
            StepPod(RunPasses(pod, targets, policy, n), Resize(targets), policy)
  {
    assert Passes(targets, policy, n + 1)[..n] == Passes(targets, policy, n);
  }

  predicate Quiet(pod: Pod, targets: Targets, policy: Policy) {
    PlanFor(pod, Resize(targets), policy) == None
  }

  lemma {:induction false} QuietOrCloser(pod: Pod, targets: Targets, policy: Policy, n: nat)
    requires Sound(pod) && PodFits(pod)
    ensures var after := RunPasses(pod, targets, policy, n);
            && Sound(after) && PodFits(after)
            && (|| Quiet(after, targets, policy)
                || Distance(after.containers, targets) + n <= Distance(pod.containers, targets))
  {
    if n > 0 {
      var before := RunPasses(pod, targets, policy, n - 1);
      QuietOrCloser(pod, targets, policy, n - 1);
      OneMorePass(pod, targets, policy, n - 1);
      StepKeepsSound(before, Resize(targets), policy);
      if !Quiet(before, targets, policy) {
        PlanShrinksDistance(before, targets, policy);
      }
    }
  }

  /** Every run ends: after as many passes as the distance counts, no plan is left. */
  lemma RunsEnd(pod: Pod, targets: Targets, policy: Policy, n: nat)
    requires Sound(pod) && PodFits(pod)
    requires n >= Distance(pod.containers, targets)
    ensures Quiet(RunPasses(pod, targets, policy, n), targets, policy)
  {
    QuietOrCloser(pod, targets, policy, n);
    var after := RunPasses(pod, targets, policy, n);
    if !Quiet(after, targets, policy) {
      PlanShrinksDistance(after, targets, policy);
    }
  }

  // ---------- Where a run ends ----------

  /** Where every run ends: each targeted container of a pod that is not BestEffort
      is inside the tolerance band, or each of its requests is stuck for a named reason. */
  lemma RunsEndSettled(pod: Pod, targets: Targets, policy: Policy, n: nat, i: nat)
    requires Sound(pod) && PodFits(pod) && i < |pod.containers|
    requires n >= Distance(pod.containers, targets)
    ensures var after := RunPasses(pod, targets, policy, n);
            && |after.containers| == |pod.containers|
            && (QosClass(after) != BestEffort && after.containers[i].name in targets ==>
                  Settled(after.containers[i], targets[after.containers[i].name], policy,
                          QosClass(after) == Guaranteed))
  {
    RunKeepsShape(pod, Passes(targets, policy, n));
    RunsEnd(pod, targets, policy, n);
    var after := RunPasses(pod, targets, policy, n);
    var c := after.containers[i];
    if QosClass(after) != BestEffort && c.name in targets {
      NoChangesNoPlan(after.containers, Resize(targets), policy, QosClass(after) == Guaranteed, i);
      SettledExactly(c, targets[c.name], policy, QosClass(after) == Guaranteed);
    }
  }

  // ---------- How fast ----------

  /** `k` capped steps from `start` towards `desired`. */
  function Steps(start: nat, desired: nat, policy: Policy, k: nat): nat {
    if k == 0 then start else StepClamp(Steps(start, desired, policy, k - 1), desired, policy)
  }

  lemma {:induction false} StepsStayBetween(start: nat, desired: nat, policy: Policy, k: nat)
    ensures Between(Steps(start, desired, policy, k), start, desired)
  {
    if k > 0 {
      StepsStayBetween(start, desired, policy, k - 1);
      StepClampBetween(Steps(start, desired, policy, k - 1), desired, policy);
    }
  }

  /** Truncating the step loses less than one unit. */
  lemma StepAmount(x: nat, percent: nat)
    ensures var y := x as real * (percent as real / 100.0);
            y - 1.0 < (x * percent / 100) as real <= y
  {
    var q := x * percent / 100;
    assert 100 * q <= x * percent < 100 * q + 100;
    assert (x * percent) as real == x as real * percent as real;
  }

  function Bound(factor: real, k: nat, start: nat, slack: real): real {
    Pow(factor, k) * start as real + slack
  }

  lemma BoundDown(rate: real, k: nat, start: nat, x: real)
    requires 0.0 < rate <= 1.0
    requires x <= Bound(1.0 - rate, k, start, 1.0 / rate)
    ensures x - x * rate + 1.0 <= Bound(1.0 - rate, k + 1, start, 1.0 / rate)
  {
    var f, slack := 1.0 - rate, 1.0 / rate;
    var p := Pow(f, k) * start as real;
    assert rate * slack == 1.0;
    assert f * x <= f * (p + slack);
    assert f * (p + slack) == f * p + slack - 1.0;
    assert Pow(f, k + 1) * start as real == f * p;
  }

  lemma BoundAtStart(rate: real, start: nat)
    requires 0.0 < rate
    ensures start as real <= Bound(1.0 - rate, 0, start, 1.0 / rate)
  {
    assert 1.0 / rate > 0.0;
  }

  lemma OneStepDown(x: nat, desired: nat, policy: Policy, rate: real)
    requires desired <= x && rate == policy.stepDown as real / 100.0
    ensures var y := StepClamp(x, desired, policy); y == desired || y as real <= x as real - x as real * rate + 1.0
  {
    StepAmount(x, policy.stepDown);
  }

  lemma UnderBoundStep(x: nat, desired: nat, policy: Policy, rate: real, k: nat, start: nat)
    requires desired <= x && 0.0 < rate <= 1.0 && rate == policy.stepDown as real / 100.0
    requires x == desired || x as real <= Bound(1.0 - rate, k, start, 1.0 / rate)
    ensures var y := StepClamp(x, desired, policy);
            y == desired || y as real <= Bound(1.0 - rate, k + 1, start, 1.0 / rate)
  {
    StepClampBetween(x, desired, policy);
    if x != desired {
      OneStepDown(x, desired, policy, rate);
      BoundDown(rate, k, start, x as real);
    }
  }

  /** Downward, the excess over the target shrinks geometrically, up to 100/p units. */
  lemma {:induction false} GeometricDown(start: nat, desired: nat, policy: Policy, k: nat, rate: real)
    requires desired <= start && 0.0 < rate <= 1.0 && rate == policy.stepDown as real / 100.0
    ensures var x := Steps(start, desired, policy, k);
            desired <= x && (x == desired || x as real <= Bound(1.0 - rate, k, start, 1.0 / rate))
  {
    StepsStayBetween(start, desired, policy, k);
    if k == 0 {
      BoundAtStart(rate, start);
    } else {
      GeometricDown(start, desired, policy, k - 1, rate);
      UnderBoundStep(Steps(start, desired, policy, k - 1), desired, policy, rate, k - 1, start);
    }
  }

  /** Upward growth from `start`, less the 100/p units truncation may cost. */
  function GrownFrom(rate: real, k: nat, start: nat): real
    requires rate > 0.0
  {
    Pow(1.0 + rate, k) * (start as real - 1.0 / rate) + 1.0 / rate
  }

  lemma GrowthUp(rate: real, k: nat, start: nat, x: real)
    requires 0.0 < rate && x >= GrownFrom(rate, k, start)
    ensures x + x * rate - 1.0 >= GrownFrom(rate, k + 1, start)
  {
    var f, slack := 1.0 + rate, 1.0 / rate;
    var p := Pow(f, k) * (start as real - slack);
    assert rate * slack == 1.0;
    assert f * x >= f * (p + slack);
    assert f * (p + slack) == f * p + slack + 1.0;
    assert Pow(f, k + 1) * (start as real - slack) == f * p;
  }

  lemma OneStepUp(x: nat, desired: nat, policy: Policy, rate: real)
    requires x <= desired && rate == policy.stepUp as real / 100.0
    ensures var y := StepClamp(x, desired, policy); y == desired || y as real >= x as real + x as real * rate - 1.0
  {
    StepAmount(x, policy.stepUp);
  }

  lemma OverGrowthStep(x: nat, desired: nat, policy: Policy, rate: real, k: nat, start: nat)
    requires x <= desired && 0.0 < rate && rate == policy.stepUp as real / 100.0
    requires x == desired || x as real >= GrownFrom(rate, k, start)
    ensures var y := StepClamp(x, desired, policy); y == desired || y as real >= GrownFrom(rate, k + 1, start)
  {
    StepClampBetween(x, desired, policy);
    if x != desired {
      OneStepUp(x, desired, policy, rate);
      GrowthUp(rate, k, start, x as real);
    }
  }

  /** Upward, the request reaches the target or has grown geometrically. */
  lemma {:induction false} GeometricUp(start: nat, desired: nat, policy: Policy, k: nat, rate: real)
    requires start <= desired && 0.0 < rate && rate == policy.stepUp as real / 100.0
    ensures var x := Steps(start, desired, policy, k);
            x <= desired && (x == desired || x as real >= GrownFrom(rate, k, start))
  {
    StepsStayBetween(start, desired, policy, k);
    if k > 0 {
      GeometricUp(start, desired, policy, k - 1, rate);
      OverGrowthStep(Steps(start, desired, policy, k - 1), desired, policy, rate, k - 1, start);
    }
  }

  /** A change is planned for container `i`. */
  predicate Moves(pod: Pod, targets: Targets, policy: Policy, i: nat) {
    && i < |pod.containers| && !Skipped(pod, Resize(targets))
    && PlanOne(pod.containers[i], Resize(targets), policy, QosClass(pod) == Guaranteed).Some?
  }

  /** One is planned for it in pass `j`. */
  predicate MovesAt(pod: Pod, targets: Targets, policy: Policy, j: nat, i: nat) {
    Moves(RunPasses(pod, targets, policy, j), targets, policy, i)
  }

  /** And in each of the first `k` passes. */
  predicate MovesEachPass(pod: Pod, targets: Targets, policy: Policy, k: nat, i: nat) {
    forall j :: 0 <= j < k ==> MovesAt(pod, targets, policy, j, i)
  }

  /** How far a request can get: a limit that the mode leaves alone is in the way, and
      memory of a Guaranteed pod does not go down. */
  function Reach(c: Container, r: ResourceName, want: nat, policy: Policy, g: bool): nat {
    if policy.controlled == RequestsOnly && !g && r in c.limits && want > c.limits[r] then c.limits[r]
    else if r == Memory && g && want < Amount(c.requests, r) then Amount(c.requests, r)
    else want
  }

  lemma CappedStep(current: nat, want: nat, limit: nat, policy: Policy)
    requires current <= limit
    ensures var x := StepClamp(current, want, policy);
            (if x > limit then limit else x) == StepClamp(current, if want > limit then limit else want, policy)
  {
    StepClampBetween(current, want, policy);
  }

  lemma StepToSelf(current: nat, policy: Policy)
    ensures StepClamp(current, current, policy) == current
  {
    StepClampBetween(current, current, policy);
  }

  /** A pass that changes a container takes each request one capped step towards its
      reach, through capping at limits, scaling and pinning. */
  lemma RequestTakesOneStep(c: Container, targets: Targets, policy: Policy, g: bool, r: ResourceName)
    requires Fits(c) && PlanOne(c, Resize(targets), policy, g).Some? && r in {CPU, Memory}
    ensures var (d, want) := (After(c, Resize(targets), policy, g), Amount(targets[c.name], r));
            && Amount(d.requests, r) == StepClamp(Amount(c.requests, r), Reach(c, r, want, policy, g), policy)
            && (policy.controlled == RequestsOnly && !g ==> d.limits == c.limits)
  {
    var current, want := Amount(c.requests, r), Amount(targets[c.name], r);
    StepClampBetween(current, want, policy);
    StepToSelf(current, policy);
    if r in c.limits {
      CappedStep(current, want, c.limits[r], policy);
    }
  }

  /** The first `k` passes find the pod Guaranteed, or not, as the first one does. */
  predicate ClassKept(pod: Pod, targets: Targets, policy: Policy, k: nat) {
    forall j :: 0 <= j < k ==> GuaranteedAt(pod, targets, policy, j) == (QosClass(pod) == Guaranteed)
  }

  predicate GuaranteedAt(pod: Pod, targets: Targets, policy: Policy, j: nat) {
    QosClass(RunPasses(pod, targets, policy, j)) == Guaranteed
  }

  /** Only a pod without a reported class can change its class on the way, and only from
      Burstable to Guaranteed. */
  lemma ReportedClassIsKept(pod: Pod, targets: Targets, policy: Policy, k: nat)
    requires Sound(pod) && PodFits(pod) && (pod.statusQos.Some? || QosClass(pod) == Guaranteed)
    ensures ClassKept(pod, targets, policy, k)
  {
    forall j | 0 <= j < k ensures GuaranteedAt(pod, targets, policy, j) == (QosClass(pod) == Guaranteed) {
      if QosClass(pod) == Guaranteed {
        GuaranteedForever(pod, Passes(targets, policy, j));
      }
      RunKeepsShape(pod, Passes(targets, policy, j));
    }
  }

  /** The class makes no difference to the reach. */
  predicate AnyClass(c: Container, r: ResourceName, want: nat, policy: Policy) {
    policy.controlled == RequestsAndLimits && (r == CPU || want >= Amount(c.requests, r))
  }

  lemma ReachStays(c: Container, d: Container, r: ResourceName, want: nat, policy: Policy, g: bool)
    requires Amount(d.requests, r) == StepClamp(Amount(c.requests, r), Reach(c, r, want, policy, g), policy)
    requires policy.controlled == RequestsOnly && !g ==> d.limits == c.limits
    ensures Reach(d, r, want, policy, g) == Reach(c, r, want, policy, g)
    ensures AnyClass(c, r, want, policy) ==> AnyClass(d, r, want, policy)
  {
    StepClampBetween(Amount(c.requests, r), Reach(c, r, want, policy, g), policy);
  }

  /** Where this request of the pod can get. */
  function ReachOf(pod: Pod, targets: Targets, policy: Policy, i: nat, r: ResourceName): nat
    requires i < |pod.containers| && pod.containers[i].name in targets
  {
    Reach(pod.containers[i], r, Amount(targets[pod.containers[i].name], r), policy, QosClass(pod) == Guaranteed)
  }

  /** One of the containers of a pod, with a request on its way to `reach`. */
  predicate OnTheWay(pod: Pod, targets: Targets, policy: Policy, i: nat, r: ResourceName, g: bool, reach: nat) {
    && i < |pod.containers| && pod.containers[i].name in targets
    && var (c, want) := (pod.containers[i], Amount(targets[pod.containers[i].name], r));
       && Reach(c, r, want, policy, g) == reach
       && (AnyClass(c, r, want, policy) || (QosClass(pod) == Guaranteed) == g)
  }

  /** The class makes no difference to the container's request. */
  predicate Indifferent(pod: Pod, targets: Targets, policy: Policy, i: nat, r: ResourceName)
    requires i < |pod.containers| && pod.containers[i].name in targets
  {
    AnyClass(pod.containers[i], r, Amount(targets[pod.containers[i].name], r), policy)
  }

  /** One pass over a pod, for one of its requests. */
  lemma PassTakesOneStep(pod: Pod, targets: Targets, policy: Policy, i: nat, r: ResourceName, g: bool, reach: nat)
    requires Sound(pod) && PodFits(pod) && r in {CPU, Memory} && Moves(pod, targets, policy, i)
    requires OnTheWay(pod, targets, policy, i, r, g, reach)
    ensures var after := StepPod(pod, Resize(targets), policy);
            && |after.containers| == |pod.containers| && after.containers[i].name == pod.containers[i].name
            && Reach(after.containers[i], r, Amount(targets[pod.containers[i].name], r), policy, g) == reach
            && (Indifferent(pod, targets, policy, i, r) ==> Indifferent(after, targets, policy, i, r))
            && Amount(after.containers[i].requests, r) ==
               StepClamp(Amount(pod.containers[i].requests, r), reach, policy)
  {
    var a, c, now := Resize(targets), pod.containers[i], QosClass(pod) == Guaranteed;
    StepIsPointwise(pod, a, policy);
    RequestTakesOneStep(c, targets, policy, now, r);
    ReachStays(c, After(c, a, policy, now), r, Amount(targets[c.name], r), policy, now);
  }

  lemma {:induction false} PassesKeepReach(pod: Pod, targets: Targets, policy: Policy, k: nat, i: nat, r: ResourceName,
                                           g: bool, reach: nat)
    requires Sound(pod) && PodFits(pod) && OnTheWay(pod, targets, policy, i, r, g, reach)
    requires r in {CPU, Memory} && MovesEachPass(pod, targets, policy, k, i)
    requires || Indifferent(pod, targets, policy, i, r)
             || forall j :: 0 <= j < k ==> GuaranteedAt(pod, targets, policy, j) == g
    ensures var after := RunPasses(pod, targets, policy, k);
            && |after.containers| == |pod.containers| && after.containers[i].name == pod.containers[i].name
            && Reach(after.containers[i], r, Amount(targets[pod.containers[i].name], r), policy, g) == reach
            && (Indifferent(pod, targets, policy, i, r) ==> Indifferent(after, targets, policy, i, r))
            && Amount(after.containers[i].requests, r) ==
               Steps(Amount(pod.containers[i].requests, r), reach, policy, k)
  {
    if k > 0 {
      assert MovesAt(pod, targets, policy, k - 1, i);
      PassesKeepReach(pod, targets, policy, k - 1, i, r, g, reach);
      OneMorePass(pod, targets, policy, k - 1);
      QuietOrCloser(pod, targets, policy, k - 1);
      assert Indifferent(pod, targets, policy, i, r) || GuaranteedAt(pod, targets, policy, k - 1) == g;
      PassTakesOneStep(RunPasses(pod, targets, policy, k - 1), targets, policy, i, r, g, reach);
    }
  }

  /** A container that changes in each of `k` passes has its requests exactly `k` capped
      steps on towards their reach, as long as the class is kept or makes no difference. */
  lemma PassesAreSteps(pod: Pod, targets: Targets, policy: Policy, k: nat, i: nat, r: ResourceName)
    requires Sound(pod) && PodFits(pod) && i < |pod.containers| && pod.containers[i].name in targets
    requires r in {CPU, Memory} && MovesEachPass(pod, targets, policy, k, i)
    requires ClassKept(pod, targets, policy, k) || Indifferent(pod, targets, policy, i, r)
    ensures var (c, after) := (pod.containers[i], RunPasses(pod, targets, policy, k));
            var reach := Reach(c, r, Amount(targets[c.name], r), policy, QosClass(pod) == Guaranteed);
            && |after.containers| == |pod.containers|
            && Amount(after.containers[i].requests, r) == Steps(Amount(c.requests, r), reach, policy, k)
  {
    var g := QosClass(pod) == Guaranteed;
    PassesKeepReach(pod, targets, policy, k, i, r, g, ReachOf(pod, targets, policy, i, r));
  }

  /** So a request that keeps moving down is geometrically close to its reach. */
  lemma MovingRequestDecays(pod: Pod, targets: Targets, policy: Policy, k: nat, i: nat, r: ResourceName, rate: real)
    requires Sound(pod) && PodFits(pod) && i < |pod.containers| && pod.containers[i].name in targets
    requires r in {CPU, Memory} && MovesEachPass(pod, targets, policy, k, i)
    requires ClassKept(pod, targets, policy, k) || Indifferent(pod, targets, policy, i, r)
    requires 0.0 < rate <= 1.0 && rate == policy.stepDown as real / 100.0
    ensures var (c, cs) := (pod.containers[i], RunPasses(pod, targets, policy, k).containers);
            var reach := Reach(c, r, Amount(targets[c.name], r), policy, QosClass(pod) == Guaranteed);
            && |cs| == |pod.containers|
            && var x := Amount(cs[i].requests, r);
               reach <= Amount(c.requests, r) ==>
                 reach <= x && (x == reach || x as real <= Bound(1.0 - rate, k, Amount(c.requests, r), 1.0 / rate))
  {
    PassesAreSteps(pod, targets, policy, k, i, r);
    var c := pod.containers[i];
    var reach := Reach(c, r, Amount(targets[c.name], r), policy, QosClass(pod) == Guaranteed);
    if reach <= Amount(c.requests, r) {
      GeometricDown(Amount(c.requests, r), reach, policy, k, rate);
    }
  }

  /** And one that keeps moving up has reached it or grown geometrically. */
  lemma MovingRequestGrows(pod: Pod, targets: Targets, policy: Policy, k: nat, i: nat, r: ResourceName, rate: real)
    requires Sound(pod) && PodFits(pod) && i < |pod.containers| && pod.containers[i].name in targets
    requires r in {CPU, Memory} && MovesEachPass(pod, targets, policy, k, i)
    requires ClassKept(pod, targets, policy, k) || Indifferent(pod, targets, policy, i, r)
    requires 0.0 < rate && rate == policy.stepUp as real / 100.0
    ensures var (c, cs) := (pod.containers[i], RunPasses(pod, targets, policy, k).containers);
            var reach := Reach(c, r, Amount(targets[c.name], r), policy, QosClass(pod) == Guaranteed);
            && |cs| == |pod.containers|
            && var x := Amount(cs[i].requests, r);
               reach >= Amount(c.requests, r) ==>
                 x <= reach && (x == reach || x as real >= GrownFrom(rate, k, Amount(c.requests, r)))
  {
    PassesAreSteps(pod, targets, policy, k, i, r);
    var c := pod.containers[i];
    var reach := Reach(c, r, Amount(targets[c.name], r), policy, QosClass(pod) == Guaranteed);
    if reach >= Amount(c.requests, r) {
      GeometricUp(Amount(c.requests, r), reach, policy, k, rate);
    }
  }

  // ---------- How many passes ----------

  /** Steps that stop never start again. */
  lemma {:induction false} StepsStopForGood(start: nat, reach: nat, policy: Policy, k: nat)
    requires Steps(start, reach, policy, k + 1) != Steps(start, reach, policy, k)
    ensures forall j :: 0 <= j <= k ==> Steps(start, reach, policy, j + 1) != Steps(start, reach, policy, j)
  {
    if k > 0 {
      assert Steps(start, reach, policy, k) != Steps(start, reach, policy, k - 1);
      StepsStopForGood(start, reach, policy, k - 1);
    }
  }

  lemma {:induction false} StepsFromFirst(start: nat, reach: nat, policy: Policy, k: nat)
    ensures Steps(start, reach, policy, k + 1) == Steps(Steps(start, reach, policy, 1), reach, policy, k)
  {
    if k > 0 {
      StepsFromFirst(start, reach, policy, k - 1);
    }
  }

  /** A step of at least one unit means at least 100/p units to step from. */
  lemma StepNeedsUnits(x: nat, percent: nat, rate: real)
    requires rate == percent as real / 100.0 && x * percent / 100 > 0
    ensures 0.0 < rate && x as real >= 1.0 / rate
  {
    StepAmount(x, percent);
    var y := 1.0 / rate;
    assert x as real * rate >= 1.0;
    assert y * rate == 1.0;
    assert (x as real - y) * rate >= 0.0;
  }

  function DownRate(policy: Policy): real {
    policy.stepDown as real / 100.0
  }

  function UpRate(policy: Policy): real {
    policy.stepUp as real / 100.0
  }

  /** Where steps that still move at k + 1 have come to. */
  lemma StillFalling(start: nat, reach: nat, policy: Policy, k: nat)
    requires reach < start && Steps(start, reach, policy, k + 2) != Steps(start, reach, policy, k + 1)
    ensures var x, y := Steps(start, reach, policy, k), Steps(start, reach, policy, k + 1);
            x > y > reach && y * policy.stepDown / 100 > 0 && policy.stepDown < 100
  {
    var x, y := Steps(start, reach, policy, k), Steps(start, reach, policy, k + 1);
    StepsStopForGood(start, reach, policy, k + 1);
    StepsStayBetween(start, reach, policy, k);
    StepsStayBetween(start, reach, policy, k + 1);
    StepToSelf(reach, policy);
    FallingStep(x, reach, policy);
    FallingStep(y, reach, policy);
  }

  /** After k steps down by this rate, a unit of the start is still left. */
  predicate FarAbove(rate: real, k: nat, start: nat) {
    Pow(1.0 - rate, k) * start as real >= 1.0
  }

  /** k steps up by this rate from one unit stay below the reach. */
  predicate FarBelow(rate: real, k: nat, reach: nat) {
    Pow(1.0 + rate, k) < reach as real
  }

  lemma UnderBound(rate: real, k: nat, start: nat, x: nat, y: nat)
    requires rate > 0.0 && y as real >= 1.0 / rate && x > y
    requires x as real <= Bound(1.0 - rate, k, start, 1.0 / rate)
    ensures FarAbove(rate, k, start)
  {}

  lemma StepsFall(start: nat, reach: nat, policy: Policy, k: nat)
    requires reach < start && Steps(start, reach, policy, k + 2) != Steps(start, reach, policy, k + 1)
    ensures FarAbove(DownRate(policy), k, start)
  {
    StillFalling(start, reach, policy, k);
    FallsSlowly(start, reach, policy, k);
  }

  lemma FallsSlowly(start: nat, reach: nat, policy: Policy, k: nat)
    requires reach < start && policy.stepDown < 100
    requires Steps(start, reach, policy, k) > Steps(start, reach, policy, k + 1) > reach
    requires Steps(start, reach, policy, k + 1) * policy.stepDown / 100 > 0
    ensures FarAbove(DownRate(policy), k, start)
  {
    var x, y := Steps(start, reach, policy, k), Steps(start, reach, policy, k + 1);
    StepNeedsUnits(y, policy.stepDown, DownRate(policy));
    BoundAfterSteps(start, reach, policy, k, x, DownRate(policy));
    UnderBound(DownRate(policy), k, start, x, y);
  }

  lemma BoundAfterSteps(start: nat, reach: nat, policy: Policy, k: nat, x: nat, rate: real)
    requires reach < start && policy.stepDown < 100 && 0.0 < rate == DownRate(policy)
    requires x == Steps(start, reach, policy, k) && x > reach
    ensures x as real <= Bound(1.0 - rate, k, start, 1.0 / rate)
  {
    GeometricDown(start, reach, policy, k, rate);
  }

  lemma FallingStep(x: nat, reach: nat, policy: Policy)
    requires reach < x && StepClamp(x, reach, policy) != x
    ensures StepClamp(x, reach, policy) < x && x * policy.stepDown / 100 > 0
    ensures StepClamp(x, reach, policy) > reach ==> policy.stepDown < 100
  {
    if policy.stepDown >= 100 {
      WholeStep(x, policy.stepDown);
    }
  }

  lemma WholeStep(x: nat, percent: nat)
    requires percent >= 100
    ensures x * percent / 100 >= x
  {
    QuotientBounds(x * percent, 100, x);
    assert x * percent == x * 100 + x * (percent - 100);
  }

  lemma StillRising(start: nat, reach: nat, policy: Policy, k: nat)
    requires reach > start && Steps(start, reach, policy, k + 2) != Steps(start, reach, policy, k + 1)
    ensures Steps(start, reach, policy, 1) > start && start * policy.stepUp / 100 > 0
    ensures Steps(start, reach, policy, k + 1) < reach && Steps(start, reach, policy, 1) < reach
  {
    StepsStopForGood(start, reach, policy, k + 1);
    StepsStayBetween(start, reach, policy, 1);
    StepsStayBetween(start, reach, policy, k + 1);
    StepToSelf(reach, policy);
    assert Steps(start, reach, policy, 0 + 1) != Steps(start, reach, policy, 0);
    assert Steps(start, reach, policy, 1) == StepClamp(start, reach, policy);
    if Steps(start, reach, policy, 1) == reach {
      StepsFromFirst(start, reach, policy, k);
      StepsAtReach(reach, policy, k);
    }
  }

  lemma StepsRise(start: nat, reach: nat, policy: Policy, k: nat)
    requires reach > start && Steps(start, reach, policy, k + 2) != Steps(start, reach, policy, k + 1)
    ensures FarBelow(UpRate(policy), k, reach)
  {
    var first, rate := Steps(start, reach, policy, 1), UpRate(policy);
    StillRising(start, reach, policy, k);
    StepNeedsUnits(start, policy.stepUp, rate);
    StepsFromFirst(start, reach, policy, k);
    GeometricUp(first, reach, policy, k, rate);
    AboveGrowth(rate, k, first, Steps(start, reach, policy, k + 1), reach);
  }

  lemma AtLeastFactor(p: real, x: real)
    requires p > 0.0 && x >= 1.0
    ensures p * x >= p
  {
    assert p * (x - 1.0) >= 0.0;
  }

  lemma AboveGrowth(rate: real, k: nat, first: nat, x: nat, reach: nat)
    requires rate > 0.0 && first as real >= 1.0 + 1.0 / rate && GrownFrom(rate, k, first) <= x as real && x < reach
    ensures FarBelow(rate, k, reach)
  {
    var p, slack := Pow(1.0 + rate, k), 1.0 / rate;
    var d := first as real - slack;
    assert slack > 0.0;
    AtLeastFactor(p, d);
    assert GrownFrom(rate, k, first) == p * d + slack;
  }

  /** From `start` there are more than `k` capped steps to the reach. */
  predicate FarFrom(start: nat, reach: nat, policy: Policy, k: nat) {
    || (reach < start && FarAbove(DownRate(policy), k, start))
    || (reach > start && FarBelow(UpRate(policy), k, reach))
  }

  lemma {:induction false} StepsAtReach(reach: nat, policy: Policy, k: nat)
    ensures Steps(reach, reach, policy, k) == reach
  {
    if k > 0 {
      StepsAtReach(reach, policy, k - 1);
      StepToSelf(reach, policy);
    }
  }

  lemma MovingIsFar(start: nat, reach: nat, policy: Policy, k: nat)
    requires Steps(start, reach, policy, k + 2) != Steps(start, reach, policy, k + 1)
    ensures FarFrom(start, reach, policy, k)
  {
    if reach < start {
      StepsFall(start, reach, policy, k);
    } else if reach > start {
      StepsRise(start, reach, policy, k);
    } else {
      StepsAtReach(reach, policy, k + 1);
      StepsAtReach(reach, policy, k + 2);
    }
  }

  /** One of the two requests has more than `k` capped steps to go. */
  predicate FarAway(pod: Pod, targets: Targets, policy: Policy, k: nat, i: nat) {
    && i < |pod.containers| && pod.containers[i].name in targets
    && (|| FarFrom(Amount(pod.containers[i].requests, CPU), ReachOf(pod, targets, policy, i, CPU), policy, k)
        || FarFrom(Amount(pod.containers[i].requests, Memory), ReachOf(pod, targets, policy, i, Memory), policy, k))
  }

  lemma MovingChanges(c: Container, targets: Targets, policy: Policy, g: bool)
    requires Fits(c) && PlanOne(c, Resize(targets), policy, g).Some?
    ensures var d := After(c, Resize(targets), policy, g);
            || Amount(d.requests, CPU) != Amount(c.requests, CPU)
            || Amount(d.requests, Memory) != Amount(c.requests, Memory)
  {
    StepShrinksGap(c, targets, policy, g);
  }

  /** A container that changes in each of k + 2 passes was far away. */
  lemma LongMoveIsFar(pod: Pod, targets: Targets, policy: Policy, k: nat, i: nat)
    requires Sound(pod) && PodFits(pod) && i < |pod.containers| && pod.containers[i].name in targets
    requires MovesEachPass(pod, targets, policy, k + 2, i) && ClassKept(pod, targets, policy, k + 2)
    ensures FarAway(pod, targets, policy, k, i)
  {
    var before := RunPasses(pod, targets, policy, k + 1);
    forall r | r in {CPU, Memory}
      ensures var x := Amount(pod.containers[i].requests, r);
              Steps(x, ReachOf(pod, targets, policy, i, r), policy, k + 2) !=
              Steps(x, ReachOf(pod, targets, policy, i, r), policy, k + 1) ==>
                FarFrom(x, ReachOf(pod, targets, policy, i, r), policy, k)
      ensures |before.containers| == |pod.containers| == |RunPasses(pod, targets, policy, k + 2).containers|
      ensures Amount(before.containers[i].requests, r) ==
              Steps(Amount(pod.containers[i].requests, r), ReachOf(pod, targets, policy, i, r), policy, k + 1)
      ensures Amount(RunPasses(pod, targets, policy, k + 2).containers[i].requests, r) ==
              Steps(Amount(pod.containers[i].requests, r), ReachOf(pod, targets, policy, i, r), policy, k + 2)
    {
      PassesAreSteps(pod, targets, policy, k + 1, i, r);
      PassesAreSteps(pod, targets, policy, k + 2, i, r);
      var x, reach := Amount(pod.containers[i].requests, r), ReachOf(pod, targets, policy, i, r);
      if Steps(x, reach, policy, k + 2) != Steps(x, reach, policy, k + 1) {
        MovingIsFar(x, reach, policy, k);
      }
    }
    assert MovesAt(pod, targets, policy, k + 1, i);
    QuietOrCloser(pod, targets, policy, k + 1);
    OneMorePass(pod, targets, policy, k + 1);
    StepIsPointwise(before, Resize(targets), policy);
    MovingChanges(before.containers[i], targets, policy, QosClass(before) == Guaranteed);
  }

  /** A container left alone by a pass is left alone by the next, unless the class changes. */
  lemma MovedBefore(pod: Pod, targets: Targets, policy: Policy, i: nat)
    requires Sound(pod) && PodFits(pod)
    requires var after := StepPod(pod, Resize(targets), policy);
             Moves(after, targets, policy, i) && (QosClass(after) == Guaranteed <==> QosClass(pod) == Guaranteed)
    ensures Moves(pod, targets, policy, i)
  {
    StepIsPointwise(pod, Resize(targets), policy);
    var after := StepPod(pod, Resize(targets), policy);
    if !Skipped(pod, Resize(targets)) {
      assert after.containers[i] == After(pod.containers[i], Resize(targets), policy, QosClass(pod) == Guaranteed);
    }
  }

  lemma {:induction false} MovedAllAlong(pod: Pod, targets: Targets, policy: Policy, k: nat, i: nat)
    requires Sound(pod) && PodFits(pod) && ClassKept(pod, targets, policy, k + 1)
    requires MovesAt(pod, targets, policy, k, i)
    ensures MovesEachPass(pod, targets, policy, k + 1, i)
  {
    if k > 0 {
      OneMorePass(pod, targets, policy, k - 1);
      QuietOrCloser(pod, targets, policy, k - 1);
      assert GuaranteedAt(pod, targets, policy, k - 1) == GuaranteedAt(pod, targets, policy, k);
      MovedBefore(RunPasses(pod, targets, policy, k - 1), targets, policy, i);
      assert ClassKept(pod, targets, policy, k);
      MovedAllAlong(pod, targets, policy, k - 1, i);
    }
  }

  /** Every run is short: when after k + 1 passes there is still something to plan, some
      request was so far away that k capped steps do not cover the way. The number of
      passes is logarithmic in the requests and targets. */
  lemma RunsAreShort(pod: Pod, targets: Targets, policy: Policy, k: nat) returns (i: nat)
    requires Sound(pod) && PodFits(pod) && ClassKept(pod, targets, policy, k + 2)
    requires !Quiet(RunPasses(pod, targets, policy, k + 1), targets, policy)
    ensures FarAway(pod, targets, policy, k, i)
  {
    var last := RunPasses(pod, targets, policy, k + 1);
    i := SomePlanned(last.containers, Resize(targets), policy, QosClass(last) == Guaranteed);
    assert MovesAt(pod, targets, policy, k + 1, i);
    MovedAllAlong(pod, targets, policy, k + 1, i);
    RunKeepsShape(pod, Passes(targets, policy, k + 1));
    LongMoveIsFar(pod, targets, policy, k, i);
  }
}
