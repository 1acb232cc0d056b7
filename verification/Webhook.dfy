/** Admission: injecting the recommendation into a new pod, and how eviction plus
    injection gets a pod out of a memory shrink that in-place resizing cannot do. */
module Webhook {
  import opened Resources
  import opened Planner
  import opened PodRuns
  import opened QosRuns
  import opened Settling
  import opened Exponentials

  // ---------- The memory shrink that in-place resizing cannot do ----------

  predicate WantsLessMemory(c: Container, targets: Targets, policy: Policy) {
    && c.name in targets
    && var cur, want := Amount(c.requests, Memory), Amount(targets[c.name], Memory);
       cur > 0 && want > 0 && !WithinTolerance(cur, want, policy.tolerance) && want < cur
  }

  predicate BlockedMemoryShrink(pod: Pod, targets: Targets, policy: Policy) {
    QosClass(pod) == Guaranteed && exists c <- pod.containers :: WantsLessMemory(c, targets, policy)
  }

  /** Blocked means: Guaranteed, with a container whose memory target is set, below its
      request, and further below than the tolerance. */
  lemma BlockedExactly(pod: Pod, targets: Targets, policy: Policy)
    ensures BlockedMemoryShrink(pod, targets, policy) <==>
            && QosClass(pod) == Guaranteed
            && exists c <- pod.containers ::
                 && c.name in targets
                 && 0 < Amount(targets[c.name], Memory) < Amount(c.requests, Memory)
                 && (Amount(c.requests, Memory) - Amount(targets[c.name], Memory)) as real >
                    policy.tolerance * Amount(c.requests, Memory) as real
  {
    forall c <- pod.containers | c.name in targets
      ensures WantsLessMemory(c, targets, policy) <==>
              && 0 < Amount(targets[c.name], Memory) < Amount(c.requests, Memory)
              && (Amount(c.requests, Memory) - Amount(targets[c.name], Memory)) as real >
                 policy.tolerance * Amount(c.requests, Memory) as real
    {
      if Amount(targets[c.name], Memory) < Amount(c.requests, Memory) {
        ShrinkOutsideBand(Amount(c.requests, Memory), Amount(targets[c.name], Memory), policy.tolerance);
      }
    }
  }

  lemma ShrinkOutsideBand(current: nat, desired: nat, tolerance: real)
    requires desired < current
    ensures !WithinTolerance(current, desired, tolerance) <==> (current - desired) as real > tolerance * current as real
  {
    FractionExactly((current - desired) as real, current as real, tolerance);
    OppositeFractions(current, desired);
  }

  lemma RatioFalls(w: real, c: real, m: real)
    requires 0.0 <= w && 0.0 < c <= m
    ensures (w - m) / m <= (w - c) / c
  {
    var x, y := (w - c) / c, (w - m) / m;
    assert (x + 1.0) * c == w && (y + 1.0) * m == w;
    assert x + 1.0 >= 0.0;
    assert (x + 1.0) * m >= (x + 1.0) * c == (y + 1.0) * m;
  }

  /** The further memory is above what is wanted, the further it is out of the band. */
  lemma OutOfBandGrows(cur: nat, more: nat, want: nat, tolerance: real)
    requires want < cur <= more && !WithinTolerance(cur, want, tolerance)
    ensures !WithinTolerance(more, want, tolerance)
  {
    RatioFalls(want as real, cur as real, more as real);
  }

  lemma StepKeepsWantingLess(c: Container, r: Round, targets: Targets, policy: Policy)
    requires Pinned(c) && WantsLessMemory(c, targets, policy)
    requires r.action.Resize? ==> r.action.targets == targets
    ensures WantsLessMemory(After(c, r.action, r.policy, true), targets, policy)
  {
    var d := After(c, r.action, r.policy, true);
    if PlanOne(c, r.action, r.policy, true).Some? {
      var cpu, mem := StepIsResized(c, r.action, r.policy, true);
      assert Amount(d.requests, Memory) == mem;
    }
    OutOfBandGrows(Amount(c.requests, Memory), Amount(d.requests, Memory), Amount(targets[c.name], Memory),
                   policy.tolerance);
  }

  lemma StepKeepsBlocked(pod: Pod, r: Round, targets: Targets, policy: Policy)
    requires Sound(pod) && BlockedMemoryShrink(pod, targets, policy)
    requires r.action.Resize? ==> r.action.targets == targets
    ensures BlockedMemoryShrink(StepPod(pod, r.action, r.policy), targets, policy)
  {
    StepKeepsSound(pod, r.action, r.policy);
    StepIsPointwise(pod, r.action, r.policy);
    var i :| 0 <= i < |pod.containers| && WantsLessMemory(pod.containers[i], targets, policy);
    assert pod.containers[i] in pod.containers;
    StepKeepsWantingLess(pod.containers[i], r, targets, policy);
    var after := StepPod(pod, r.action, r.policy);
    assert after.containers[i] in after.containers;
  }

  /** The trap: no run of resizes to these targets and OOM bumps unblocks the pod,
      whatever the step sizes and modes of its passes. */
  lemma {:induction false} BlockedForever(pod: Pod, rounds: seq<Round>, targets: Targets, policy: Policy)
    requires Sound(pod) && BlockedMemoryShrink(pod, targets, policy)
    requires forall r <- rounds :: r.action.Resize? ==> r.action.targets == targets
    ensures BlockedMemoryShrink(Run(pod, rounds), targets, policy)
  {
    if rounds != [] {
      var front := rounds[..|rounds| - 1];
      BlockedForever(pod, front, targets, policy);
      GuaranteedForever(pod, front);
      StepKeepsBlocked(Run(pod, front), rounds[|rounds| - 1], targets, policy);
    }
  }

  // ---------- Injection at admission ----------

  /** A limit scaled to the new request. Memory limits are written in thousandths of
      a byte and read back rounded up to a byte. */
  function InjectedLimit(r: ResourceName, newRequest: nat, limit: nat, request: nat): nat
    requires request > 0
  {
    if limit == request then newRequest
    else if r == CPU then ScaleLimit(newRequest, limit, request)
    else (ScaleLimit(newRequest * 1000, limit, request) + 999) / 1000
  }

  function InjectOn(c: Container, r: ResourceName, target: ResourceList): Container {
    if r !in target || Amount(c.requests, r) == 0 then c
    else
      c.(requests := c.requests[r := target[r]],
         limits := if r in c.limits
                   then c.limits[r := InjectedLimit(r, target[r], c.limits[r], c.requests[r])] else c.limits)
  }

  function Inject(c: Container, targets: Targets): Container {
    if c.name in targets then InjectOn(InjectOn(c, CPU, targets[c.name]), Memory, targets[c.name]) else c
  }

  function InjectPod(pod: Pod, targets: Targets): Pod {
    var cs := pod.containers;
    pod.(containers := seq(|cs|, i requires 0 <= i < |cs| => Inject(cs[i], targets)))
  }

  method ApplyTarget(cs: array<Container>, i: nat, target: ResourceList)
    requires i < cs.Length
    modifies cs
    ensures cs[i] == InjectOn(InjectOn(old(cs[i]), CPU, target), Memory, target)
    ensures forall j :: 0 <= j < cs.Length && j != i ==> cs[j] == old(cs[j])
  {
    var names := [CPU, Memory];
    for k := 0 to 2
      invariant cs[i] == if k == 0 then old(cs[i]) else if k == 1 then InjectOn(old(cs[i]), CPU, target)
                         else InjectOn(InjectOn(old(cs[i]), CPU, target), Memory, target)
      invariant forall j :: 0 <= j < cs.Length && j != i ==> cs[j] == old(cs[j])
    {
      var c, r := cs[i], names[k];
      if r !in target || Amount(c.requests, r) == 0 {
        continue;
      }
      var newReq, curReq := target[r], c.requests[r];
      if r in c.limits {
        var curLim := c.limits[r];
        if curLim == curReq {
          cs[i] := cs[i].(limits := c.limits[r := newReq]);
        } else {
          cs[i] := cs[i].(limits := c.limits[r := InjectedLimit(r, newReq, curLim, curReq)]);
        }
      }
      cs[i] := cs[i].(requests := c.requests[r := newReq]);
    }
  }

  /** The webhook's loop over the containers of a new pod. */
  method Default(cs: array<Container>, rec: Targets)
    modifies cs
    ensures forall j :: 0 <= j < cs.Length ==> cs[j] == Inject(old(cs[j]), rec)
  {
    for i := 0 to cs.Length
      invariant forall j :: 0 <= j < i ==> cs[j] == Inject(old(cs[j]), rec)
      invariant forall j :: i <= j < cs.Length ==> cs[j] == old(cs[j])
    {
      var c := cs[i];
      if c.name !in rec || c.requests == map[] {
        assert Inject(c, rec) == c;
        continue;
      }
      ApplyTarget(cs, i, rec[c.name]);
    }
  }

  lemma EqualIsWithin(x: nat, tolerance: real)
    requires tolerance >= 0.0
    ensures WithinTolerance(x, x, tolerance)
  {}

  /** Nothing is left to plan or to shrink on an injected container. */
  lemma InjectedIsSettled(c: Container, targets: Targets, policy: Policy, g: bool)
    requires policy.tolerance >= 0.0
    ensures PlanOne(Inject(c, targets), Resize(targets), policy, g) == None
    ensures !WantsLessMemory(Inject(c, targets), targets, policy)
  {
    if c.name in targets {
      EqualIsWithin(Amount(targets[c.name], CPU), policy.tolerance);
      EqualIsWithin(Amount(targets[c.name], Memory), policy.tolerance);
    }
  }

  lemma {:induction false} NoPlansNoChanges(cs: seq<Container>, a: Action, policy: Policy, g: bool)
    requires forall c <- cs :: PlanOne(c, a, policy, g) == None
    ensures Changes(cs, a, policy, g) == []
  {
    if cs != [] {
      NoPlansNoChanges(cs[..|cs| - 1], a, policy, g);
    }
  }

  /** The exit: whatever the pod, an injected one is a fixed point of the planner
      for the same targets and is not blocked. */
  lemma InjectionIsFixedPoint(pod: Pod, targets: Targets, policy: Policy)
    requires policy.tolerance >= 0.0
    ensures var born := InjectPod(pod, targets);
            && PlanFor(born, Resize(targets), policy) == None
            && !BlockedMemoryShrink(born, targets, policy)
  {
    var born := InjectPod(pod, targets);
    var g := QosClass(born) == Guaranteed;
    forall c <- born.containers
      ensures PlanOne(c, Resize(targets), policy, g) == None && !WantsLessMemory(c, targets, policy)
    {
      var i :| 0 <= i < |pod.containers| && c == Inject(pod.containers[i], targets);
      InjectedIsSettled(pod.containers[i], targets, policy, g);
    }
    NoPlansNoChanges(born.containers, Resize(targets), policy, g);
  }

  /** An injected container asks for its target exactly, in every resource it asked for. */
  lemma InjectionSetsRequests(c: Container, targets: Targets, r: ResourceName)
    requires c.name in targets && r in {CPU, Memory}
    ensures Amount(Inject(c, targets).requests, r) ==
            if r in targets[c.name] && Amount(c.requests, r) > 0 then targets[c.name][r] else Amount(c.requests, r)
  {}

  lemma CeilingOfThousandths(x: nat)
    ensures var q := (x + 999) / 1000; 1000 * q - 1000 < x <= 1000 * q
  {}

  lemma Division(x: nat, d: nat)
    requires d > 0
    ensures x / d * d <= x < (x / d + 1) * d
  {}

  /** Rounding a quotient up to whole thousands. */
  lemma CeilingOfQuotient(x: nat, d: nat)
    requires d > 0
    ensures var q := (x / d + 999) / 1000; (1000 * q - 1000) * d < x < (1000 * q + 1) * d
  {
    var y := x / d;
    var q := (y + 999) / 1000;
    CeilingOfThousandths(y);
    Division(x, d);
    ScaledOrder(1000 * q - 999, y, d);
    ScaledOrder(y + 1, 1000 * q + 1, d);
    OneFactorMore(1000 * q - 1000, d);
  }

  lemma OneFactorMore(a: int, k: nat)
    ensures (a + 1) * k == a * k + k
  {}

  lemma InjectedMemoryRatio(newRequest: nat, limit: nat, request: nat)
    requires 0 < request && limit != request
    ensures var q := InjectedLimit(Memory, newRequest, limit, request);
            (1000 * q - 1000) * request < newRequest * 1000 * limit < (1000 * q + 1) * request
  {
    CeilingOfQuotient(newRequest * 1000 * limit, request);
  }

  lemma InjectedCpuRatio(newRequest: nat, limit: nat, request: nat)
    requires 0 < request && limit != request
    ensures var q := InjectedLimit(CPU, newRequest, limit, request);
            q * request <= newRequest * limit < (q + 1) * request
  {
    Division(newRequest * limit, request);
  }

  /** A new limit q for the new request, given the old limit and request. */
  predicate FollowsRequest(r: ResourceName, q: nat, asked: nat, limit: nat, request: nat) {
    if limit == request then q == asked
    else if r == CPU then q * request <= asked * limit < (q + 1) * request
    else (1000 * q - 1000) * request < asked * 1000 * limit < (1000 * q + 1) * request
  }

  /** On an injected container, a limit that equalled its request equals the new one;
      otherwise limits keep their ratio to requests: CPU up to a truncated millicore,
      memory up to a byte above and a thousandth of a byte below. */
  lemma InjectionKeepsRatio(c: Container, targets: Targets, r: ResourceName)
    requires r in {CPU, Memory} && c.name in targets && r in targets[c.name]
    requires Amount(c.requests, r) > 0 && r in c.limits
    ensures r in Inject(c, targets).limits
    ensures FollowsRequest(r, Inject(c, targets).limits[r], targets[c.name][r], c.limits[r], c.requests[r])
  {
    var asked, limit, request := targets[c.name][r], c.limits[r], c.requests[r];
    assert Inject(c, targets).limits[r] == InjectedLimit(r, asked, limit, request);
    InjectedFollows(r, asked, limit, request);
  }

  lemma InjectedFollows(r: ResourceName, asked: nat, limit: nat, request: nat)
    requires r in {CPU, Memory} && request > 0
    ensures FollowsRequest(r, InjectedLimit(r, asked, limit, request), asked, limit, request)
  {
    if limit != request {
      if r == CPU {
        InjectedCpuRatio(asked, limit, request);
      } else {
        InjectedMemoryRatio(asked, limit, request);
      }
    }
  }

  /** Everything else of a container is left alone: what has no target, is not requested,
      is not limited, or is neither CPU nor memory. */
  lemma InjectionLeavesTheRest(c: Container, targets: Targets, r: ResourceName)
    ensures var d := Inject(c, targets);
            var free := || c.name !in targets || r !in targets[c.name]
                        || Amount(c.requests, r) == 0 || r !in {CPU, Memory};
            && d.name == c.name
            && (free || r !in c.limits ==>
                  (r in d.limits <==> r in c.limits) && Amount(d.limits, r) == Amount(c.limits, r))
            && (free ==> (r in d.requests <==> r in c.requests) && Amount(d.requests, r) == Amount(c.requests, r))
  {}

  lemma ScaledOrder(a: int, b: int, k: nat)
    requires a <= b
    ensures a * k <= b * k
  {}

  lemma InjectedMemoryLimit(newRequest: nat, limit: nat, request: nat)
    requires 0 < request <= limit
    ensures InjectedLimit(Memory, newRequest, limit, request) >= newRequest
  {
    ScaleLimitBounds(newRequest * 1000, limit, request);
  }

  lemma InjectedCpuLimit(newRequest: nat, limit: nat, request: nat)
    requires 0 < request <= limit
    ensures InjectedLimit(CPU, newRequest, limit, request) >= newRequest
  {
    ScaleLimitBounds(newRequest, limit, request);
  }

  /** Injection keeps which requests and limits there are, keeps requests within
      limits, and keeps a pinned container pinned. */
  lemma InjectionKeepsShape(c: Container, targets: Targets)
    requires Fits(c)
    ensures var d := Inject(c, targets);
            && d.requests.Keys == c.requests.Keys && d.limits.Keys == c.limits.Keys
            && Fits(d) && (Pinned(c) ==> Pinned(d))
  {
    if c.name in targets {
      var t := targets[c.name];
      if CPU in c.limits && Amount(c.requests, CPU) > 0 {
        InjectedCpuLimit(Amount(t, CPU), c.limits[CPU], c.requests[CPU]);
      }
      if Memory in c.limits && Amount(c.requests, Memory) > 0 {
        InjectedMemoryLimit(Amount(t, Memory), c.limits[Memory], c.requests[Memory]);
      }
    }
  }

  /** A pod created from a Guaranteed template is Guaranteed after injection, so the
      replacement of a blocked pod keeps its class and is no longer blocked. */
  lemma InjectionKeepsGuaranteed(pod: Pod, targets: Targets)
    requires SpecQos(pod.containers) == Guaranteed
    ensures SpecQos(InjectPod(pod, targets).containers) == Guaranteed
  {
    var cs, ds := pod.containers, InjectPod(pod, targets).containers;
    forall i | 0 <= i < |cs| ensures Pinned(ds[i]) && ds[i].requests.Keys == cs[i].requests.Keys {
      assert cs[i] in cs;
      InjectionKeepsShape(cs[i], targets);
    }
    var j := SomeRequest(cs);
    QosOfRequesting(ds, j);
  }
}
