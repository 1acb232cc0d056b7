/** Plans applied to pods, and whole runs of plans.
    Applying a plan merges each change into the container of the same name, as the
    resize subresource's strategic merge patch does. */
module PodRuns {
  import opened Resources
  import opened Planner

  function Merge(c: Container, ch: Change): Container {
    c.(requests := c.requests + ch.requests,
       limits := c.limits + (if ch.limits.Some? then ch.limits.value else map[]))
  }

  function FindChange(changes: seq<Change>, name: string): Option<Change> {
    if changes == [] then None
    else if changes[|changes| - 1].name == name then Some(changes[|changes| - 1])
    else FindChange(changes[..|changes| - 1], name)
  }

  function Patch(c: Container, changes: seq<Change>): Container {
    match FindChange(changes, c.name)
    case Some(ch) => Merge(c, ch)
    case None => c
  }

  function ApplyPlan(pod: Pod, plan: PodPlan): Pod {
    var cs := pod.containers;
    pod.(containers := seq(|cs|, i requires 0 <= i < |cs| => Patch(cs[i], plan.changes)))
  }

  /** One planning step of a pod; a pod without a plan stays as it is. */
  function StepPod(pod: Pod, a: Action, policy: Policy): Pod {
    match PlanFor(pod, a, policy)
    case Some(plan) => ApplyPlan(pod, plan)
    case None => pod
  }

  /** One pass over a pod: what is planned, and under which policy. */
  datatype Round = Round(action: Action, policy: Policy)

  /** A run: any sequence of resizes and OOM bumps, each with its own arguments, under a
      policy that may change from pass to pass. */
  function Run(pod: Pod, rounds: seq<Round>): Pod {
    if rounds == [] then pod
    else
      var last := rounds[|rounds| - 1];
      StepPod(Run(pod, rounds[..|rounds| - 1]), last.action, last.policy)
  }

  /** What one container turns into, looked at on its own. */
  function After(c: Container, a: Action, policy: Policy, guaranteed: bool): (r: Container)
    ensures r.name == c.name
  {
    match PlanOne(c, a, policy, guaranteed)
    case Some(ch) => Merge(c, ch)
    case None => c
  }

  predicate Skipped(pod: Pod, a: Action) {
    a.Resize? && QosClass(pod) == BestEffort
  }

  /** A pod the API server can hold: unique names, and every container of a
      Guaranteed pod has equal requests and limits. */
  ghost predicate Sound(pod: Pod) {
    && UniqueNames(pod.containers)
    && (QosClass(pod) == Guaranteed ==> forall c <- pod.containers :: Pinned(c))
  }

  // ---------- A plan acts on each container as if it were alone ----------

  /** The planned changes of a list of outcomes, container by container. */
  function Gather(outcomes: seq<Option<Change>>): seq<Change> {
    if outcomes == [] then []
    else
      var n := |outcomes| - 1;
      if outcomes[n].Some? then Gather(outcomes[..n]) + [outcomes[n].value] else Gather(outcomes[..n])
  }

  function Outcomes(cs: seq<Container>, a: Action, policy: Policy, g: bool): seq<Option<Change>> {
    seq(|cs|, i requires 0 <= i < |cs| => PlanOne(cs[i], a, policy, g))
  }

  lemma {:induction false} ChangesAreGathered(cs: seq<Container>, a: Action, policy: Policy, g: bool)
    ensures Changes(cs, a, policy, g) == Gather(Outcomes(cs, a, policy, g))
  {
    if cs != [] {
      var n := |cs| - 1;
      ChangesAreGathered(cs[..n], a, policy, g);
      assert Outcomes(cs, a, policy, g)[..n] == Outcomes(cs[..n], a, policy, g);
    }
  }

  /** Each outcome is about the container of its name, and no name occurs twice. */
  ghost predicate Named(outcomes: seq<Option<Change>>, names: seq<string>) {
    && |outcomes| == |names|
    && (forall i, j :: 0 <= i < j < |names| ==> names[i] != names[j])
    && (forall i :: 0 <= i < |names| && outcomes[i].Some? ==> outcomes[i].value.name == names[i])
  }

  lemma FindOneMore(changes: seq<Change>, ch: Change, name: string)
    ensures FindChange(changes + [ch], name) == if ch.name == name then Some(ch) else FindChange(changes, name)
  {
    assert (changes + [ch])[..|changes|] == changes;
  }

  lemma {:induction false} NotGathered(outcomes: seq<Option<Change>>, name: string)
    requires forall o <- outcomes :: o.Some? ==> o.value.name != name
    ensures FindChange(Gather(outcomes), name) == None
  {
    if outcomes != [] {
      var n := |outcomes| - 1;
      assert outcomes[n] in outcomes;
      NotGathered(outcomes[..n], name);
      if outcomes[n].Some? {
        FindOneMore(Gather(outcomes[..n]), outcomes[n].value, name);
      }
    }
  }

  lemma NamedFront(outcomes: seq<Option<Change>>, names: seq<string>)
    requires Named(outcomes, names) && names != []
    ensures var n := |names| - 1;
            && Named(outcomes[..n], names[..n])
            && forall o <- outcomes[..n] :: o.Some? ==> o.value.name != names[n]
  {
    var n := |names| - 1;
    forall o | o in outcomes[..n] && o.Some? ensures o.value.name != names[n] {
      var j :| 0 <= j < n && outcomes[j] == o;
    }
  }

  lemma {:induction false} GatheredIsFound(outcomes: seq<Option<Change>>, names: seq<string>, i: nat)
    requires Named(outcomes, names) && i < |names|
    ensures FindChange(Gather(outcomes), names[i]) == outcomes[i]
  {
    var n := |names| - 1;
    var front := outcomes[..n];
    NamedFront(outcomes, names);
    if outcomes[n].Some? {
      FindOneMore(Gather(front), outcomes[n].value, names[i]);
    }
    if i < n {
      GatheredIsFound(front, names[..n], i);
    } else {
      NotGathered(front, names[n]);
    }
  }

  /** The plan holds for each container exactly what was planned for it. */
  lemma ChangeFound(cs: seq<Container>, a: Action, policy: Policy, g: bool, i: nat)
    requires i < |cs| && UniqueNames(cs)
    ensures FindChange(Changes(cs, a, policy, g), cs[i].name) == PlanOne(cs[i], a, policy, g)
  {
    ChangesAreGathered(cs, a, policy, g);
    GatheredIsFound(Outcomes(cs, a, policy, g), seq(|cs|, j requires 0 <= j < |cs| => cs[j].name), i);
  }

  lemma {:induction false} SomePlanned(cs: seq<Container>, a: Action, policy: Policy, g: bool) returns (i: nat)
    requires Changes(cs, a, policy, g) != []
    ensures i < |cs| && PlanOne(cs[i], a, policy, g).Some?
  {
    var n := |cs| - 1;
    if PlanOne(cs[n], a, policy, g).Some? {
      i := n;
    } else {
      i := SomePlanned(cs[..n], a, policy, g);
    }
  }

  lemma {:induction false} PlannedMeansChanges(cs: seq<Container>, a: Action, policy: Policy, g: bool, i: nat)
    requires i < |cs| && PlanOne(cs[i], a, policy, g).Some?
    ensures Changes(cs, a, policy, g) != []
  {
    if i < |cs| - 1 {
      PlannedMeansChanges(cs[..|cs| - 1], a, policy, g, i);
    }
  }

  lemma {:induction false} NoChangesNoPlan(cs: seq<Container>, a: Action, policy: Policy, g: bool, i: nat)
    requires Changes(cs, a, policy, g) == [] && i < |cs|
    ensures PlanOne(cs[i], a, policy, g) == None
  {
    if i < |cs| - 1 {
      NoChangesNoPlan(cs[..|cs| - 1], a, policy, g, i);
    }
  }

  /** One step of a pod is one step of each of its containers. */
  lemma StepIsPointwise(pod: Pod, a: Action, policy: Policy)
    requires UniqueNames(pod.containers)
    ensures var after := StepPod(pod, a, policy);
            && after == pod.(containers := after.containers)
            && |after.containers| == |pod.containers|
            && forall i :: 0 <= i < |pod.containers| ==>
                 after.containers[i] == if Skipped(pod, a) then pod.containers[i]
                                        else After(pod.containers[i], a, policy, QosClass(pod) == Guaranteed)
  {
    var g := QosClass(pod) == Guaranteed;
    forall i | 0 <= i < |pod.containers|
      ensures FindChange(Changes(pod.containers, a, policy, g), pod.containers[i].name) ==
              PlanOne(pod.containers[i], a, policy, g)
    {
      ChangeFound(pod.containers, a, policy, g, i);
    }
  }

  // ---------- Arithmetic of one step ----------

  predicate Between(x: nat, a: nat, b: nat) {
    a <= x <= b || b <= x <= a
  }

  lemma StepClampBetween(current: nat, desired: nat, policy: Policy)
    ensures Between(StepClamp(current, desired, policy), current, desired)
  {}

  lemma QuotientBounds(x: nat, d: nat, k: nat)
    requires d > 0
    ensures x >= k * d <==> x / d >= k
  {
    var q := x / d;
    assert q * d <= x < (q + 1) * d;
    if q >= k {
      assert q * d >= k * d;
    } else {
      assert (q + 1) * d <= k * d;
    }
  }

  /** Scaling keeps a limit at or above its request, and truncates it down to the
      request exactly when the scaled slack is less than one unit. */
  lemma ScaleLimitBounds(amount: nat, limit: nat, request: nat)
    requires 0 < request <= limit
    ensures ScaleLimit(amount, limit, request) >= amount
    ensures ScaleLimit(amount, limit, request) == amount <==> amount * limit < (amount + 1) * request
  {
    assert amount * limit >= amount * request;
    QuotientBounds(amount * limit, request, amount);
    QuotientBounds(amount * limit, request, amount + 1);
  }

  // ---------- What one step does to one container ----------

  /** A resize moves both requests towards their targets and never past them. */
  lemma ResizeMovesTowardsTarget(c: Container, targets: Targets, policy: Policy, g: bool)
    requires Fits(c) && c.name in targets
    ensures var d := After(c, Resize(targets), policy, g);
            && Between(Amount(d.requests, CPU), Amount(c.requests, CPU), Amount(targets[c.name], CPU))
            && Between(Amount(d.requests, Memory), Amount(c.requests, Memory), Amount(targets[c.name], Memory))
  {
    StepClampBetween(Amount(c.requests, CPU), Amount(targets[c.name], CPU), policy);
    StepClampBetween(Amount(c.requests, Memory), Amount(targets[c.name], Memory), policy);
  }

  /** A bump leaves CPU alone, never lowers memory and stays under the cap. */
  lemma BumpRaisesMemory(c: Container, oom: set<string>, caps: map<string, nat>, policy: Policy, g: bool)
    requires Fits(c)
    ensures var d := After(c, Bump(oom, caps), policy, g);
            && Amount(d.requests, CPU) == Amount(c.requests, CPU)
            && Amount(d.requests, Memory) >= Amount(c.requests, Memory)
            && (d != c && c.name in caps ==> Amount(d.requests, Memory) <= caps[c.name])
  {}

  /** A container given new requests, with limits planned for them. */
  function Resized(c: Container, cpu: nat, mem: nat, policy: Policy, g: bool): Container
    requires HasRequests(c)
  {
    Merge(c, ChangeTo(c, PlanLimits(c, cpu, mem, policy, g)))
  }

  /** Every step that changes a container comes down to `Resized` with positive
      requests; memory does not go down on a pinned container. */
  lemma StepIsResized(c: Container, a: Action, policy: Policy, g: bool) returns (cpu: nat, mem: nat)
    requires PlanOne(c, a, policy, g).Some?
    ensures After(c, a, policy, g) == Resized(c, cpu, mem, policy, g)
    ensures cpu > 0 && mem > 0
    ensures g ==> mem >= Amount(c.requests, Memory)
  {
    var curMem := Amount(c.requests, Memory);
    match a
    case Resize(targets) =>
      var target := targets[c.name];
      cpu := StepClamp(Amount(c.requests, CPU), Amount(target, CPU), policy);
      mem := SteppedMemory(c, Amount(target, Memory), policy, g);
      StepClampBetween(Amount(c.requests, CPU), Amount(target, CPU), policy);
      StepClampBetween(curMem, Amount(target, Memory), policy);
    case Bump(oom, caps) =>
      cpu := Amount(c.requests, CPU);
      mem := if c.name in caps && curMem * 3 / 2 > caps[c.name] then caps[c.name] else curMem * 3 / 2;
  }

  /** The shape of a container survives every step: which requests and limits it
      has, positive requests, and equality when pinned. */
  lemma StepKeepsShape(c: Container, a: Action, policy: Policy, g: bool)
    requires (g ==> Pinned(c)) && Fits(c)
    ensures var d := After(c, a, policy, g);
            && d.requests.Keys == c.requests.Keys
            && d.limits.Keys == c.limits.Keys
            && (HasRequests(c) ==> HasRequests(d))
            && (g ==> Pinned(d))
  {
    if PlanOne(c, a, policy, g).Some? {
      var cpu, mem := StepIsResized(c, a, policy, g);
    }
  }

  lemma StepKeepsPinned(c: Container, a: Action, policy: Policy)
    requires Pinned(c)
    ensures Pinned(After(c, a, policy, true))
    ensures After(c, a, policy, true).requests.Keys == c.requests.Keys
  {}

  /** Requests stay within limits. */
  lemma StepKeepsFit(c: Container, a: Action, policy: Policy, g: bool)
    requires Fits(c)
    ensures Fits(After(c, a, policy, g))
  {
    if PlanOne(c, a, policy, g).Some? {
      var cpu, mem := StepIsResized(c, a, policy, g);
      if CPU in c.limits {
        ScaleLimitBounds(cpu, c.limits[CPU], Amount(c.requests, CPU));
      }
      if Memory in c.limits {
        ScaleLimitBounds(mem, c.limits[Memory], Amount(c.requests, Memory));
      }
    }
  }

  /** Memory limits never shrink. */
  lemma StepKeepsMemoryLimit(c: Container, a: Action, policy: Policy, g: bool)
    requires g ==> Pinned(c)
    requires Memory in c.limits
    ensures var d := After(c, a, policy, g);
            Memory in d.limits && d.limits[Memory] >= c.limits[Memory]
  {
    if PlanOne(c, a, policy, g).Some? {
      var cpu, mem := StepIsResized(c, a, policy, g);
    }
  }

  lemma StepKeepsSound(pod: Pod, a: Action, policy: Policy)
    requires Sound(pod)
    ensures Sound(StepPod(pod, a, policy))
    ensures QosClass(pod) == Guaranteed ==> QosClass(StepPod(pod, a, policy)) == Guaranteed
    ensures PodFits(pod) ==> PodFits(StepPod(pod, a, policy))
  {
    StepIsPointwise(pod, a, policy);
    var after := StepPod(pod, a, policy);
    var g := QosClass(pod) == Guaranteed;
    forall i | 0 <= i < |pod.containers|
      ensures g ==> Pinned(after.containers[i]) && after.containers[i].requests.Keys == pod.containers[i].requests.Keys
      ensures Fits(pod.containers[i]) ==> Fits(after.containers[i])
    {
      if g {
        StepKeepsPinned(pod.containers[i], a, policy);
      }
      if Fits(pod.containers[i]) {
        StepKeepsFit(pod.containers[i], a, policy, g);
      }
    }
    if g && pod.statusQos.None? {
      var i := SomeRequest(pod.containers);
      QosOfRequesting(after.containers, i);
    }
  }

  // ---------- What one plan looks like from outside ----------

  /** A resize moves no request by more than the step of its direction. */
  lemma StepCapHolds(c: Container, targets: Targets, policy: Policy, g: bool, r: ResourceName)
    requires Fits(c) && c.name in targets && r in {CPU, Memory}
    ensures var cur, amount := Amount(c.requests, r), Amount(After(c, Resize(targets), policy, g).requests, r);
            amount <= cur + cur * policy.stepUp / 100 && amount >= cur - cur * policy.stepDown / 100
  {
    StepCapOf(Amount(c.requests, CPU), Amount(targets[c.name], CPU), policy);
    StepCapOf(Amount(c.requests, Memory), Amount(targets[c.name], Memory), policy);
  }

  lemma StepCapOf(current: nat, desired: nat, policy: Policy)
    ensures var x := StepClamp(current, desired, policy);
            x <= current + current * policy.stepUp / 100 && x >= current - current * policy.stepDown / 100
    ensures current * policy.stepUp / 100 >= 0 && current * policy.stepDown / 100 >= 0
  {}

  /** The limit lies within one truncated unit of the old ratio to the request. */
  predicate KeepsRatio(newLimit: nat, newRequest: nat, limit: nat, request: nat) {
    newLimit * request <= newRequest * limit < (newLimit + 1) * request
  }

  /** It stays if the ratio would not raise it by a whole unit, and keeps the ratio if not. */
  predicate StaysOrKeepsRatio(newLimit: nat, newRequest: nat, limit: nat, request: nat) {
    if newRequest * limit < (limit + 1) * request then newLimit == limit
    else KeepsRatio(newLimit, newRequest, limit, request)
  }

  lemma ScaledKeepsRatio(amount: nat, limit: nat, request: nat)
    requires request > 0
    ensures KeepsRatio(ScaleLimit(amount, limit, request), amount, limit, request)
  {
    QuotientBounds(amount * limit, request, amount * limit / request);
    QuotientBounds(amount * limit, request, amount * limit / request + 1);
  }

  lemma ResizedMemoryLimit(c: Container, cpu: nat, mem: nat, policy: Policy)
    requires HasRequests(c) && policy.controlled == RequestsAndLimits && Memory in c.limits
    ensures var (d, limit, request) := (Resized(c, cpu, mem, policy, false), c.limits[Memory], c.requests[Memory]);
            StaysOrKeepsRatio(d.limits[Memory], mem, limit, request)
  {
    QuotientBounds(mem * c.limits[Memory], c.requests[Memory], c.limits[Memory] + 1);
    ScaledKeepsRatio(mem, c.limits[Memory], c.requests[Memory]);
  }

  lemma ResizedCpuLimit(c: Container, cpu: nat, mem: nat, policy: Policy)
    requires HasRequests(c) && policy.controlled == RequestsAndLimits && CPU in c.limits
    ensures KeepsRatio(Resized(c, cpu, mem, policy, false).limits[CPU], cpu, c.limits[CPU], c.requests[CPU])
  {
    ScaledKeepsRatio(cpu, c.limits[CPU], c.requests[CPU]);
  }

  lemma RatioOfItself(limit: nat, request: nat)
    requires request > 0
    ensures KeepsRatio(limit, request, limit, request) && StaysOrKeepsRatio(limit, request, limit, request)
  {
    assert (limit + 1) * request == limit * request + request;
  }

  /** After any resize or bump with limits controlled, on a pod that is not Guaranteed: a
      CPU limit keeps its ratio to the request up to one truncated unit; a memory limit
      stays exactly when keeping the ratio would not raise it, and keeps the ratio
      otherwise. */
  lemma LimitsKeepRatio(c: Container, a: Action, policy: Policy)
    requires HasRequests(c) && policy.controlled == RequestsAndLimits
    ensures var d := After(c, a, policy, false);
            && (CPU in c.limits ==>
                  KeepsRatio(Amount(d.limits, CPU), Amount(d.requests, CPU),
                             Amount(c.limits, CPU), Amount(c.requests, CPU)))
            && (Memory in c.limits ==>
                  StaysOrKeepsRatio(Amount(d.limits, Memory), Amount(d.requests, Memory),
                                    Amount(c.limits, Memory), Amount(c.requests, Memory)))
  {
    if PlanOne(c, a, policy, false).Some? {
      var cpu, mem := StepIsResized(c, a, policy, false);
      if CPU in c.limits {
        ResizedCpuLimit(c, cpu, mem, policy);
      }
      if Memory in c.limits {
        ResizedMemoryLimit(c, cpu, mem, policy);
      }
    } else {
      if CPU in c.limits {
        RatioOfItself(c.limits[CPU], c.requests[CPU]);
      }
      if Memory in c.limits {
        RatioOfItself(c.limits[Memory], c.requests[Memory]);
      }
    }
  }

  /** With requests only controlled a step leaves the limits of such a pod alone; on a
      Guaranteed one it sets them to the requests; no step sets a limit that was absent. */
  lemma LimitsOtherwise(c: Container, a: Action, policy: Policy, g: bool)
    requires g ==> Pinned(c)
    ensures var d := After(c, a, policy, g);
            && (policy.controlled == RequestsOnly && !g ==> d.limits == c.limits)
            && (g ==> CPU in d.limits && Memory in d.limits && CPU in d.requests && Memory in d.requests &&
                      d.limits[CPU] == d.requests[CPU] && d.limits[Memory] == d.requests[Memory])
            && (!g ==> d.limits.Keys == c.limits.Keys)
  {
    if PlanOne(c, a, policy, g).Some? {
      var cpu, mem := StepIsResized(c, a, policy, g);
    }
  }

  /** A bump aims at one and a half times the memory, or the cap below that; an
      untouched limit is the only thing that can cut it short. */
  lemma BumpAmount(c: Container, oom: set<string>, caps: map<string, nat>, policy: Policy, g: bool)
    requires PlanOne(c, Bump(oom, caps), policy, g).Some?
    ensures var cur := Amount(c.requests, Memory);
            var amount := Amount(After(c, Bump(oom, caps), policy, g).requests, Memory);
            || amount == cur * 3 / 2
            || (c.name in caps && amount == caps[c.name] < cur * 3 / 2)
            || (policy.controlled == RequestsOnly && !g && Memory in c.limits && amount == c.limits[Memory])
  {}

  predicate RisesAt(pod: Pod, after: Pod, i: nat)
    requires i < |pod.containers| && i < |after.containers|
  {
    || Amount(after.containers[i].requests, CPU) > Amount(pod.containers[i].requests, CPU)
    || Amount(after.containers[i].requests, Memory) > Amount(pod.containers[i].requests, Memory)
  }

  /** The direction of a resize plan, which picks the cooldown, says whether applying the
      plan raises any request of the pod. */
  lemma DirectionExactly(pod: Pod, targets: Targets, policy: Policy)
    requires UniqueNames(pod.containers) && PlanFor(pod, Resize(targets), policy).Some?
    ensures var after := StepPod(pod, Resize(targets), policy);
            && |after.containers| == |pod.containers|
            && (PlanFor(pod, Resize(targets), policy).value.direction == Up <==>
                  exists i :: 0 <= i < |pod.containers| && RisesAt(pod, after, i))
  {
    var a, g := Resize(targets), QosClass(pod) == Guaranteed;
    var after := StepPod(pod, a, policy);
    StepIsPointwise(pod, a, policy);
    forall i | 0 <= i < |pod.containers|
      ensures RisesAt(pod, after, i) <==>
              PlanOne(pod.containers[i], a, policy, g).Some? &&
              Raises(pod.containers[i], PlanOne(pod.containers[i], a, policy, g).value)
    {
    }
    if AnyRaise(pod.containers, a, policy, g) {
      var i :| 0 <= i < |pod.containers| && PlanOne(pod.containers[i], a, policy, g).Some? &&
               Raises(pod.containers[i], PlanOne(pod.containers[i], a, policy, g).value);
      assert RisesAt(pod, after, i);
    }
    forall i | 0 <= i < |pod.containers| && RisesAt(pod, after, i) ensures AnyRaise(pod.containers, a, policy, g) {
      assert pod.containers[i] in pod.containers;
    }
  }
}
