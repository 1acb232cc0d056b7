/** What every run of resizes and OOM bumps keeps about a pod's QoS class and
    memory limits, and exactly when one step changes the class. */
module QosRuns {
  import opened Resources
  import opened Planner
  import opened PodRuns
  import opened Settling

  // ---------- Guaranteed pods ----------

  /** A Guaranteed pod stays Guaranteed, whatever is planned and in both modes. */
  lemma {:induction false} GuaranteedForever(pod: Pod, rounds: seq<Round>)
    requires Sound(pod) && QosClass(pod) == Guaranteed
    ensures var after := Run(pod, rounds);
            && Sound(after) && QosClass(after) == Guaranteed
            && forall c <- after.containers :: Pinned(c)
  {
    if rounds != [] {
      var front, last := rounds[..|rounds| - 1], rounds[|rounds| - 1];
      GuaranteedForever(pod, front);
      StepKeepsSound(Run(pod, front), last.action, last.policy);
    }
  }

  // ---------- Every pod ----------

  /** Any run keeps the containers, their names and which requests and limits they have. */
  lemma {:induction false} RunKeepsShape(pod: Pod, rounds: seq<Round>)
    requires Sound(pod) && PodFits(pod)
    ensures var after := Run(pod, rounds);
            && Sound(after) && PodFits(after)
            && after == pod.(containers := after.containers)
            && |after.containers| == |pod.containers|
            && forall i :: 0 <= i < |pod.containers| ==>
                 && after.containers[i].name == pod.containers[i].name
                 && after.containers[i].requests.Keys == pod.containers[i].requests.Keys
                 && after.containers[i].limits.Keys == pod.containers[i].limits.Keys
                 && (HasRequests(pod.containers[i]) ==> HasRequests(after.containers[i]))
  {
    if rounds != [] {
      var front, last := rounds[..|rounds| - 1], rounds[|rounds| - 1];
      var a, policy := last.action, last.policy;
      var before := Run(pod, front);
      RunKeepsShape(pod, front);
      StepKeepsSound(before, a, policy);
      StepIsPointwise(before, a, policy);
      forall i | 0 <= i < |before.containers|
        ensures var c, d := before.containers[i], StepPod(before, a, policy).containers[i];
                && d.name == c.name && d.requests.Keys == c.requests.Keys && d.limits.Keys == c.limits.Keys
                && (HasRequests(c) ==> HasRequests(d))
      {
        StepKeepsShape(before.containers[i], a, policy, QosClass(before) == Guaranteed);
      }
    }
  }

  /** No run lowers a container's memory limit, for any class and mode. */
  lemma {:induction false} MemoryLimitsNeverShrink(pod: Pod, rounds: seq<Round>, i: nat)
    requires Sound(pod) && i < |pod.containers| && Memory in pod.containers[i].limits
    ensures var after := Run(pod, rounds);
            && Sound(after) && |after.containers| == |pod.containers|
            && Memory in after.containers[i].limits
            && after.containers[i].limits[Memory] >= pod.containers[i].limits[Memory]
  {
    if rounds != [] {
      var front, last := rounds[..|rounds| - 1], rounds[|rounds| - 1];
      var a, policy := last.action, last.policy;
      var before := Run(pod, front);
      MemoryLimitsNeverShrink(pod, front, i);
      StepKeepsSound(before, a, policy);
      StepIsPointwise(before, a, policy);
      StepKeepsMemoryLimit(before.containers[i], a, policy, QosClass(before) == Guaranteed);
    }
  }

  // ---------- Burstable pods ----------

  predicate MemorySlack(c: Container) {
    Memory in c.requests && Memory in c.limits && c.requests[Memory] < c.limits[Memory]
  }

  ghost predicate LimitsControlled(rounds: seq<Round>) {
    forall r <- rounds :: r.policy.controlled == RequestsAndLimits
  }

  /** A container that no pass of the run can pin: it lacks a request or a limit, or
      limits are controlled throughout and its memory limit is above its request. */
  ghost predicate NeverPins(c: Container, rounds: seq<Round>) {
    || CPU !in c.requests || CPU !in c.limits || Memory !in c.requests || Memory !in c.limits
    || (LimitsControlled(rounds) && MemorySlack(c))
  }

  lemma SlackGrows(n: nat, limit: nat, request: nat)
    requires request < limit && request <= n
    ensures n * limit >= (n + 1) * request
  {
    var slack: nat := limit - request;
    assert n * limit == n * request + n * slack;
    FactorGrows(n, slack);
    assert (n + 1) * request == n * request + request;
  }

  lemma FactorGrows(n: nat, slack: nat)
    requires slack > 0
    ensures n * slack >= n
  {
    assert n * slack == n + n * (slack - 1);
  }

  lemma ScaledSlack(amount: nat, limit: nat, request: nat)
    requires 0 < request < limit
    ensures Max(ScaleLimit(amount, limit, request), limit) > amount
  {
    if amount >= limit {
      SlackGrows(amount, limit, request);
      QuotientBounds(amount * limit, request, amount + 1);
    }
  }

  lemma ScaledAtPar(amount: nat, limit: nat)
    requires limit > 0
    ensures ScaleLimit(amount, limit, limit) == amount
  {
    QuotientBounds(amount * limit, limit, amount);
    QuotientBounds(amount * limit, limit, amount + 1);
    assert (amount + 1) * limit > amount * limit;
  }

  lemma ResizedKeepsMemorySlack(c: Container, cpu: nat, mem: nat, policy: Policy)
    requires HasRequests(c) && MemorySlack(c) && policy.controlled == RequestsAndLimits
    ensures MemorySlack(Resized(c, cpu, mem, policy, false))
  {
    ScaledSlack(mem, c.limits[Memory], c.requests[Memory]);
  }

  /** Memory slack survives each step of a pod whose limits are controlled. */
  lemma StepKeepsMemorySlack(c: Container, a: Action, policy: Policy)
    requires MemorySlack(c) && policy.controlled == RequestsAndLimits
    ensures MemorySlack(After(c, a, policy, false))
  {
    if PlanOne(c, a, policy, false).Some? {
      var cpu, mem := StepIsResized(c, a, policy, false);
      ResizedKeepsMemorySlack(c, cpu, mem, policy);
    }
  }

  lemma PodStepKeepsMemorySlack(pod: Pod, a: Action, policy: Policy, i: nat)
    requires Sound(pod) && policy.controlled == RequestsAndLimits
    requires i < |pod.containers| && MemorySlack(pod.containers[i])
    ensures |StepPod(pod, a, policy).containers| == |pod.containers|
    ensures MemorySlack(StepPod(pod, a, policy).containers[i])
  {
    assert QosClass(pod) != Guaranteed by {
      assert pod.containers[i] in pod.containers;
    }
    StepIsPointwise(pod, a, policy);
    StepKeepsMemorySlack(pod.containers[i], a, policy);
  }

  lemma {:induction false} RunKeepsMemorySlack(pod: Pod, rounds: seq<Round>, i: nat)
    requires Sound(pod) && PodFits(pod) && i < |pod.containers|
    requires LimitsControlled(rounds) && MemorySlack(pod.containers[i])
    ensures |Run(pod, rounds).containers| == |pod.containers|
    ensures MemorySlack(Run(pod, rounds).containers[i])
  {
    if rounds != [] {
      var front, last := rounds[..|rounds| - 1], rounds[|rounds| - 1];
      assert last in rounds;
      RunKeepsMemorySlack(pod, front, i);
      RunKeepsShape(pod, front);
      PodStepKeepsMemorySlack(Run(pod, front), last.action, last.policy, i);
    }
  }

  /** A Burstable pod with a container that never pins stays Burstable for good. */
  lemma BurstableForever(pod: Pod, rounds: seq<Round>, i: nat)
    requires Sound(pod) && PodFits(pod)
    requires SpecQos(pod.containers) == Burstable
    requires i < |pod.containers| && NeverPins(pod.containers[i], rounds)
    ensures var after := Run(pod, rounds);
            && Sound(after) && PodFits(after) && |after.containers| == |pod.containers|
            && NeverPins(after.containers[i], rounds)
            && SpecQos(after.containers) == Burstable
            && (LimitsControlled(rounds) && MemorySlack(pod.containers[i]) ==> MemorySlack(after.containers[i]))
  {
    RunKeepsShape(pod, rounds);
    var after := Run(pod, rounds);
    if LimitsControlled(rounds) && MemorySlack(pod.containers[i]) {
      RunKeepsMemorySlack(pod, rounds, i);
    }
    var j := SomeRequest(pod.containers);
    QosOfRequesting(after.containers, j);
  }

  // ---------- Exactly when one step turns a Burstable pod Guaranteed ----------

  /** Giving the container these requests leaves its limits equal to them. */
  predicate CollapsesAt(c: Container, cpu: nat, mem: nat, policy: Policy) {
    && CPU in c.requests && CPU in c.limits && Memory in c.requests && Memory in c.limits
    && if policy.controlled == RequestsOnly
       then cpu >= c.limits[CPU] && mem >= c.limits[Memory]
       else && cpu * c.limits[CPU] < (cpu + 1) * c.requests[CPU]
            && c.requests[Memory] == c.limits[Memory] <= mem
  }

  /** The step pins the container. Only quantities known before the step are read: the
      container, the action, and the requests aimed for. */
  predicate Collapses(c: Container, a: Action, policy: Policy) {
    if Unmoved(c, a, policy, false) then Pinned(c)
    else var (cpu, mem) := Aim(c, a, policy); CollapsesAt(c, cpu, mem, policy)
  }

  /** The requests a step aims for on a container of a pod that is not Guaranteed. */
  function Aim(c: Container, a: Action, policy: Policy): (nat, nat) {
    var curCpu, curMem := Amount(c.requests, CPU), Amount(c.requests, Memory);
    match a
    case Resize(targets) =>
      if c.name in targets
      then (StepClamp(curCpu, Amount(targets[c.name], CPU), policy),
            StepClamp(curMem, Amount(targets[c.name], Memory), policy))
      else (curCpu, curMem)
    case Bump(_, caps) =>
      (curCpu, if c.name in caps && curMem * 3 / 2 > caps[c.name] then caps[c.name] else curMem * 3 / 2)
  }

  lemma AimIsResized(c: Container, a: Action, policy: Policy)
    requires PlanOne(c, a, policy, false).Some?
    ensures var (cpu, mem) := Aim(c, a, policy);
            After(c, a, policy, false) == Resized(c, cpu, mem, policy, false)
  {}

  lemma CollapsesAtExactly(c: Container, cpu: nat, mem: nat, policy: Policy)
    requires Fits(c) && HasRequests(c)
    ensures Pinned(Resized(c, cpu, mem, policy, false)) <==> CollapsesAt(c, cpu, mem, policy)
  {
    if CPU in c.limits && Memory in c.limits && policy.controlled == RequestsAndLimits {
      var req, lim := c.requests[Memory], c.limits[Memory];
      ScaleLimitBounds(cpu, c.limits[CPU], c.requests[CPU]);
      if lim > req {
        ScaledSlack(mem, lim, req);
      } else {
        ScaledAtPar(mem, lim);
      }
    }
  }

  lemma CollapsesExactly(c: Container, a: Action, policy: Policy)
    requires Fits(c)
    ensures Pinned(After(c, a, policy, false)) <==> Collapses(c, a, policy)
  {
    UnmovedExactly(c, a, policy, false);
    if PlanOne(c, a, policy, false).Some? {
      AimIsResized(c, a, policy);
      var (cpu, mem) := Aim(c, a, policy);
      CollapsesAtExactly(c, cpu, mem, policy);
    }
  }

  /** The class of a Burstable pod changes in a step if and only if every container
      collapses, and then it changes to Guaranteed. */
  lemma QosChangesExactly(pod: Pod, a: Action, policy: Policy)
    requires Sound(pod) && PodFits(pod)
    requires QosClass(pod) == SpecQos(pod.containers) == Burstable
    ensures SpecQos(StepPod(pod, a, policy).containers) ==
            if forall c <- pod.containers :: Collapses(c, a, policy) then Guaranteed else Burstable
  {
    StepIsPointwise(pod, a, policy);
    var after := StepPod(pod, a, policy);
    forall i | 0 <= i < |pod.containers|
      ensures Pinned(after.containers[i]) <==> Collapses(pod.containers[i], a, policy)
      ensures after.containers[i].requests.Keys == pod.containers[i].requests.Keys
    {
      CollapsesExactly(pod.containers[i], a, policy);
      StepKeepsShape(pod.containers[i], a, policy, false);
    }
    var j := SomeRequest(pod.containers);
    QosOfRequesting(after.containers, j);
    assert forall i :: 0 <= i < |pod.containers| ==> pod.containers[i] in pod.containers;
  }

  // ---------- Exactly when a run does ----------

  /** Pass k of the run collapses every container. */
  ghost predicate CollapsesIn(pod: Pod, rounds: seq<Round>, k: nat)
    requires k < |rounds|
  {
    forall c <- Run(pod, rounds[..k]).containers :: Collapses(c, rounds[k].action, rounds[k].policy)
  }

  /** The class that the containers have after the first k passes. */
  function ClassAfter(pod: Pod, rounds: seq<Round>, k: nat): QoS
    requires k <= |rounds|
  {
    SpecQos(Run(pod, rounds[..k]).containers)
  }

  lemma OneMoreRound(pod: Pod, rounds: seq<Round>, k: nat)
    requires k < |rounds|
    ensures Run(pod, rounds[..k + 1]) == StepPod(Run(pod, rounds[..k]), rounds[k].action, rounds[k].policy)
  {
    assert rounds[..k + 1][..k] == rounds[..k];
  }

  lemma NeverBestEffort(pod: Pod, rounds: seq<Round>, k: nat)
    requires Sound(pod) && PodFits(pod) && SpecQos(pod.containers) != BestEffort && k <= |rounds|
    ensures ClassAfter(pod, rounds, k) != BestEffort
  {
    RunKeepsShape(pod, rounds[..k]);
    var j := SomeRequest(pod.containers);
    QosOfRequesting(Run(pod, rounds[..k]).containers, j);
  }

  /** A pass that still finds the containers Burstable changes their class exactly when it
      collapses all of them. */
  lemma PassChangesExactly(pod: Pod, rounds: seq<Round>, k: nat)
    requires Sound(pod) && PodFits(pod) && QosClass(pod) == SpecQos(pod.containers) == Burstable
    requires k < |rounds| && ClassAfter(pod, rounds, k) == Burstable
    ensures ClassAfter(pod, rounds, k + 1) == if CollapsesIn(pod, rounds, k) then Guaranteed else Burstable
  {
    RunKeepsShape(pod, rounds[..k]);
    OneMoreRound(pod, rounds, k);
    QosChangesExactly(Run(pod, rounds[..k]), rounds[k].action, rounds[k].policy);
  }

  lemma {:induction false} BurstableUntilCollapse(pod: Pod, rounds: seq<Round>, k: nat)
    requires Sound(pod) && PodFits(pod) && QosClass(pod) == SpecQos(pod.containers) == Burstable
    requires k <= |rounds| && forall j :: 0 <= j < k ==> !CollapsesIn(pod, rounds, j)
    ensures ClassAfter(pod, rounds, k) == Burstable
  {
    if k > 0 {
      BurstableUntilCollapse(pod, rounds, k - 1);
      PassChangesExactly(pod, rounds, k - 1);
    } else {
      assert rounds[..0] == [];
    }
  }

  lemma GuaranteedNext(pod: Pod, rounds: seq<Round>, k: nat)
    requires Sound(pod) && PodFits(pod) && pod.statusQos.None? && k < |rounds|
    requires ClassAfter(pod, rounds, k) == Guaranteed
    ensures ClassAfter(pod, rounds, k + 1) == Guaranteed
  {
    RunKeepsShape(pod, rounds[..k]);
    OneMoreRound(pod, rounds, k);
    var before, r := Run(pod, rounds[..k]), rounds[k];
    StepKeepsSound(before, r.action, r.policy);
    StepIsPointwise(before, r.action, r.policy);
  }

  /** A pod without a reported class that has once become Guaranteed stays so. */
  lemma {:induction false} GuaranteedFrom(pod: Pod, rounds: seq<Round>, k: nat, n: nat)
    requires Sound(pod) && PodFits(pod) && pod.statusQos.None? && k <= n <= |rounds|
    requires ClassAfter(pod, rounds, k) == Guaranteed
    ensures ClassAfter(pod, rounds, n) == Guaranteed
  {
    if k < n {
      GuaranteedFrom(pod, rounds, k, n - 1);
      GuaranteedNext(pod, rounds, n - 1);
    }
  }

  /** Over a whole run the class of a Burstable pod changes if and only if some pass
      collapses every container; a pod without a reported class then ends Guaranteed. */
  lemma RunChangesExactly(pod: Pod, rounds: seq<Round>)
    requires Sound(pod) && PodFits(pod)
    requires QosClass(pod) == SpecQos(pod.containers) == Burstable
    ensures (exists k :: 0 <= k <= |rounds| && ClassAfter(pod, rounds, k) != Burstable) <==>
            (exists k :: 0 <= k < |rounds| && CollapsesIn(pod, rounds, k))
    ensures pod.statusQos.None? ==>
              (ClassAfter(pod, rounds, |rounds|) == Guaranteed <==>
                 exists k :: 0 <= k < |rounds| && CollapsesIn(pod, rounds, k))
  {
    if k :| 0 <= k < |rounds| && CollapsesIn(pod, rounds, k) {
      var j := if ClassAfter(pod, rounds, k) == Burstable then k + 1 else k;
      if j == k + 1 {
        PassChangesExactly(pod, rounds, k);
      }
      NeverBestEffort(pod, rounds, j);
      assert ClassAfter(pod, rounds, j) == Guaranteed;
      if pod.statusQos.None? {
        GuaranteedFrom(pod, rounds, j, |rounds|);
      }
    } else {
      forall k | 0 <= k <= |rounds| ensures ClassAfter(pod, rounds, k) == Burstable {
        BurstableUntilCollapse(pod, rounds, k);
      }
    }
  }

  function OneContainerPod(c: Container): Pod {
    Pod("pod", [c], None, false, true, [], [])
  }

  /** "The QoS class never changes" is false: capping requests at existing limits
      makes a Burstable pod Guaranteed. */
  lemma RequestsOnlyCanPin()
    ensures var c := Container("app", map[CPU := 100, Memory := 128], map[CPU := 120, Memory := 150]);
            var policy := Policy(RequestsOnly, 0.10, 50, 20);
            var a := Resize(map["app" := map[CPU := 150, Memory := 200]]);
            && SpecQos([c]) == Burstable
            && SpecQos(StepPod(OneContainerPod(c), a, policy).containers) == Guaranteed
  {
    var c := Container("app", map[CPU := 100, Memory := 128], map[CPU := 120, Memory := 150]);
    assert [c][0] == c;
    QosChangesExactly(OneContainerPod(c), Resize(map["app" := map[CPU := 150, Memory := 200]]),
                      Policy(RequestsOnly, 0.10, 50, 20));
  }

  /** It is false with controlled limits too: a CPU decrease can truncate the limit
      down to the request when memory is already pinned. */
  lemma CpuTruncationCanPin()
    ensures var c := Container("app", map[CPU := 5, Memory := 64], map[CPU := 6, Memory := 64]);
            var policy := Policy(RequestsAndLimits, 0.10, 50, 20);
            var a := Resize(map["app" := map[CPU := 4, Memory := 64]]);
            && SpecQos([c]) == Burstable
            && SpecQos(StepPod(OneContainerPod(c), a, policy).containers) == Guaranteed
  {
    var c := Container("app", map[CPU := 5, Memory := 64], map[CPU := 6, Memory := 64]);
    assert [c][0] == c;
    QosChangesExactly(OneContainerPod(c), Resize(map["app" := map[CPU := 4, Memory := 64]]),
                      Policy(RequestsAndLimits, 0.10, 50, 20));
  }
}
