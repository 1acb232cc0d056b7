/** OOM detection, how many bumps a container has left, and what one bump does to that. */
module OomRuns {
  import opened Resources
  import opened Planner
  import opened PodRuns
  import opened Api
  import opened Exponentials

  const OOM_LOOKBACK: int := 15 * MINUTE

  predicate RecentOom(cs: ContainerStatus, now: int) {
    && cs.lastTermination.Some?
    && cs.lastTermination.value.reason == "OOMKilled"
    && now - cs.lastTermination.value.finishedAt <= OOM_LOOKBACK
  }

  /** The containers whose last termination was an OOM kill within the lookback. */
  method OOMKilledContainers(pod: Pod, now: int) returns (names: seq<string>)
    ensures forall n :: n in names <==> exists cs <- pod.statuses :: cs.name == n && RecentOom(cs, now)
    ensures forall n :: n in names <==>
              exists cs <- pod.statuses :: cs.name == n && cs.lastTermination.Some? &&
                cs.lastTermination.value.reason == "OOMKilled" &&
                now <= cs.lastTermination.value.finishedAt + 900_000_000_000
  {
    names := [];
    for i := 0 to |pod.statuses|
      invariant forall n :: n in names <==>
                  exists j :: 0 <= j < i && pod.statuses[j].name == n && RecentOom(pod.statuses[j], now)
    {
      var cs := pod.statuses[i];
      if cs.lastTermination.None? || cs.lastTermination.value.reason != "OOMKilled" {
        continue;
      }
      if now - cs.lastTermination.value.finishedAt <= OOM_LOOKBACK {
        names := names + [cs.name];
      }
    }
  }

  /** What a pass sees of a pod's kills, and when. */
  datatype Moment = Moment(statuses: seq<ContainerStatus>, now: int)

  function KilledAt(m: Moment): set<string> {
    set cs | cs in m.statuses && RecentOom(cs, m.now) :: cs.name
  }

  /** The OOM bump of a pass, capped per container at the configured maximum. */
  function BumpAt(spec: Spec, m: Moment): Action {
    var oom := KilledAt(m);
    Bump(oom, map n | n in oom :: MemoryBounds(spec, n).max)
  }

  function Now(pod: Pod, now: int): Moment {
    Moment(pod.statuses, now)
  }

  /** The fast path has something to do, so the pass does not resize the pod. */
  predicate WantsBump(pod: Pod, spec: Spec, m: Moment) {
    KilledAt(m) != {} && PlanFor(pod, BumpAt(spec, m), DefaultPolicy(spec)).Some?
  }

  /** The container is at a memory limit that the mode leaves alone, so its bump is
      capped back to where it started: a plan that changes nothing. */
  predicate AtUntouchedLimit(c: Container, policy: Policy, g: bool) {
    policy.controlled == RequestsOnly && !g && Memory in c.limits && c.limits[Memory] <= Amount(c.requests, Memory)
  }

  /** A planned bump raises memory exactly when no untouched limit is in the way. */
  lemma BumpRaisesExactly(c: Container, a: Action, policy: Policy, g: bool)
    requires a.Bump? && Fits(c) && PlanOne(c, a, policy, g).Some?
    ensures Amount(After(c, a, policy, g).requests, Memory) > Amount(c.requests, Memory) <==>
            !AtUntouchedLimit(c, policy, g)
  {}

  // ---------- How many bumps a container takes ----------

  function Raised(mem: nat, cap: nat): nat {
    if mem * 3 / 2 > cap then cap else mem * 3 / 2
  }

  /** The bumps from this much memory on until the cap stops them. */
  function BumpsLeft(mem: nat, cap: nat): nat
    decreases if mem < cap then cap - mem else 0
  {
    if Raised(mem, cap) <= mem then 0 else 1 + BumpsLeft(Raised(mem, cap), cap)
  }

  function Left(c: Container, spec: Spec): nat {
    if HasRequests(c) then BumpsLeft(Amount(c.requests, Memory), MemoryBounds(spec, c.name).max) else 0
  }

  lemma ChainFactors(p: nat, q: nat, mem: nat, next: nat, cap: nat)
    requires 2 * (next - 1) >= 3 * (mem - 1) && p * (next - 1) < q * (cap - 1)
    ensures 3 * p * (mem - 1) < 2 * q * (cap - 1)
  {
    assert p * (2 * (next - 1)) >= p * (3 * (mem - 1));
    assert 2 * (p * (next - 1)) < 2 * (q * (cap - 1));
  }

  /** There are only logarithmically many: more than k of them only when the cap is more
      than 1.5^k times away. */
  lemma {:induction false} BumpsAreLogarithmic(mem: nat, cap: nat, k: nat)
    requires BumpsLeft(mem, cap) > k
    ensures IntPower(3, k) * (mem - 1) < IntPower(2, k) * (cap - 1)
    decreases k
  {
    if k > 0 {
      var next := Raised(mem, cap);
      BumpsAreLogarithmic(next, cap, k - 1);
      ChainFactors(IntPower(3, k - 1), IntPower(2, k - 1), mem, next, cap);
    }
  }

  // ---------- One container over a bump ----------

  /** An untouched memory limit below the cap. */
  predicate Walled(c: Container, spec: Spec, g: bool) {
    && DefaultPolicy(spec).controlled == RequestsOnly && !g
    && HasRequests(c) && Memory in c.limits && c.limits[Memory] < MemoryBounds(spec, c.name).max
  }

  /** Bumping runs into such a limit and never gets past it; a single byte is not bumped. */
  predicate Trapped(c: Container, spec: Spec, g: bool) {
    Walled(c, spec, g) && Amount(c.requests, Memory) >= 2
  }

  lemma BumpPlannedExactly(c: Container, spec: Spec, m: Moment, g: bool)
    requires Fits(c)
    ensures PlanOne(c, BumpAt(spec, m), DefaultPolicy(spec), g).Some? <==> c.name in KilledAt(m) && Left(c, spec) > 0
  {}

  /** A container that is not trapped uses up one of its bumps, and stays untrapped. */
  lemma BumpUsesOne(c: Container, spec: Spec, m: Moment, g: bool)
    requires Fits(c) && !Trapped(c, spec, g)
    ensures var d := After(c, BumpAt(spec, m), DefaultPolicy(spec), g);
            && !Trapped(d, spec, g)
            && Left(d, spec) == if c.name in KilledAt(m) && Left(c, spec) > 0 then Left(c, spec) - 1 else Left(c, spec)
  {}

  /** A trapped one is always planned for once killed, and stays trapped. */
  lemma TrappedStaysTrapped(c: Container, spec: Spec, m: Moment, g: bool)
    requires Fits(c) && Trapped(c, spec, g)
    ensures Left(c, spec) > 0
    ensures Trapped(After(c, BumpAt(spec, m), DefaultPolicy(spec), g), spec, g)
  {}

  lemma LeftExactly(c: Container, spec: Spec)
    ensures Left(c, spec) > 0 <==>
            HasRequests(c) && 2 <= Amount(c.requests, Memory) < MemoryBounds(spec, c.name).max
  {}

  /** No step puts such a limit there or takes it away. */
  lemma WalledStays(c: Container, a: Action, spec: Spec, g: bool)
    requires Fits(c) && (g ==> Pinned(c))
    ensures Walled(After(c, a, DefaultPolicy(spec), g), spec, g) <==> Walled(c, spec, g)
  {
    StepKeepsShape(c, a, DefaultPolicy(spec), g);
  }

  // ---------- The bumps a pod has left ----------

  lemma WantsBumpExactly(pod: Pod, spec: Spec, m: Moment)
    requires PodFits(pod)
    ensures WantsBump(pod, spec, m) <==>
            exists i :: 0 <= i < |pod.containers| && pod.containers[i].name in KilledAt(m) &&
                        Left(pod.containers[i], spec) > 0
  {
    var a, policy, g := BumpAt(spec, m), DefaultPolicy(spec), QosClass(pod) == Guaranteed;
    forall i | 0 <= i < |pod.containers|
      ensures PlanOne(pod.containers[i], a, policy, g).Some? <==>
              pod.containers[i].name in KilledAt(m) && Left(pod.containers[i], spec) > 0
    {
      BumpPlannedExactly(pod.containers[i], spec, m, g);
    }
    if WantsBump(pod, spec, m) {
      var i := SomePlanned(pod.containers, a, policy, g);
    }
    if i: nat :| i < |pod.containers| && PlanOne(pod.containers[i], a, policy, g).Some? {
      PlannedMeansChanges(pod.containers, a, policy, g, i);
    }
  }

  function TotalLeft(cs: seq<Container>, spec: Spec): nat {
    if cs == [] then 0 else TotalLeft(cs[..|cs| - 1], spec) + Left(cs[|cs| - 1], spec)
  }

  lemma {:induction false} LeftMonotone(cs: seq<Container>, ds: seq<Container>, spec: Spec)
    requires |cs| == |ds| && forall i :: 0 <= i < |cs| ==> Left(ds[i], spec) <= Left(cs[i], spec)
    ensures TotalLeft(ds, spec) <= TotalLeft(cs, spec)
    ensures (exists i :: 0 <= i < |cs| && Left(ds[i], spec) < Left(cs[i], spec)) ==>
            TotalLeft(ds, spec) < TotalLeft(cs, spec)
  {
    if cs != [] {
      var n := |cs| - 1;
      LeftMonotone(cs[..n], ds[..n], spec);
      forall i | 0 <= i < n && Left(ds[i], spec) < Left(cs[i], spec)
        ensures TotalLeft(ds[..n], spec) < TotalLeft(cs[..n], spec)
      {
        assert Left(ds[..n][i], spec) < Left(cs[..n][i], spec);
      }
    }
  }

  /** The most bumps that any of the killed containers has left. */
  function MostLeft(cs: seq<Container>, oom: set<string>, spec: Spec): nat {
    if cs == [] then 0
    else
      var c := cs[|cs| - 1];
      Max(MostLeft(cs[..|cs| - 1], oom, spec), if c.name in oom then Left(c, spec) else 0)
  }

  lemma {:induction false} MostLeftExceeds(cs: seq<Container>, oom: set<string>, spec: Spec, k: nat)
    ensures MostLeft(cs, oom, spec) > k <==> exists i :: 0 <= i < |cs| && cs[i].name in oom && Left(cs[i], spec) > k
  {
    if cs != [] {
      var n := |cs| - 1;
      MostLeftExceeds(cs[..n], oom, spec, k);
      if i: nat :| i < n && cs[..n][i].name in oom && Left(cs[..n][i], spec) > k {
        assert cs[i].name in oom && Left(cs[i], spec) > k;
      }
      if i: nat :| i < n && cs[i].name in oom && Left(cs[i], spec) > k {
        assert cs[..n][i].name in oom && Left(cs[..n][i], spec) > k;
      }
    }
  }

  function Minus(a: nat, b: nat): nat {
    if a < b then 0 else a - b
  }

  // ---------- A concrete trapped pod ----------

  const AT_LIMIT := Container("app", map[CPU := 100, Memory := 128], map[Memory := 128])

  function KilledPod(now: int): Pod {
    Pod("pod", [AT_LIMIT], Some(Burstable), false, true, [],
        [ContainerStatus("app", Some(Termination("OOMKilled", now)))])
  }

  function LimitsUntouched(): Spec {
    Spec(Bounds(0, 1000), Bounds(0, 1024), Some(RequestsOnly), [], None, None, None, InPlaceOnly)
  }

  lemma KilledNow(now: int)
    ensures "app" in KilledAt(Now(KilledPod(now), now))
  {
    var cs := KilledPod(now).statuses[0];
    assert cs in KilledPod(now).statuses && RecentOom(cs, now);
  }

  lemma BumpChangesNothing(m: Moment)
    ensures After(AT_LIMIT, BumpAt(LimitsUntouched(), m), DefaultPolicy(LimitsUntouched()), false) == AT_LIMIT
  {
    assert AT_LIMIT.requests + map[CPU := 100, Memory := 128] == AT_LIMIT.requests;
  }

  /** A concrete trapped pod: at its limit, below its maximum, requests only. A bump is
      planned for it, and applying the plan changes nothing. */
  lemma TrappedPod(now: int)
    ensures var (pod, spec) := (KilledPod(now), LimitsUntouched());
            && Sound(pod) && PodFits(pod) && Trapped(pod.containers[0], spec, false)
            && WantsBump(pod, spec, Now(pod, now))
            && StepPod(pod, BumpAt(spec, Now(pod, now)), DefaultPolicy(spec)) == pod
  {
    var pod, spec, m := KilledPod(now), LimitsUntouched(), Now(KilledPod(now), now);
    KilledNow(now);
    WantsBumpExactly(pod, spec, m);
    TrappedStaysTrapped(pod.containers[0], spec, m, false);
    StepIsPointwise(pod, BumpAt(spec, m), DefaultPolicy(spec));
    BumpChangesNothing(m);
    assert StepPod(pod, BumpAt(spec, m), DefaultPolicy(spec)).containers == pod.containers;
  }
}
