/** Results that run across the stages: from readings to bounded requests, from a
    blocked pod to its settled replacement, and cooldowns over whole controller runs. */
module EndToEnd {
  import opened Resources
  import opened Planner
  import opened PodRuns
  import opened QosRuns
  import opened Settling
  import opened Convergence
  import opened OomRuns
  import opened Webhook
  import opened Api
  import opened Recommending
  import opened TargetPipeline
  import opened UsagePass
  import opened HpaCoordination
  import opened Cooldowns
  import opened Actuation
  import opened PassProperties
  import opened ActuateAll
  import opened Folds

  // ---------- Bounds, from readings to requests ----------

  /** The targets of a pass under a validated spec are bounded. */
  lemma FreshTargetsAreBounded(targets: Targets, spec: Spec, shs: Shapes, m: Model, ns: string, workload: string,
                               es: seq<Event>)
    requires shs.Ok() && AllSized(shs, m) && Validated(spec)
    requires AreTargets(targets, spec, shs, m, ns, workload, es)
    ensures BoundedAction(Resize(targets), spec)
  {
    var (cp, mp) := Percentiles(spec);
    forall n <- targets ensures InBounds(targets[n], spec, n) {
      var rec := Recommend(shs, m, ContainerKey(ns, workload, n), cp, mp);
      assert TargetOf(spec, shs, m, ContainerKey(ns, workload, n)) == Some(targets[n]);
      TargetWithinBounds(spec, n, rec.value);
    }
  }

  lemma BumpIsBounded(spec: Spec, m: Moment)
    ensures BoundedAction(BumpAt(spec, m), spec)
  {}

  /** Flooring for the HPA keeps a bounded target bounded exactly when neither floor
      exceeds its maximum. */
  lemma FlooredInBoundsExactly(target: ResourceList, spec: Spec, name: string, u: Usage, g: Guard)
    requires InBounds(target, spec, name)
    ensures InBounds(FloorTarget(target, u, g), spec, name) <==>
            && RequestFloor(u.cpuMilli, g.cpuTarget, g.headroom) <= CpuBounds(spec, name).max
            && RequestFloor(u.memBytes, g.memTarget, g.headroom) <= MemoryBounds(spec, name).max
  {
    FloorKeepsMaxExactly(target, u, g, CpuBounds(spec, name).max, MemoryBounds(spec, name).max);
  }

  /** No floor that this usage and guard ask for exceeds its maximum. */
  predicate FloorsFit(spec: Spec, targets: Targets, usage: Snapshot, g: Guard) {
    forall n <- targets :: n in usage ==>
      && RequestFloor(usage[n].cpuMilli, g.cpuTarget, g.headroom) <= CpuBounds(spec, n).max
      && RequestFloor(usage[n].memBytes, g.memTarget, g.headroom) <= MemoryBounds(spec, n).max
  }

  lemma FlooredTargetsAreBounded(spec: Spec, targets: Targets, usage: Snapshot, g: Guard)
    requires BoundedAction(Resize(targets), spec) && FloorsFit(spec, targets, usage, g)
    ensures BoundedAction(Resize(FloorTargets(targets, usage, g)), spec)
  {
    forall n <- targets ensures InBounds(FloorTargets(targets, usage, g)[n], spec, n) {
      assert InBounds(targets[n], spec, n);
      if n in usage {
        FlooredInBoundsExactly(targets[n], spec, n, usage[n], g);
      }
    }
  }

  /** Targets of some pass over the workload, raised to floors within the maxima. */
  ghost predicate PassTargets(result: Targets, spec: Spec, shs: Shapes, ns: string, workload: string,
                              m: Model, es: seq<Event>, targets: Targets, usage: Snapshot, g: Guard)
    requires shs.Ok()
  {
    && AllSized(shs, m) && AreTargets(targets, spec, shs, m, ns, workload, es)
    && FloorsFit(spec, targets, usage, g) && result == FloorTargets(targets, usage, g)
  }

  /** The actions the controller takes on a pod, for one validated spec: resizes to
      targets of some pass with floors within the maxima, and OOM bumps. */
  ghost predicate ControllerAction(a: Action, spec: Spec, shs: Shapes, ns: string, workload: string)
    requires shs.Ok()
  {
    match a
    case Resize(result) =>
      exists m: Model, es, targets: Targets, usage: Snapshot, g ::
        PassTargets(result, spec, shs, ns, workload, m, es, targets, usage, g)
    case Bump(_, _) => exists m: Moment :: a == BumpAt(spec, m)
  }

  lemma ControllerActionIsBounded(a: Action, spec: Spec, shs: Shapes, ns: string, workload: string)
    requires shs.Ok() && Validated(spec) && ControllerAction(a, spec, shs, ns, workload)
    ensures BoundedAction(a, spec)
  {
    match a
    case Resize(result) =>
      var m: Model, es, targets: Targets, usage: Snapshot, g :|
        PassTargets(result, spec, shs, ns, workload, m, es, targets, usage, g);
      FreshTargetsAreBounded(targets, spec, shs, m, ns, workload, es);
      FlooredTargetsAreBounded(spec, targets, usage, g);
    case Bump(_, _) =>
      var m: Moment :| a == BumpAt(spec, m);
      BumpIsBounded(spec, m);
  }

  /** Requests that start within bounds stay within them over every run of controller
      actions, whatever was read, whenever OOM kills came and whatever the HPA asked for,
      as long as none of its floors exceeds a maximum. */
  lemma ControllerKeepsBounds(pod: Pod, rounds: seq<Round>, spec: Spec, shs: Shapes, ns: string, workload: string,
                              i: nat)
    requires shs.Ok() && Validated(spec) && Sound(pod) && PodFits(pod) && i < |pod.containers|
    requires forall r <- rounds :: ControllerAction(r.action, spec, shs, ns, workload)
    requires InBounds(pod.containers[i].requests, spec, pod.containers[i].name)
    ensures var after := Run(pod, rounds);
            && |after.containers| == |pod.containers|
            && InBounds(after.containers[i].requests, spec, pod.containers[i].name)
  {
    forall r <- rounds ensures BoundedAction(r.action, spec) {
      ControllerActionIsBounded(r.action, spec, shs, ns, workload);
    }
    RunKeepsBounds(pod, rounds, spec, i);
  }

  const AT_MAXIMUM := Container("app", map[CPU := 200, Memory := 100], map[])
  const BUSY: Snapshot := map["app" := Usage(195.0, 0.0)]
  const AT_75 := Guard(75, 0, 10)

  lemma FloorOfBusy()
    ensures RequestFloor(195.0, 75, 10) == 300
    ensures FloorTargets(map["app" := AT_MAXIMUM.requests], BUSY, AT_75) == map["app" := map[CPU := 300, Memory := 100]]
  {
    assert 195.0 * 100.0 / 65.0 == 300.0;
    assert AT_MAXIMUM.requests[CPU := 300] == map[CPU := 300, Memory := 100];
  }

  lemma ResizedToFloor(policy: Policy)
    requires policy == Policy(RequestsAndLimits, 0.10, 50, 20)
    ensures var a := Resize(map["app" := map[CPU := 300, Memory := 100]]);
            StepPod(OneContainerPod(AT_MAXIMUM), a, policy).containers ==
            [AT_MAXIMUM.(requests := map[CPU := 300, Memory := 100])]
  {
    var target: ResourceList := map[CPU := 300, Memory := 100];
    var a, pod := Resize(map["app" := target]), OneContainerPod(AT_MAXIMUM);
    assert !WithinTolerance(200, 300, policy.tolerance);
    assert StepClamp(200, 300, policy) == 300 && StepClamp(100, 100, policy) == 100;
    assert PlanContainer(AT_MAXIMUM, target, policy, false) == Some(Change("app", target, None));
    assert AT_MAXIMUM.requests + target == target;
    StepIsPointwise(pod, a, policy);
    assert StepPod(pod, a, policy).containers == [After(AT_MAXIMUM, a, policy, false)];
  }

  /** With a floor above the maximum the request does end above it: a container at its CPU
      maximum of 200, with 195 in use and the HPA aiming for 75%, is resized to 300. */
  lemma FloorPassesMaximum()
    ensures var spec := Spec(Bounds(0, 200), Bounds(0, 100), None, [], None, None, None, InPlaceOnly);
            var targets := map["app" := AT_MAXIMUM.requests];
            var pod := OneContainerPod(AT_MAXIMUM);
            var after := StepPod(pod, Resize(FloorTargets(targets, BUSY, AT_75)), DefaultPolicy(spec));
            && Validated(spec) && InBounds(AT_MAXIMUM.requests, spec, "app") && BoundedAction(Resize(targets), spec)
            && after.containers == [AT_MAXIMUM.(requests := map[CPU := 300, Memory := 100])]
            && !InBounds(after.containers[0].requests, spec, "app")
  {
    var spec := Spec(Bounds(0, 200), Bounds(0, 100), None, [], None, None, None, InPlaceOnly);
    FloorOfBusy();
    ResizedToFloor(DefaultPolicy(spec));
    assert AT_MAXIMUM.requests == map[CPU := 200, Memory := 100];
  }

  // ---------- Where runs under the guard end ----------

  /** The request keeps the utilization within the percentage and the tolerance on top. */
  predicate WithinBand(usage: real, percent: int, request: nat, tolerance: real) {
    usage * 100.0 <= percent as real * (request as real * (1.0 + tolerance))
  }

  /** Something other than the band keeps the request below its target: a zero quantity, a
      step that rounds to nothing, or an untouched limit. */
  predicate HeldBack(c: Container, target: ResourceList, r: ResourceName, policy: Policy, guaranteed: bool) {
    var cur := Amount(c.requests, r);
    || !HasRequests(c) || Amount(target, CPU) == 0 || Amount(target, Memory) == 0
    || cur * policy.stepUp / 100 == 0
    || (policy.controlled == RequestsOnly && !guaranteed && r in c.limits && c.limits[r] == cur)
  }

  lemma BandBelowTarget(usage: real, percent: int, want: nat, request: nat, tolerance: real)
    requires percent > 0 && WithinUtilization(usage, percent, want)
    requires request > 0 && WithinTolerance(request, want, tolerance)
    ensures WithinBand(usage, percent, request, tolerance)
  {
    var cur, e := request as real, percent as real;
    var ratio := (want - request) as real / cur;
    assert ratio * cur == (want - request) as real;
    assert ratio <= tolerance;
    ScaleUp(ratio, tolerance, cur);
    ScaleUp(want as real, cur * (1.0 + tolerance), e);
    assert want as real * e == e * want as real;
  }

  lemma ScaleUp(x: real, y: real, k: real)
    requires x <= y && k > 0.0
    ensures x * k <= y * k
  {
    assert (y - x) * k >= 0.0;
  }

  lemma BandOnTop(usage: real, percent: int, request: nat, tolerance: real)
    requires percent > 0 && tolerance >= 0.0 && WithinUtilization(usage, percent, request)
    ensures WithinBand(usage, percent, request, tolerance)
  {
    var e, cur := percent as real, request as real;
    assert e * cur >= 0.0;
    assert (e * cur) * tolerance >= 0.0;
    assert e * (cur * (1.0 + tolerance)) == e * cur + (e * cur) * tolerance;
  }

  /** A container settled under floored targets is within the guard up to the tolerance,
      unless something named holds it back. */
  lemma SettledNearGuard(c: Container, target: ResourceList, u: Usage, g: Guard, policy: Policy, guaranteed: bool,
                         r: ResourceName)
    requires Settled(c, FloorTarget(target, u, g), policy, guaranteed)
    requires r in {CPU, Memory} && Watches(g, r) && policy.tolerance >= 0.0
    ensures || WithinBand(UsedOf(u, r), Percent(g, r), Amount(c.requests, r), policy.tolerance)
            || HeldBack(c, FloorTarget(target, u, g), r, policy, guaranteed)
  {
    var floored := FloorTarget(target, u, g);
    var cur, want := Amount(c.requests, r), Amount(floored, r);
    FlooredIsWithin(target, u, g, r);
    if !HeldBack(c, floored, r, policy, guaranteed) {
      if want <= cur {
        MoreIsWithin(UsedOf(u, r), Percent(g, r), want, cur);
        BandOnTop(UsedOf(u, r), Percent(g, r), cur, policy.tolerance);
      } else {
        BandBelowTarget(UsedOf(u, r), Percent(g, r), want, cur, policy.tolerance);
      }
    }
  }

  /** Where a run to floored targets ends, also for a pod that starts below its floor:
      within the guard up to the tolerance, or held back. */
  lemma RunsEndNearGuard(pod: Pod, targets: Targets, usage: Snapshot, g: Guard, policy: Policy, n: nat, i: nat,
                         r: ResourceName)
    requires Sound(pod) && PodFits(pod) && i < |pod.containers| && policy.tolerance >= 0.0
    requires n >= Distance(pod.containers, FloorTargets(targets, usage, g))
    requires pod.containers[i].name in targets && pod.containers[i].name in usage
    requires r in {CPU, Memory} && Watches(g, r)
    ensures var floored := FloorTargets(targets, usage, g);
            var after := RunPasses(pod, floored, policy, n);
            && |after.containers| == |pod.containers|
            && var (c, name) := (after.containers[i], pod.containers[i].name);
               || QosClass(after) == BestEffort
               || WithinBand(UsedOf(usage[name], r), Percent(g, r), Amount(c.requests, r), policy.tolerance)
               || HeldBack(c, floored[name], r, policy, QosClass(after) == Guaranteed)
  {
    var floored, name := FloorTargets(targets, usage, g), pod.containers[i].name;
    var after := RunPasses(pod, floored, policy, n);
    RunKeepsShape(pod, Passes(floored, policy, n));
    RunsEndSettled(pod, floored, policy, n, i);
    if QosClass(after) != BestEffort {
      SettledNearGuard(after.containers[i], targets[name], usage[name], g, policy, QosClass(after) == Guaranteed, r);
    }
  }

  /** Inside the band nothing is raised: a request of 100 stays there under a floor of 108. */
  lemma BandStaysBelowFloor(policy: Policy, guaranteed: bool)
    requires policy.tolerance == 0.10
    ensures var c := Container("app", map[CPU := 100, Memory := 100], map[]);
            && RequestFloor(54.0, 60, 10) == 108
            && Settled(c, map[CPU := 108, Memory := 100], policy, guaranteed)
            && !WithinUtilization(54.0, 50, 100)
  {
    assert 54.0 * 100.0 / 50.0 == 108.0;
    assert WithinTolerance(100, 108, 0.10) && WithinTolerance(100, 100, 0.10);
  }

  // ---------- Recreation ----------

  /** An injected container with both requests set is within the guard right away. */
  lemma InjectedIsSafe(c: Container, targets: Targets, usage: Snapshot, g: Guard)
    requires HasRequests(c) && c.name in targets && c.name in usage
    ensures Safe(Inject(c, FloorTargets(targets, usage, g)).requests, usage[c.name], g)
  {
    var floored, u := FloorTargets(targets, usage, g), usage[c.name];
    var d := Inject(c, floored);
    forall r <- {CPU, Memory} | Watches(g, r)
      ensures WithinUtilization(UsedOf(u, r), Percent(g, r), Amount(d.requests, r))
    {
      InjectionSetsRequests(c, floored, r);
      FloorIsLeast(UsedOf(u, r), TargetOn(g, r), g.headroom, Amount(d.requests, r));
    }
  }

  /** A blocked Guaranteed pod never gets unblocked in place; its replacement, created
      from a Guaranteed template and injected with the same targets, is Guaranteed, not
      blocked, has nothing left to plan, and with floored targets is within the guard. */
  lemma RecreationSettles(pod: Pod, rounds: seq<Round>, template: Pod, targets: Targets, policy: Policy,
                          raw: Targets, usage: Snapshot, g: Guard)
    requires Sound(pod) && BlockedMemoryShrink(pod, targets, policy) && policy.tolerance >= 0.0
    requires forall r <- rounds :: r.action.Resize? ==> r.action.targets == targets
    requires template.statusQos.None? && SpecQos(template.containers) == Guaranteed
    ensures BlockedMemoryShrink(Run(pod, rounds), targets, policy)
    ensures var born := InjectPod(template, targets);
            && QosClass(born) == Guaranteed
            && !BlockedMemoryShrink(born, targets, policy)
            && PlanFor(born, Resize(targets), policy) == None
            && |born.containers| == |template.containers|
            && forall i :: 0 <= i < |born.containers| ==> var c := template.containers[i];
                 targets == FloorTargets(raw, usage, g) && HasRequests(c) && c.name in targets && c.name in usage ==>
                   Safe(born.containers[i].requests, usage[c.name], g)
  {
    BlockedForever(pod, rounds, targets, policy);
    InjectionKeepsGuaranteed(template, targets);
    InjectionIsFixedPoint(template, targets, policy);
    if targets == FloorTargets(raw, usage, g) {
      forall i | 0 <= i < |template.containers| && HasRequests(template.containers[i]) &&
                 template.containers[i].name in targets && template.containers[i].name in usage
        ensures Safe(Inject(template.containers[i], targets).requests, usage[template.containers[i].name], g)
      {
        InjectedIsSafe(template.containers[i], raw, usage, g);
      }
    }
  }

  // ---------- Cooldowns over controller runs ----------

  /** One call of the actuation pass. */
  datatype Call = Call(spec: Spec, ns: string, webhook: bool, ws: seq<Workload>, now: int)

  /** The visit a call pays to a workload's pods, unless it stops short of them. */
  ghost function VisitOf(c: Call, w: Workload): Option<Visit> {
    if w.rec.None? || w.turns.None? then None
    else
      match Coordination(c.spec, w.lookup, w.rec.value, w.usage, c.now)
      case Unreadable => None
      case Coordinated(state, targets) =>
        if state == Scaling then None
        else Some(Visit(KeyOf(c.ns, w.name), c.spec, targets, c.webhook, c.now, w.turns.value))
  }

  /** The targets that a visit works with: those of the recommendation, for the same
      containers, and under an HPA that is found and not ignored, within its guard for
      every container that was read. Key, spec and time are those of the call. */
  lemma VisitIsGuarded(c: Call, w: Workload)
    requires VisitOf(c, w).Some?
    ensures var v := VisitOf(c, w).value;
            && v.key == KeyOf(c.ns, w.name) && v.spec == c.spec && v.webhook == c.webhook && v.now == c.now
            && w.turns == Some(v.turns) && w.rec.Some? && v.targets.Keys == w.rec.value.Keys
            && if w.lookup.Found? && (c.spec.hpa.Some? ==> !c.spec.hpa.value.ignore)
               then forall n <- v.targets :: n in w.usage ==>
                      Safe(v.targets[n], w.usage[n], GuardOf(c.spec, w.lookup.hpa))
               else v.targets == w.rec.value
  {
    if w.lookup.Found? && (c.spec.hpa.Some? ==> !c.spec.hpa.value.ignore) {
      var g := GuardOf(c.spec, w.lookup.hpa);
      forall n <- w.rec.value | n in w.usage
        ensures Safe(FloorTargets(w.rec.value, w.usage, g)[n], w.usage[n], g)
      {
        FlooredIsSafe(w.rec.value[n], w.usage[n], g);
      }
    }
  }

  ghost function Reached(start: Stamps, c: Call, ws: seq<Workload>): Progress {
    Through(start, c.spec, c.ns, c.webhook, ws, c.now)
  }

  /** The visit that the next workload adds: none once an error has ended the call. */
  ghost function NewVisits(pr: Progress, c: Call, w: Workload): seq<Visit> {
    if pr.failed || VisitOf(c, w).None? then [] else [VisitOf(c, w).value]
  }

  ghost function VisitsOf(start: Stamps, c: Call, ws: seq<Workload>): seq<Visit> {
    if ws == [] then []
    else
      var front := ws[..|ws| - 1];
      VisitsOf(start, c, front) + NewVisits(Reached(start, c, front), c, ws[|ws| - 1])
  }

  lemma NextIsVisits(pr: Progress, c: Call, w: Workload)
    ensures var us := NewVisits(pr, c, w);
            && Next(pr, c.spec, c.ns, c.webhook, w, c.now).last == StampsAt(pr.last, us, |us|)
            && forall u <- us :: u.now == c.now
  {
    if !pr.failed && VisitOf(c, w).Some? {
      var us := [VisitOf(c, w).value];
      assert StampsAt(pr.last, us, 1) == AfterVisit(StampsAt(pr.last, us, 0), us[0]);
    }
  }

  lemma {:induction false} CallIsVisits(start: Stamps, c: Call, ws: seq<Workload>)
    ensures var vs := VisitsOf(start, c, ws);
            && Reached(start, c, ws).last == StampsAt(start, vs, |vs|)
            && forall v <- vs :: v.now == c.now
  {
    if ws != [] {
      var front := ws[..|ws| - 1];
      var before := Reached(start, c, front);
      var vs: seq<Visit> := VisitsOf(start, c, front);
      var us: seq<Visit> := NewVisits(before, c, ws[|ws| - 1]);
      CallIsVisits(start, c, front);
      NextIsVisits(before, c, ws[|ws| - 1]);
      AtChain(AfterVisit, start, vs, us, before.last, Reached(start, c, ws).last);
    }
  }

  /** The tracker after a run of calls. */
  ghost function StampsAfter(start: Stamps, calls: seq<Call>): Stamps {
    if calls == [] then start
    else
      var c := calls[|calls| - 1];
      Reached(StampsAfter(start, calls[..|calls| - 1]), c, c.ws).last
  }

  /** All visits of a run of calls, in order. */
  ghost function AllVisits(start: Stamps, calls: seq<Call>): seq<Visit> {
    if calls == [] then []
    else
      var front, c := calls[..|calls| - 1], calls[|calls| - 1];
      AllVisits(start, front) + VisitsOf(StampsAfter(start, front), c, c.ws)
  }

  lemma LaterVisits(vs: seq<Visit>, us: seq<Visit>, now: int)
    requires ClockRuns(vs) && (forall v <- vs :: v.now <= now) && (forall u <- us :: u.now == now)
    ensures ClockRuns(vs + us) && forall v <- vs + us :: v.now <= now
  {
    var all: seq<Visit> := vs + us;
    forall i, j | 0 <= i <= j < |all| ensures all[i].now <= all[j].now {
      assert j >= |vs| ==> us[j - |vs|] in us;
      assert i < |vs| ==> vs[i] in vs;
      assert i >= |vs| ==> us[i - |vs|] in us;
    }
  }

  ghost predicate CallsInOrder(calls: seq<Call>) {
    forall i, j :: 0 <= i <= j < |calls| ==> calls[i].now <= calls[j].now
  }

  /** A run of calls moves the tracker exactly as its visits do, one after another. */
  lemma {:induction false} RunIsVisits(start: Stamps, calls: seq<Call>)
    ensures StampsAfter(start, calls) == StampsAt(start, AllVisits(start, calls), |AllVisits(start, calls)|)
  {
    if calls != [] {
      var front, c := calls[..|calls| - 1], calls[|calls| - 1];
      var mid := StampsAfter(start, front);
      var vs: seq<Visit> := AllVisits(start, front);
      var us: seq<Visit> := VisitsOf(mid, c, c.ws);
      RunIsVisits(start, front);
      CallIsVisits(mid, c, c.ws);
      AtChain(AfterVisit, start, vs, us, mid, Reached(mid, c, c.ws).last);
    }
  }

  lemma {:induction false} VisitsInOrder(start: Stamps, calls: seq<Call>)
    requires CallsInOrder(calls)
    ensures ClockRuns(AllVisits(start, calls))
    ensures forall v <- AllVisits(start, calls) :: calls != [] && v.now <= calls[|calls| - 1].now
  {
    if calls != [] {
      var front, c := calls[..|calls| - 1], calls[|calls| - 1];
      var mid := StampsAfter(start, front);
      VisitsInOrder(start, front);
      CallIsVisits(mid, c, c.ws);
      LaterVisits(AllVisits(start, front), VisitsOf(mid, c, c.ws), c.now);
    }
  }

  /** Over any run of calls with a clock that does not go back, two visits that act on
      a workload in the same direction are the later one's cooldown apart, unless the API
      server rejected something in the earlier one; errors anywhere else do not matter. */
  lemma ControllerSpacing(start: Stamps, calls: seq<Call>, i: nat, j: nat, d: Direction)
    requires CallsInOrder(calls)
    requires i < j < |AllVisits(start, calls)|
    requires AllVisits(start, calls)[i].key == AllVisits(start, calls)[j].key
    requires ActedIn(start, AllVisits(start, calls), i, d) && ActedIn(start, AllVisits(start, calls), j, d)
    requires !RejectedIn(start, AllVisits(start, calls), i)
    ensures var vs := AllVisits(start, calls); vs[j].now - vs[i].now >= CooldownFor(vs[j].spec, d)
  {
    VisitsInOrder(start, calls);
    CooldownSpacing(start, AllVisits(start, calls), i, j, d);
  }

  // ---------- Exactly when a call fails ----------

  /** The workload ends the call with an error: its HPA cannot be read and is not ignored;
      or it need not wait, and its pods cannot be listed or the API server rejects a bump
      or resize of theirs. */
  ghost predicate Breaks(last: Stamps, c: Call, w: Workload) {
    && w.rec.Some?
    && (|| (w.lookup.LookupFailed? && (c.spec.hpa.Some? ==> !c.spec.hpa.value.ignore))
        || (&& !(w.lookup.LookupFailed? && (c.spec.hpa.Some? ==> !c.spec.hpa.value.ignore))
            && !MustWait(c.spec, w.lookup, c.now)
            && (|| w.turns.None?
                || (VisitOf(c, w).Some? && SomeRejected(PassOf(last, VisitOf(c, w).value), w.turns.value)))))
  }

  lemma NextFailsExactly(pr: Progress, c: Call, w: Workload)
    ensures Next(pr, c.spec, c.ns, c.webhook, w, c.now).failed <==> pr.failed || Breaks(pr.last, c, w)
  {
    if w.rec.Some? {
      WaitsExactly(c.spec, w.lookup, w.rec.value, w.usage, c.now);
    }
    if VisitOf(c, w).Some? {
      FailedExactly(PassOf(pr.last, VisitOf(c, w).value), w.turns.value);
    }
  }

  /** Workload i does so, with the cooldowns as the workloads before it have left them. */
  ghost predicate BreaksIn(start: Stamps, c: Call, ws: seq<Workload>, i: nat)
    requires i < |ws|
  {
    Breaks(Reached(start, c, ws[..i]).last, c, ws[i])
  }

  lemma BreaksInFront(start: Stamps, c: Call, ws: seq<Workload>, n: nat, i: nat)
    requires i < n <= |ws|
    ensures BreaksIn(start, c, ws[..n], i) <==> BreaksIn(start, c, ws, i)
  {
    assert ws[..n][..i] == ws[..i];
  }

  /** A call fails if and only if some workload breaks it. */
  lemma {:induction false} CallFailsExactly(start: Stamps, c: Call, ws: seq<Workload>)
    ensures Reached(start, c, ws).failed <==> exists i :: 0 <= i < |ws| && BreaksIn(start, c, ws, i)
  {
    if ws != [] {
      var n := |ws| - 1;
      CallFailsExactly(start, c, ws[..n]);
      NextFailsExactly(Reached(start, c, ws[..n]), c, ws[n]);
      assert BreaksIn(start, c, ws, n) <==> Breaks(Reached(start, c, ws[..n]).last, c, ws[n]);
      forall i | 0 <= i < n ensures BreaksIn(start, c, ws[..n], i) <==> BreaksIn(start, c, ws, i) {
        BreaksInFront(start, c, ws, n, i);
      }
    }
  }

  // ---------- Pausing over controller runs ----------

  /** The call pays this visit to one of its workloads, which need not wait for its HPA. */
  ghost predicate PaysTo(c: Call, w: Workload, v: Visit) {
    w in c.ws && VisitOf(c, w) == Some(v) && !MustWait(c.spec, w.lookup, c.now)
  }

  lemma {:induction false} CallVisitsUnpaused(start: Stamps, c: Call, ws: seq<Workload>, v: Visit)
    requires v in VisitsOf(start, c, ws) && forall w <- ws :: w in c.ws
    ensures exists w :: PaysTo(c, w, v)
  {
    var front, last := ws[..|ws| - 1], ws[|ws| - 1];
    if v in VisitsOf(start, c, front) {
      CallVisitsUnpaused(start, c, front, v);
    } else {
      WaitsExactly(c.spec, last.lookup, last.rec.value, last.usage, c.now);
      assert PaysTo(c, last, v);
    }
  }

  /** A result with what one more visit does. */
  function AddVisit(res: Result, last: Stamps, v: Visit): Result {
    DeedsLength(PassOf(last, v), v.turns);
    AddDeeds(res, v.turns, DeedsOf(last, v))
  }

  /** What the visits of a call add up to. */
  function ResultOf(start: Stamps, vs: seq<Visit>): Result {
    if vs == [] then Result(0, [], false)
    else
      var n := |vs| - 1;
      AddVisit(ResultOf(start, vs[..n]), StampsAt(start, vs[..n], n), vs[n])
  }

  lemma ResultOneMore(start: Stamps, vs: seq<Visit>, v: Visit)
    ensures ResultOf(start, vs + [v]) == AddVisit(ResultOf(start, vs), StampsAt(start, vs, |vs|), v)
  {
    assert (vs + [v])[..|vs|] == vs;
  }

  lemma NextCountsItsVisit(pr: Progress, c: Call, w: Workload, v: Visit)
    requires !pr.failed && VisitOf(c, w) == Some(v)
    ensures Next(pr, c.spec, c.ns, c.webhook, w, c.now).res == AddVisit(pr.res, pr.last, v)
  {}

  lemma NoVisitNoCount(pr: Progress, c: Call, w: Workload)
    requires pr.failed || VisitOf(c, w).None?
    ensures Next(pr, c.spec, c.ns, c.webhook, w, c.now).res == pr.res
  {}

  lemma CountOneMore(pr: Progress, c: Call, w: Workload, start: Stamps, vs: seq<Visit>)
    requires pr.last == StampsAt(start, vs, |vs|) && pr.res == ResultOf(start, vs)
    ensures Next(pr, c.spec, c.ns, c.webhook, w, c.now).res == ResultOf(start, vs + NewVisits(pr, c, w))
  {
    if pr.failed || VisitOf(c, w).None? {
      NoVisitNoCount(pr, c, w);
      assert vs + NewVisits(pr, c, w) == vs;
    } else {
      var v := VisitOf(c, w).value;
      NextCountsItsVisit(pr, c, w, v);
      ResultOneMore(start, vs, v);
      assert NewVisits(pr, c, w) == [v];
    }
  }

  /** The result a call reports counts exactly what its visits did: no pod of any other
      workload adds to it. */
  lemma {:induction false} CallCountsItsVisits(start: Stamps, c: Call, ws: seq<Workload>)
    ensures Reached(start, c, ws).res == ResultOf(start, VisitsOf(start, c, ws))
  {
    if ws != [] {
      var front := ws[..|ws| - 1];
      CallCountsItsVisits(start, c, front);
      CallIsVisits(start, c, front);
      CountOneMore(Reached(start, c, front), c, ws[|ws| - 1], start, VisitsOf(start, c, front));
    }
  }

  /** Over any run of calls, whatever is evicted, resized or stamped happens in a visit to
      a workload that did not have to wait in that call: while the HPA scales a workload,
      nothing is done to it. */
  lemma {:induction false} PausedIsNeverVisited(start: Stamps, calls: seq<Call>, v: Visit)
    requires v in AllVisits(start, calls)
    ensures exists c, w :: c in calls && PaysTo(c, w, v)
  {
    var front, c := calls[..|calls| - 1], calls[|calls| - 1];
    assert c in calls;
    if v in AllVisits(start, front) {
      PausedIsNeverVisited(start, front, v);
      var d, w :| d in front && PaysTo(d, w, v);
      assert d in calls;
    } else {
      CallVisitsUnpaused(StampsAfter(start, front), c, c.ws, v);
    }
  }

  /** Over any run of calls, the cooldowns of a key stay as they were unless some call
      matched a workload of that key that did not have to wait. */
  lemma {:induction false} RunKeepsStamps(start: Stamps, calls: seq<Call>, key: string)
    requires forall c <- calls, w <- c.ws :: key != KeyOf(c.ns, w.name) || MustWait(c.spec, w.lookup, c.now)
    ensures SameStamps(start, StampsAfter(start, calls), key)
  {
    if calls != [] {
      var front, c := calls[..|calls| - 1], calls[|calls| - 1];
      assert c in calls;
      RunKeepsStamps(start, front, key);
      PassKeepsStamps(StampsAfter(start, front), c.spec, c.ns, c.webhook, c.ws, c.now, key);
    }
  }
}
