/** One pod over the passes of the controller, each of which bumps, resizes or leaves it as
    the pass decides: how many bumps are made, exactly when the fast path hands the pod
    over to ordinary resizing, and exactly when it takes the pod back. */
module BumpRuns {
  import opened Resources
  import opened Planner
  import opened PodRuns
  import opened QosRuns
  import opened Settling
  import opened Convergence
  import opened Api
  import opened OomRuns
  import opened Actuation

  /** What one pass meets of a pod besides its containers, and what the API answers. */
  datatype Encounter = Encounter(
    pass: Pass,
    statuses: seq<ContainerStatus>,
    conditions: seq<PodCondition>,
    deleting: bool,
    running: bool,
    reply: Reply,
    budget: nat)

  function AsMet(pod: Pod, e: Encounter): Pod {
    pod.(statuses := e.statuses, conditions := e.conditions, deleting := e.deleting, running := e.running)
  }

  function DeedOn(pod: Pod, e: Encounter): Deed {
    Decide(e.pass, Turn(AsMet(pod, e), e.reply), e.budget)
  }

  function MomentOf(e: Encounter): Moment {
    Moment(e.statuses, e.pass.now)
  }

  function PolicyOf(e: Encounter): Policy {
    DefaultPolicy(e.pass.spec)
  }

  /** The pod after the pass: only a bump or resize that the API accepted changes it. */
  function Passed(pod: Pod, e: Encounter): Pod {
    match DeedOn(pod, e)
    case Bumped => StepPod(pod, BumpAt(e.pass.spec, MomentOf(e)), PolicyOf(e))
    case Resized(_) => StepPod(pod, Resize(e.pass.targets), PolicyOf(e))
    case _ => pod
  }

  function PodAfter(pod: Pod, es: seq<Encounter>): Pod {
    if es == [] then pod else Passed(PodAfter(pod, es[..|es| - 1]), es[|es| - 1])
  }

  /** The bumps that were made. */
  function Bumps(pod: Pod, es: seq<Encounter>): nat {
    if es == [] then 0
    else
      var front, e := es[..|es| - 1], es[|es| - 1];
      Bumps(pod, front) + (if DeedOn(PodAfter(pod, front), e).Bumped? then 1 else 0)
  }

  /** The steps that were applied. */
  function Applied(pod: Pod, es: seq<Encounter>): seq<Round> {
    if es == [] then []
    else
      var front, e := es[..|es| - 1], es[|es| - 1];
      Applied(pod, front) +
      match DeedOn(PodAfter(pod, front), e)
      case Bumped => [Round(BumpAt(e.pass.spec, MomentOf(e)), PolicyOf(e))]
      case Resized(_) => [Round(Resize(e.pass.targets), PolicyOf(e))]
      case _ => []
  }

  lemma RunOneMore(pod: Pod, rounds: seq<Round>, r: Round)
    ensures Run(pod, rounds + [r]) == StepPod(Run(pod, rounds), r.action, r.policy)
  {
    assert (rounds + [r])[..|rounds|] == rounds;
  }

  lemma {:induction false} AfterIsRun(pod: Pod, es: seq<Encounter>)
    ensures PodAfter(pod, es) == Run(pod, Applied(pod, es))
  {
    if es != [] {
      var front, e := es[..|es| - 1], es[|es| - 1];
      AfterIsRun(pod, front);
      match DeedOn(PodAfter(pod, front), e) {
        case Bumped => RunOneMore(pod, Applied(pod, front), Round(BumpAt(e.pass.spec, MomentOf(e)), PolicyOf(e)));
        case Resized(_) => RunOneMore(pod, Applied(pod, front), Round(Resize(e.pass.targets), PolicyOf(e)));
        case _ => assert Applied(pod, es) == Applied(pod, front);
      }
    }
  }

  lemma AfterKeepsShape(pod: Pod, es: seq<Encounter>)
    requires Sound(pod) && PodFits(pod)
    ensures var after := PodAfter(pod, es);
            && Sound(after) && PodFits(after) && after == pod.(containers := after.containers)
            && |after.containers| == |pod.containers|
            && forall i :: 0 <= i < |pod.containers| ==> after.containers[i].name == pod.containers[i].name
  {
    AfterIsRun(pod, es);
    RunKeepsShape(pod, Applied(pod, es));
  }

  lemma AfterOneMore(pod: Pod, es: seq<Encounter>, k: nat)
    requires k < |es|
    ensures PodAfter(pod, es[..k + 1]) == Passed(PodAfter(pod, es[..k]), es[k])
    ensures Bumps(pod, es[..k + 1]) ==
            Bumps(pod, es[..k]) + (if DeedOn(PodAfter(pod, es[..k]), es[k]).Bumped? then 1 else 0)
  {
    assert es[..k + 1][..k] == es[..k];
  }

  // ---------- What a pass does to a pod ----------

  /** The pass gets as far as the fast path. */
  predicate Open(pod: Pod, e: Encounter) {
    && e.running && !e.deleting
    && !NeedsRecreate(e.pass, AsMet(pod, e)) && !Infeasible(AsMet(pod, e))
  }

  predicate Wants(pod: Pod, e: Encounter) {
    WantsBump(pod, e.pass.spec, MomentOf(e))
  }

  lemma MetWantsTheSame(pod: Pod, e: Encounter)
    ensures WantsBump(AsMet(pod, e), e.pass.spec, Now(AsMet(pod, e), e.pass.now)) <==> Wants(pod, e)
    ensures PlanFor(AsMet(pod, e), Resize(e.pass.targets), PolicyOf(e)) ==
            PlanFor(pod, Resize(e.pass.targets), PolicyOf(e))
  {}

  /** A pass bumps exactly when it gets there, wants to, and the API accepts; while it wants
      to it does not resize, whatever the API answers. */
  lemma DeedExactly(pod: Pod, e: Encounter)
    ensures DeedOn(pod, e).Bumped? <==> Open(pod, e) && Wants(pod, e) && e.reply == Done
    ensures Wants(pod, e) ==> !DeedOn(pod, e).Resized?
  {
    MetWantsTheSame(pod, e);
  }

  /** What the request would be after this pass. */
  function NextAmount(c: Container, r: ResourceName, target: ResourceList, policy: Policy, g: bool): nat {
    StepClamp(Amount(c.requests, r), Reach(c, r, Amount(target, r), policy, g), policy)
  }

  /** A resize to these targets would change the container. */
  predicate Unsettled(c: Container, targets: Targets, policy: Policy, g: bool) {
    c.name in targets && !Settled(c, targets[c.name], policy, g)
  }

  predicate GoesUp(c: Container, targets: Targets, policy: Policy, g: bool) {
    && Unsettled(c, targets, policy, g)
    && (|| NextAmount(c, CPU, targets[c.name], policy, g) > Amount(c.requests, CPU)
        || NextAmount(c, Memory, targets[c.name], policy, g) > Amount(c.requests, Memory))
  }

  /** The pass resizes the pod: it has a container to change, the cooldown of the direction
      this takes is over, and the API accepts. */
  predicate Resizes(pod: Pod, e: Encounter) {
    var g := QosClass(pod) == Guaranteed;
    && Open(pod, e) && !Wants(pod, e) && e.reply == Done && QosClass(pod) != BestEffort
    && (exists c <- pod.containers :: Unsettled(c, e.pass.targets, PolicyOf(e), g))
    && (if exists c <- pod.containers :: GoesUp(c, e.pass.targets, PolicyOf(e), g) then e.pass.allowUp
        else e.pass.allowDown)
  }

  lemma PlannedExactly(c: Container, targets: Targets, policy: Policy, g: bool)
    requires Fits(c)
    ensures var r := PlanOne(c, Resize(targets), policy, g);
            && (r.Some? <==> Unsettled(c, targets, policy, g))
            && (r.Some? && Raises(c, r.value) <==> GoesUp(c, targets, policy, g))
  {
    UnmovedExactly(c, Resize(targets), policy, g);
    if PlanOne(c, Resize(targets), policy, g).Some? {
      RequestTakesOneStep(c, targets, policy, g, CPU);
      RequestTakesOneStep(c, targets, policy, g, Memory);
    }
  }

  lemma PlanExactly(pod: Pod, targets: Targets, policy: Policy)
    requires PodFits(pod)
    ensures var (plan, g) := (PlanFor(pod, Resize(targets), policy), QosClass(pod) == Guaranteed);
            && (plan.Some? <==>
                  QosClass(pod) != BestEffort && exists c <- pod.containers :: Unsettled(c, targets, policy, g))
            && (plan.Some? ==>
                  (plan.value.direction == Up <==> exists c <- pod.containers :: GoesUp(c, targets, policy, g)))
  {
    var g := QosClass(pod) == Guaranteed;
    forall c | c in pod.containers
      ensures PlanOne(c, Resize(targets), policy, g).Some? <==> Unsettled(c, targets, policy, g)
      ensures var r := PlanOne(c, Resize(targets), policy, g);
              r.Some? && Raises(c, r.value) <==> GoesUp(c, targets, policy, g)
    {
      PlannedExactly(c, targets, policy, g);
    }
    if Changes(pod.containers, Resize(targets), policy, g) != [] {
      var i := SomePlanned(pod.containers, Resize(targets), policy, g);
    } else if c :| c in pod.containers && Unsettled(c, targets, policy, g) {
      var i :| 0 <= i < |pod.containers| && pod.containers[i] == c;
      PlannedMeansChanges(pod.containers, Resize(targets), policy, g, i);
    }
  }

  /** Exactly when a pass resizes, on quantities known before it. */
  lemma ResizesExactly(pod: Pod, e: Encounter)
    requires PodFits(pod)
    ensures DeedOn(pod, e).Resized? <==> Resizes(pod, e)
  {
    MetWantsTheSame(pod, e);
    PlanExactly(pod, e.pass.targets, PolicyOf(e));
  }

  // ---------- How many bumps there are ----------

  /** All passes are under the same spec, so with the same maxima and mode. */
  ghost predicate UnderSpec(es: seq<Encounter>, spec: Spec) {
    forall e <- es :: e.pass.spec == spec
  }

  predicate NoneWalled(pod: Pod, spec: Spec) {
    forall c <- pod.containers :: !Walled(c, spec, QosClass(pod) == Guaranteed)
  }

  /** The bumps that the pod's containers have left. */
  function BumpsToGo(pod: Pod, spec: Spec): nat {
    TotalLeft(pod.containers, spec)
  }

  lemma StepKeepsUnwalled(pod: Pod, a: Action, spec: Spec)
    requires Sound(pod) && PodFits(pod) && NoneWalled(pod, spec)
    ensures NoneWalled(StepPod(pod, a, DefaultPolicy(spec)), spec)
  {
    var g := QosClass(pod) == Guaranteed;
    var after := StepPod(pod, a, DefaultPolicy(spec));
    StepKeepsSound(pod, a, DefaultPolicy(spec));
    StepIsPointwise(pod, a, DefaultPolicy(spec));
    forall i | 0 <= i < |pod.containers| ensures !Walled(after.containers[i], spec, g) {
      assert pod.containers[i] in pod.containers;
      WalledStays(pod.containers[i], a, spec, g);
    }
  }

  lemma BumpUsesSome(pod: Pod, spec: Spec, m: Moment)
    requires Sound(pod) && PodFits(pod) && NoneWalled(pod, spec) && WantsBump(pod, spec, m)
    ensures BumpsToGo(StepPod(pod, BumpAt(spec, m), DefaultPolicy(spec)), spec) < BumpsToGo(pod, spec)
  {
    var g := QosClass(pod) == Guaranteed;
    var after := StepPod(pod, BumpAt(spec, m), DefaultPolicy(spec));
    StepIsPointwise(pod, BumpAt(spec, m), DefaultPolicy(spec));
    forall i | 0 <= i < |pod.containers|
      ensures var (c, d) := (pod.containers[i], after.containers[i]);
              Left(d, spec) == if c.name in KilledAt(m) && Left(c, spec) > 0 then Left(c, spec) - 1 else Left(c, spec)
    {
      assert pod.containers[i] in pod.containers;
      BumpUsesOne(pod.containers[i], spec, m, g);
    }
    WantsBumpExactly(pod, spec, m);
    LeftMonotone(pod.containers, after.containers, spec);
  }

  /** The bumps that resizes gave back, pass by pass. */
  function GivenBack(pod: Pod, es: seq<Encounter>, spec: Spec): nat {
    if es == [] then 0
    else
      var front, e := es[..|es| - 1], es[|es| - 1];
      var before := PodAfter(pod, front);
      GivenBack(pod, front, spec) +
      (if DeedOn(before, e).Resized? then Minus(BumpsToGo(Passed(before, e), spec), BumpsToGo(before, spec)) else 0)
  }

  lemma PassAccounts(pod: Pod, e: Encounter)
    requires Sound(pod) && PodFits(pod) && NoneWalled(pod, e.pass.spec)
    ensures Sound(Passed(pod, e)) && PodFits(Passed(pod, e)) && NoneWalled(Passed(pod, e), e.pass.spec)
    ensures var (left, later) := (BumpsToGo(pod, e.pass.spec), BumpsToGo(Passed(pod, e), e.pass.spec));
            (if DeedOn(pod, e).Bumped? then 1 else 0) + later <=
            left + (if DeedOn(pod, e).Resized? then Minus(later, left) else 0)
  {
    DeedExactly(pod, e);
    match DeedOn(pod, e) {
      case Bumped =>
        StepKeepsSound(pod, BumpAt(e.pass.spec, MomentOf(e)), PolicyOf(e));
        StepKeepsUnwalled(pod, BumpAt(e.pass.spec, MomentOf(e)), e.pass.spec);
        BumpUsesSome(pod, e.pass.spec, MomentOf(e));
      case Resized(_) =>
        StepKeepsSound(pod, Resize(e.pass.targets), PolicyOf(e));
        StepKeepsUnwalled(pod, Resize(e.pass.targets), e.pass.spec);
      case _ =>
    }
  }

  /** Without an untouched limit in the way, the bumps that passes at any times make, with
      whatever kills, targets and answers, are at most those the containers had left and
      those that resizes gave back. */
  lemma {:induction false} BumpsAreBounded(pod: Pod, es: seq<Encounter>, spec: Spec)
    requires Sound(pod) && PodFits(pod) && NoneWalled(pod, spec) && UnderSpec(es, spec)
    ensures var after := PodAfter(pod, es);
            && Sound(after) && PodFits(after) && NoneWalled(after, spec)
            && Bumps(pod, es) + BumpsToGo(after, spec) <= BumpsToGo(pod, spec) + GivenBack(pod, es, spec)
  {
    if es != [] {
      var front, e := es[..|es| - 1], es[|es| - 1];
      assert e in es;
      BumpsAreBounded(pod, front, spec);
      PassAccounts(PodAfter(pod, front), e);
    }
  }

  lemma {:induction false} MoreMemoryFewerBumps(mem: nat, more: nat, cap: nat)
    requires 2 <= mem <= more
    ensures BumpsLeft(more, cap) <= BumpsLeft(mem, cap)
    decreases if more < cap then cap - more else 0
  {
    if Raised(more, cap) > more {
      MoreMemoryFewerBumps(Raised(mem, cap), Raised(more, cap), cap);
    }
  }

  /** Memory comes out of the resize lower than it was, or above the single byte that is
      never bumped. */
  predicate GivesBack(before: Container, after: Container) {
    var x, y := Amount(before.requests, Memory), Amount(after.requests, Memory);
    y < x || (x < 2 && y >= 2)
  }

  lemma KeptMemoryGivesNothing(c: Container, d: Container, spec: Spec)
    requires c.name == d.name && (HasRequests(d) ==> HasRequests(c)) && !GivesBack(c, d)
    ensures Left(d, spec) <= Left(c, spec)
  {
    LeftExactly(d, spec);
    if HasRequests(d) && Amount(d.requests, Memory) >= 2 {
      MoreMemoryFewerBumps(Amount(c.requests, Memory), Amount(d.requests, Memory), MemoryBounds(spec, c.name).max);
    }
  }

  /** A step gives no bump back unless it lowers memory. */
  lemma OnlyLoweringGivesBack(pod: Pod, targets: Targets, spec: Spec)
    requires Sound(pod) && PodFits(pod)
    requires var after := StepPod(pod, Resize(targets), DefaultPolicy(spec));
             |after.containers| == |pod.containers| ==>
               forall i :: 0 <= i < |pod.containers| ==> !GivesBack(pod.containers[i], after.containers[i])
    ensures BumpsToGo(StepPod(pod, Resize(targets), DefaultPolicy(spec)), spec) <= BumpsToGo(pod, spec)
  {
    var after := StepPod(pod, Resize(targets), DefaultPolicy(spec));
    StepIsPointwise(pod, Resize(targets), DefaultPolicy(spec));
    forall i | 0 <= i < |pod.containers| ensures Left(after.containers[i], spec) <= Left(pod.containers[i], spec) {
      KeptMemoryGivesNothing(pod.containers[i], after.containers[i], spec);
    }
    LeftMonotone(pod.containers, after.containers, spec);
  }

  // ---------- A container with an untouched limit in the way ----------

  lemma {:induction false} WalledForever(pod: Pod, es: seq<Encounter>, spec: Spec, i: nat)
    requires Sound(pod) && PodFits(pod) && pod.statusQos.Some? && UnderSpec(es, spec)
    requires i < |pod.containers| && Walled(pod.containers[i], spec, QosClass(pod) == Guaranteed)
    ensures var after := PodAfter(pod, es);
            && |after.containers| == |pod.containers|
            && Walled(after.containers[i], spec, QosClass(pod) == Guaranteed)
  {
    if es != [] {
      var front, e := es[..|es| - 1], es[|es| - 1];
      var before := PodAfter(pod, front);
      assert e in es;
      WalledForever(pod, front, spec, i);
      AfterKeepsShape(pod, front);
      match DeedOn(before, e) {
        case Bumped => WalledStep(before, BumpAt(spec, MomentOf(e)), spec, i);
        case Resized(_) => WalledStep(before, Resize(e.pass.targets), spec, i);
        case _ =>
      }
    }
  }

  lemma WalledStep(pod: Pod, a: Action, spec: Spec, i: nat)
    requires Sound(pod) && PodFits(pod)
    requires i < |pod.containers| && Walled(pod.containers[i], spec, QosClass(pod) == Guaranteed)
    ensures var after := StepPod(pod, a, DefaultPolicy(spec));
            |after.containers| == |pod.containers| && Walled(after.containers[i], spec, QosClass(pod) == Guaranteed)
  {
    StepIsPointwise(pod, a, DefaultPolicy(spec));
    WalledStays(pod.containers[i], a, spec, QosClass(pod) == Guaranteed);
  }

  /** After any passes, bumps and resizes among them, a pass that sees the container's kill
      within the lookback wants to bump again, and so does not resize the pod, unless just a
      single byte is requested; one that sees no kill does not. */
  lemma TrappedBumpsWhileRecent(pod: Pod, es: seq<Encounter>, e: Encounter, i: nat)
    requires Sound(pod) && PodFits(pod) && pod.statusQos.Some? && UnderSpec(es, e.pass.spec)
    requires i < |pod.containers| && Walled(pod.containers[i], e.pass.spec, QosClass(pod) == Guaranteed)
    ensures var after := PodAfter(pod, es);
            && |after.containers| == |pod.containers|
            && (pod.containers[i].name in KilledAt(MomentOf(e)) && Amount(after.containers[i].requests, Memory) >= 2 ==>
                  Wants(after, e) && !DeedOn(after, e).Resized?)
            && ((forall cs <- e.statuses :: !RecentOom(cs, e.pass.now)) ==> !Wants(after, e))
  {
    var after := PodAfter(pod, es);
    WalledForever(pod, es, e.pass.spec, i);
    AfterKeepsShape(pod, es);
    WantsBumpExactly(after, e.pass.spec, MomentOf(e));
    LeftExactly(after.containers[i], e.pass.spec);
    DeedExactly(after, e);
    assert after.containers[i].name == pod.containers[i].name && Fits(after.containers[i]);
  }

  // ---------- Exactly when the fast path hands over ----------

  /** The same containers have a kill within the lookback in all of these passes. */
  ghost predicate SameKills(es: seq<Encounter>, oom: set<string>) {
    forall e <- es :: KilledAt(MomentOf(e)) == oom
  }

  predicate NoKilledTrapped(pod: Pod, spec: Spec, oom: set<string>) {
    forall c <- pod.containers :: c.name in oom ==> !Trapped(c, spec, QosClass(pod) == Guaranteed)
  }

  /** Pass k wants to bump. */
  predicate WantsIn(pod: Pod, es: seq<Encounter>, k: nat)
    requires k < |es|
  {
    Wants(PodAfter(pod, es[..k]), es[k])
  }

  predicate ResizesIn(pod: Pod, es: seq<Encounter>, k: nat)
    requires k < |es|
  {
    Resizes(PodAfter(pod, es[..k]), es[k])
  }

  lemma PassKeepsOthers(pod: Pod, e: Encounter)
    requires !DeedOn(pod, e).Bumped? && !DeedOn(pod, e).Resized?
    ensures Passed(pod, e) == pod
  {}

  lemma LeftAfterPass(pod: Pod, e: Encounter, i: nat)
    requires Sound(pod) && PodFits(pod) && !Resizes(pod, e)
    requires i < |pod.containers| && pod.containers[i].name in KilledAt(MomentOf(e))
    requires !Trapped(pod.containers[i], e.pass.spec, QosClass(pod) == Guaranteed)
    ensures |Passed(pod, e).containers| == |pod.containers|
    ensures var (c, d, spec) := (pod.containers[i], Passed(pod, e).containers[i], e.pass.spec);
            && !Trapped(d, spec, QosClass(pod) == Guaranteed)
            && Left(d, spec) == Minus(Left(c, spec), if DeedOn(pod, e).Bumped? then 1 else 0)
  {
    ResizesExactly(pod, e);
    if DeedOn(pod, e).Bumped? {
      StepIsPointwise(pod, BumpAt(e.pass.spec, MomentOf(e)), PolicyOf(e));
      BumpUsesOne(pod.containers[i], e.pass.spec, MomentOf(e), QosClass(pod) == Guaranteed);
    } else {
      PassKeepsOthers(pod, e);
    }
  }

  lemma {:induction false} LeftAfterPasses(pod: Pod, es: seq<Encounter>, spec: Spec, oom: set<string>, k: nat, i: nat)
    requires Sound(pod) && PodFits(pod) && pod.statusQos.Some? && UnderSpec(es, spec) && SameKills(es, oom)
    requires k <= |es| && forall j :: 0 <= j < k ==> !ResizesIn(pod, es, j)
    requires i < |pod.containers| && pod.containers[i].name in oom
    requires !Trapped(pod.containers[i], spec, QosClass(pod) == Guaranteed)
    ensures var after := PodAfter(pod, es[..k]);
            && |after.containers| == |pod.containers|
            && !Trapped(after.containers[i], spec, QosClass(pod) == Guaranteed)
            && Left(after.containers[i], spec) == Minus(Left(pod.containers[i], spec), Bumps(pod, es[..k]))
  {
    if k > 0 {
      assert es[k - 1] in es && !ResizesIn(pod, es, k - 1);
      LeftAfterPasses(pod, es, spec, oom, k - 1, i);
      AfterOneMore(pod, es, k - 1);
      AfterKeepsShape(pod, es[..k - 1]);
      LeftAfterPass(PodAfter(pod, es[..k - 1]), es[k - 1], i);
    }
  }

  /** While the same kills are recent, nothing killed is trapped and no pass has resized
      the pod, a pass wants to bump exactly when fewer bumps have been made than some
      killed container had left. */
  lemma PassBumpsExactly(pod: Pod, es: seq<Encounter>, spec: Spec, oom: set<string>, k: nat)
    requires Sound(pod) && PodFits(pod) && pod.statusQos.Some? && UnderSpec(es, spec) && SameKills(es, oom)
    requires k < |es| && (forall j :: 0 <= j < k ==> !ResizesIn(pod, es, j)) && NoKilledTrapped(pod, spec, oom)
    ensures WantsIn(pod, es, k) <==> Bumps(pod, es[..k]) < MostLeft(pod.containers, oom, spec)
  {
    var after := PodAfter(pod, es[..k]);
    assert es[k] in es;
    AfterKeepsShape(pod, es[..k]);
    WantsBumpExactly(after, spec, MomentOf(es[k]));
    MostLeftExceeds(pod.containers, oom, spec, Bumps(pod, es[..k]));
    forall i | 0 <= i < |pod.containers| && pod.containers[i].name in oom
      ensures Left(after.containers[i], spec) == Minus(Left(pod.containers[i], spec), Bumps(pod, es[..k]))
    {
      assert pod.containers[i] in pod.containers;
      LeftAfterPasses(pod, es, spec, oom, k, i);
    }
    assert forall i :: 0 <= i < |pod.containers| ==> after.containers[i].name == pod.containers[i].name;
  }

  lemma TrappedPass(pod: Pod, e: Encounter, i: nat)
    requires Sound(pod) && PodFits(pod) && i < |pod.containers| && pod.containers[i].name in KilledAt(MomentOf(e))
    requires Trapped(pod.containers[i], e.pass.spec, QosClass(pod) == Guaranteed)
    ensures Wants(pod, e) && |Passed(pod, e).containers| == |pod.containers|
    ensures Trapped(Passed(pod, e).containers[i], e.pass.spec, QosClass(pod) == Guaranteed)
  {
    WantsBumpExactly(pod, e.pass.spec, MomentOf(e));
    TrappedStaysTrapped(pod.containers[i], e.pass.spec, MomentOf(e), QosClass(pod) == Guaranteed);
    DeedExactly(pod, e);
    if DeedOn(pod, e).Bumped? {
      StepIsPointwise(pod, BumpAt(e.pass.spec, MomentOf(e)), PolicyOf(e));
    } else {
      PassKeepsOthers(pod, e);
    }
  }

  lemma {:induction false} TrappedAllAlong(pod: Pod, es: seq<Encounter>, spec: Spec, oom: set<string>, k: nat, i: nat)
    requires Sound(pod) && PodFits(pod) && pod.statusQos.Some? && UnderSpec(es, spec) && SameKills(es, oom)
    requires k <= |es| && i < |pod.containers| && pod.containers[i].name in oom
    requires Trapped(pod.containers[i], spec, QosClass(pod) == Guaranteed)
    ensures var after := PodAfter(pod, es[..k]);
            && |after.containers| == |pod.containers|
            && Trapped(after.containers[i], spec, QosClass(pod) == Guaranteed)
  {
    if k > 0 {
      assert es[k - 1] in es;
      TrappedAllAlong(pod, es, spec, oom, k - 1, i);
      AfterOneMore(pod, es, k - 1);
      AfterKeepsShape(pod, es[..k - 1]);
      TrappedPass(PodAfter(pod, es[..k - 1]), es[k - 1], i);
    }
  }

  lemma TrappedNeverHandsOver(pod: Pod, es: seq<Encounter>, spec: Spec, oom: set<string>, k: nat)
    requires Sound(pod) && PodFits(pod) && pod.statusQos.Some? && UnderSpec(es, spec) && SameKills(es, oom)
    requires k < |es| && !NoKilledTrapped(pod, spec, oom)
    ensures WantsIn(pod, es, k)
  {
    var i :| 0 <= i < |pod.containers| && pod.containers[i].name in oom &&
             Trapped(pod.containers[i], spec, QosClass(pod) == Guaranteed);
    assert es[k] in es;
    TrappedAllAlong(pod, es, spec, oom, k, i);
    AfterKeepsShape(pod, es[..k]);
    TrappedPass(PodAfter(pod, es[..k]), es[k], i);
  }

  lemma OneMoreAdds(pod: Pod, es: seq<Encounter>, k: nat)
    requires k < |es|
    ensures Bumps(pod, es[..k]) <= Bumps(pod, es[..k + 1])
  {
    AfterOneMore(pod, es, k);
  }

  lemma {:induction false} BumpsOnlyAdd(pod: Pod, es: seq<Encounter>, j: nat, k: nat)
    requires j <= k <= |es|
    ensures Bumps(pod, es[..j]) <= Bumps(pod, es[..k])
  {
    if j < k {
      BumpsOnlyAdd(pod, es, j, k - 1);
      OneMoreAdds(pod, es, k - 1);
    }
  }

  /** The first pass that does not want to bump; no pass before it resizes. */
  lemma {:induction false} FirstNotWanting(pod: Pod, es: seq<Encounter>, n: nat) returns (k: nat)
    requires PodFits(pod) && Sound(pod) && n < |es| && !WantsIn(pod, es, n)
    ensures k <= n && !WantsIn(pod, es, k) && forall j :: 0 <= j < k ==> WantsIn(pod, es, j)
  {
    if j :| 0 <= j < n && !WantsIn(pod, es, j) {
      k := FirstNotWanting(pod, es, j);
    } else {
      k := n;
    }
  }

  /** Over passes within the lookback of the same kills, the fast path hands the pod over
      to ordinary resizing if and only if no killed container is trapped and, before the
      last of them, as many bumps were accepted as any killed container had left. */
  lemma HandsOverExactly(pod: Pod, es: seq<Encounter>, spec: Spec, oom: set<string>)
    requires Sound(pod) && PodFits(pod) && pod.statusQos.Some? && UnderSpec(es, spec) && SameKills(es, oom)
    requires es != []
    ensures (exists k :: 0 <= k < |es| && !WantsIn(pod, es, k)) <==>
            && NoKilledTrapped(pod, spec, oom)
            && Bumps(pod, es[..|es| - 1]) >= MostLeft(pod.containers, oom, spec)
  {
    if !NoKilledTrapped(pod, spec, oom) {
      forall k | 0 <= k < |es| ensures WantsIn(pod, es, k) {
        TrappedNeverHandsOver(pod, es, spec, oom, k);
      }
    } else if n :| 0 <= n < |es| && !WantsIn(pod, es, n) {
      var k := FirstHandOver(pod, es, spec, oom, n);
      EnoughBumps(pod, es, k, MostLeft(pod.containers, oom, spec));
    } else {
      WantingNeverResizes(pod, es, |es| - 1);
      PassBumpsExactly(pod, es, spec, oom, |es| - 1);
    }
  }

  lemma WantingNeverResizes(pod: Pod, es: seq<Encounter>, k: nat)
    requires k <= |es| && forall j :: 0 <= j < k ==> WantsIn(pod, es, j)
    ensures forall j :: 0 <= j < k ==> !ResizesIn(pod, es, j)
  {
    forall j | 0 <= j < k ensures !ResizesIn(pod, es, j) {
      assert WantsIn(pod, es, j);
    }
  }

  lemma FirstHandOver(pod: Pod, es: seq<Encounter>, spec: Spec, oom: set<string>, n: nat) returns (k: nat)
    requires Sound(pod) && PodFits(pod) && pod.statusQos.Some? && UnderSpec(es, spec) && SameKills(es, oom)
    requires n < |es| && !WantsIn(pod, es, n) && NoKilledTrapped(pod, spec, oom)
    ensures k <= n && Bumps(pod, es[..k]) >= MostLeft(pod.containers, oom, spec)
  {
    k := FirstNotWanting(pod, es, n);
    WantingNeverResizes(pod, es, k);
    PassBumpsExactly(pod, es, spec, oom, k);
  }

  lemma EnoughBumps(pod: Pod, es: seq<Encounter>, k: nat, most: nat)
    requires k < |es| && Bumps(pod, es[..k]) >= most
    ensures Bumps(pod, es[..|es| - 1]) >= most
  {
    BumpsOnlyAdd(pod, es, k, |es| - 1);
  }

  // ---------- Exactly when the fast path takes the pod back ----------

  /** A resize to these targets would put memory where a further bump raises it: under the
      cap, and above the single byte that is never bumped. */
  predicate Regains(c: Container, targets: Targets, spec: Spec, g: bool) {
    && Unsettled(c, targets, DefaultPolicy(spec), g)
    && 2 <= NextAmount(c, Memory, targets[c.name], DefaultPolicy(spec), g) < MemoryBounds(spec, c.name).max
  }

  lemma RegainsExactly(c: Container, targets: Targets, spec: Spec, g: bool)
    requires Fits(c) && (g ==> Pinned(c)) && Left(c, spec) == 0
    ensures Left(After(c, Resize(targets), DefaultPolicy(spec), g), spec) > 0 <==> Regains(c, targets, spec, g)
  {
    var d := After(c, Resize(targets), DefaultPolicy(spec), g);
    PlannedExactly(c, targets, DefaultPolicy(spec), g);
    LeftExactly(d, spec);
    StepKeepsShape(c, Resize(targets), DefaultPolicy(spec), g);
    if Unsettled(c, targets, DefaultPolicy(spec), g) {
      RequestTakesOneStep(c, targets, DefaultPolicy(spec), g, Memory);
    }
  }

  /** The pass resizes the pod so that a killed container can be bumped again. */
  predicate TakesBack(pod: Pod, e: Encounter, oom: set<string>) {
    && Resizes(pod, e)
    && exists c <- pod.containers ::
         c.name in oom && Regains(c, e.pass.targets, e.pass.spec, QosClass(pod) == Guaranteed)
  }

  lemma ResizeRegains(pod: Pod, targets: Targets, spec: Spec, m: Moment)
    requires Sound(pod) && PodFits(pod) && QosClass(pod) != BestEffort
    requires forall c <- pod.containers :: c.name in KilledAt(m) ==> Left(c, spec) == 0
    ensures WantsBump(StepPod(pod, Resize(targets), DefaultPolicy(spec)), spec, m) <==>
            exists i :: 0 <= i < |pod.containers| && pod.containers[i].name in KilledAt(m) &&
                        Regains(pod.containers[i], targets, spec, QosClass(pod) == Guaranteed)
  {
    var g, a, policy := QosClass(pod) == Guaranteed, Resize(targets), DefaultPolicy(spec);
    var after := StepPod(pod, a, policy);
    StepIsPointwise(pod, a, policy);
    StepKeepsSound(pod, a, policy);
    forall i | 0 <= i < |pod.containers|
      ensures after.containers[i].name == pod.containers[i].name
      ensures pod.containers[i].name in KilledAt(m) ==>
                (Left(after.containers[i], spec) > 0 <==> Regains(pod.containers[i], targets, spec, g))
    {
      assert pod.containers[i] in pod.containers;
      if pod.containers[i].name in KilledAt(m) {
        RegainsExactly(pod.containers[i], targets, spec, g);
      }
    }
    WantsBumpExactly(after, spec, m);
  }

  lemma NothingLeft(pod: Pod, spec: Spec, m: Moment)
    requires PodFits(pod) && !WantsBump(pod, spec, m)
    ensures forall c <- pod.containers :: c.name in KilledAt(m) ==> Left(c, spec) == 0
  {
    WantsBumpExactly(pod, spec, m);
  }

  lemma SameKillsWantTheSame(pod: Pod, spec: Spec, m: Moment, m': Moment)
    requires PodFits(pod) && KilledAt(m) == KilledAt(m')
    ensures WantsBump(pod, spec, m) <==> WantsBump(pod, spec, m')
  {
    WantsBumpExactly(pod, spec, m);
    WantsBumpExactly(pod, spec, m');
  }

  lemma PassedResized(pod: Pod, e: Encounter)
    requires PodFits(pod) && Resizes(pod, e)
    ensures Passed(pod, e) == StepPod(pod, Resize(e.pass.targets), PolicyOf(e))
  {
    ResizesExactly(pod, e);
  }

  lemma PassedOtherwise(pod: Pod, e: Encounter)
    requires PodFits(pod) && !Resizes(pod, e) && !Wants(pod, e)
    ensures Passed(pod, e) == pod
  {
    ResizesExactly(pod, e);
    DeedExactly(pod, e);
    PassKeepsOthers(pod, e);
  }

  /** After a pass that did not want to bump, the next one that sees the same kills wants
      to exactly when the pass took the pod back. */
  lemma NextWantsExactly(pod: Pod, e: Encounter, m: Moment)
    requires Sound(pod) && PodFits(pod) && !Wants(pod, e) && KilledAt(m) == KilledAt(MomentOf(e))
    ensures WantsBump(Passed(pod, e), e.pass.spec, m) <==> TakesBack(pod, e, KilledAt(m))
  {
    if Resizes(pod, e) {
      PassedResized(pod, e);
      NothingLeft(pod, e.pass.spec, MomentOf(e));
      ResizeRegains(pod, e.pass.targets, e.pass.spec, m);
    } else {
      PassedOtherwise(pod, e);
      SameKillsWantTheSame(pod, e.pass.spec, m, MomentOf(e));
    }
  }

  /** Pass k of the run takes the pod back. */
  predicate TakesBackIn(pod: Pod, es: seq<Encounter>, oom: set<string>, k: nat)
    requires k < |es|
  {
    TakesBack(PodAfter(pod, es[..k]), es[k], oom)
  }

  lemma WantsAfterPass(pod: Pod, es: seq<Encounter>, spec: Spec, oom: set<string>, k: nat)
    requires Sound(pod) && PodFits(pod) && UnderSpec(es, spec) && SameKills(es, oom)
    requires k + 1 < |es| && !WantsIn(pod, es, k)
    ensures WantsIn(pod, es, k + 1) <==> TakesBackIn(pod, es, oom, k)
  {
    assert es[k] in es && es[k + 1] in es;
    AfterOneMore(pod, es, k);
    AfterKeepsShape(pod, es[..k]);
    NextWantsExactly(PodAfter(pod, es[..k]), es[k], MomentOf(es[k + 1]));
  }

  lemma {:induction false} HandedOverUntilTakenBack(pod: Pod, es: seq<Encounter>, spec: Spec, oom: set<string>, k: nat)
    requires Sound(pod) && PodFits(pod) && UnderSpec(es, spec) && SameKills(es, oom)
    requires k < |es| && !WantsIn(pod, es, 0) && forall j :: 0 <= j < k ==> !TakesBackIn(pod, es, oom, j)
    ensures !WantsIn(pod, es, k)
  {
    if k > 0 {
      HandedOverUntilTakenBack(pod, es, spec, oom, k - 1);
      WantsAfterPass(pod, es, spec, oom, k - 1);
    }
  }

  lemma {:induction false} FirstTakenBack(pod: Pod, es: seq<Encounter>, oom: set<string>, n: nat) returns (k: nat)
    requires n < |es| && TakesBackIn(pod, es, oom, n)
    ensures k <= n && TakesBackIn(pod, es, oom, k) && forall j :: 0 <= j < k ==> !TakesBackIn(pod, es, oom, j)
  {
    if j :| 0 <= j < n && TakesBackIn(pod, es, oom, j) {
      k := FirstTakenBack(pod, es, oom, j);
    } else {
      k := n;
    }
  }

  /** Once handed over, within the lookback of the same kills, the pod is bumped again if
      and only if some pass but the last resizes it so that the memory of a killed
      container comes to lie below its cap again. */
  lemma BumpsAgainExactly(pod: Pod, es: seq<Encounter>, spec: Spec, oom: set<string>)
    requires Sound(pod) && PodFits(pod) && UnderSpec(es, spec) && SameKills(es, oom)
    requires es != [] && !WantsIn(pod, es, 0)
    ensures (exists k :: 0 <= k < |es| && WantsIn(pod, es, k)) <==>
            (exists k :: 0 <= k < |es| - 1 && TakesBackIn(pod, es, oom, k))
  {
    if n :| 0 <= n < |es| - 1 && TakesBackIn(pod, es, oom, n) {
      var k := FirstTakenBack(pod, es, oom, n);
      HandedOverUntilTakenBack(pod, es, spec, oom, k);
      WantsAfterPass(pod, es, spec, oom, k);
    } else {
      forall k | 0 <= k < |es| ensures !WantsIn(pod, es, k) {
        HandedOverUntilTakenBack(pod, es, spec, oom, k);
      }
    }
  }

  // ---------- A concrete pod that is bumped again ----------

  function PodWith(mem: nat): Pod {
    Pod("pod", [Container("app", map[CPU := 100, Memory := mem], map[])], Some(Burstable), false, true, [], [])
  }

  const HALF: Targets := map["app" := map[CPU := 100, Memory := 512]]

  function UpTo1024(): Spec {
    Spec(Bounds(0, 1000), Bounds(0, 1024), None, [], None, None, None, InPlaceOnly)
  }

  /** A pass at this time, outside the cooldowns, that sees a kill at time 0. */
  function KillSeen(now: int): Encounter {
    Encounter(Pass(UpTo1024(), HALF, false, true, true, now),
              [ContainerStatus("app", Some(Termination("OOMKilled", 0)))], [], false, true, Done, 1)
  }

  lemma KilledWithin(now: int)
    requires 0 <= now <= OOM_LOOKBACK
    ensures KilledAt(MomentOf(KillSeen(now))) == {"app"}
  {
    assert RecentOom(KillSeen(now).statuses[0], now);
  }

  lemma AtTheCap(now: int)
    requires 0 <= now <= OOM_LOOKBACK
    ensures !Wants(PodWith(1024), KillSeen(now)) && Wants(PodWith(820), KillSeen(now))
  {
    KilledWithin(now);
    WantsBumpExactly(PodWith(1024), UpTo1024(), MomentOf(KillSeen(now)));
    WantsBumpExactly(PodWith(820), UpTo1024(), MomentOf(KillSeen(now)));
    LeftExactly(PodWith(1024).containers[0], UpTo1024());
    LeftExactly(PodWith(820).containers[0], UpTo1024());
  }

  lemma ShrinksTo820()
    ensures var (policy, a) := (DefaultPolicy(UpTo1024()), Resize(HALF));
            && PlanFor(PodWith(1024), a, policy).Some?
            && PlanFor(PodWith(1024), a, policy).value.direction == Down
            && StepPod(PodWith(1024), a, policy) == PodWith(820)
  {
    var policy, a, pod := DefaultPolicy(UpTo1024()), Resize(HALF), PodWith(1024);
    var c, shrunk := pod.containers[0], PodWith(820).containers[0];
    assert !WithinTolerance(1024, 512, policy.tolerance);
    assert StepClamp(1024, 512, policy) == 820 && StepClamp(100, 100, policy) == 100;
    assert PlanOne(c, a, policy, false) == Some(Change("app", shrunk.requests, None));
    assert After(c, a, policy, false) == shrunk;
    PlannedMeansChanges(pod.containers, a, policy, false, 0);
    StepIsPointwise(pod, a, policy);
    assert StepPod(pod, a, policy).containers == [shrunk];
  }

  lemma NoneLeftAt1024()
    ensures MostLeft(PodWith(1024).containers, {"app"}, UpTo1024()) == 0
  {
    MostLeftExceeds(PodWith(1024).containers, {"app"}, UpTo1024(), 0);
    LeftExactly(PodWith(1024).containers[0], UpTo1024());
  }

  lemma ResizedFirst()
    ensures DeedOn(PodWith(1024), KillSeen(0)) == Resized(Down) && Passed(PodWith(1024), KillSeen(0)) == PodWith(820)
  {
    AtTheCap(0);
    ShrinksTo820();
    MetWantsTheSame(PodWith(1024), KillSeen(0));
  }

  /** At its cap of 1024 bytes and just killed, the pod has no bump left; the pass resizes
      it towards 512, which leaves 820, and a minute later the same kill bumps it again. */
  lemma BumpedAgainWithinTheLookback()
    ensures MostLeft(PodWith(1024).containers, {"app"}, UpTo1024()) == 0
    ensures DeedOn(PodWith(1024), KillSeen(0)) == Resized(Down) && Passed(PodWith(1024), KillSeen(0)) == PodWith(820)
    ensures DeedOn(PodWith(820), KillSeen(MINUTE)).Bumped?
  {
    NoneLeftAt1024();
    ResizedFirst();
    AtTheCap(MINUTE);
    DeedExactly(PodWith(820), KillSeen(MINUTE));
  }
}
