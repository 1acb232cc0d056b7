/** What every pass and every run of passes keeps: accounting of actions, at most one
    eviction per workload, and the spacing that cooldowns promise. */
module PassProperties {
  import opened Resources
  import opened Planner
  import opened PodRuns
  import opened OomRuns
  import opened Webhook
  import opened Api
  import opened UsagePass
  import opened HpaCoordination
  import opened Cooldowns
  import opened Folds
  import opened Actuation

  // ---------- Accounting within one pass ----------

  /** The choice made for pod i: that of `Decide` with the eviction budget then left. */
  lemma {:induction false} DeedAt(p: Pass, turns: seq<Turn>, i: nat)
    requires i < |Deeds(p, turns)|
    ensures |Deeds(p, turns)| <= |turns|
    ensures i <= |Deeds(p, turns)| && Deeds(p, turns)[i] == Decide(p, turns[i], Budget(Deeds(p, turns)[..i]))
  {
    DeedsLength(p, turns);
    var front := turns[..|turns| - 1];
    var before := Deeds(p, front);
    DeedsLength(p, front);
    if i < |before| {
      DeedAt(p, front, i);
      assert Deeds(p, turns)[..i] == before[..i];
    } else {
      assert Deeds(p, turns)[..i] == before;
    }
  }

  /** At most one pod per workload and pass is evicted. */
  lemma {:induction false} AtMostOneEviction(p: Pass, turns: seq<Turn>)
    ensures Evictions(Deeds(p, turns)) <= 1
  {
    if turns != [] {
      var front, last := turns[..|turns| - 1], turns[|turns| - 1];
      AtMostOneEviction(p, front);
      OneMoreEviction(Deeds(p, front), Decide(p, last, Budget(Deeds(p, front))));
      NoBudgetNoEviction(p, last);
    }
  }

  lemma OneMoreEviction(deeds: seq<Deed>, d: Deed)
    ensures Evictions(deeds + [d]) == Evictions(deeds) + (if d.Evicted? then 1 else 0)
  {
    assert (deeds + [d])[..|deeds|] == deeds;
  }

  lemma NoBudgetNoEviction(p: Pass, turn: Turn)
    ensures !Decide(p, turn, 0).Evicted?
  {}

  /** Who is evicted: the first running pod of the pass that in-place resizing cannot fix
      and whose eviction the API accepts, in recreate mode, with the webhook there to size
      the replacement, outside the down cooldown. */
  lemma EvictedExactly(p: Pass, turns: seq<Turn>, i: nat)
    requires i < |Deeds(p, turns)| && i < |turns|
    ensures Deeds(p, turns)[i] == Evicted <==>
            && Evictions(Deeds(p, turns)[..i]) == 0 && turns[i].reply == Done
            && turns[i].pod.running && !turns[i].pod.deleting
            && p.spec.updateMode == InPlaceOrRecreate && p.webhook && p.allowDown
            && (Infeasible(turns[i].pod) || BlockedMemoryShrink(turns[i].pod, p.targets, DefaultPolicy(p.spec)))
  {
    DeedAt(p, turns, i);
  }

  /** A pod that does not need recreation is treated as if it were alone: siblings of
      the same pass never block each other. */
  lemma SiblingsDoNotBlock(p: Pass, turns: seq<Turn>, i: nat, budget: nat)
    requires i < |Deeds(p, turns)| && i < |turns| && !NeedsRecreate(p, turns[i].pod)
    ensures Deeds(p, turns)[i] == Decide(p, turns[i], budget)
  {
    DeedAt(p, turns, i);
  }

  /** Who is resized: a running pod without an infeasible resize, a wanted recreation or an
      OOM bump before it, with a plan of that direction which the tracker allowed at the
      start of the pass and the API accepted. */
  lemma ResizedExactly(p: Pass, turns: seq<Turn>, i: nat, d: Direction)
    requires i < |Deeds(p, turns)| && i < |turns|
    ensures Deeds(p, turns)[i] == Resized(d) <==>
            && turns[i].pod.running && !turns[i].pod.deleting && turns[i].reply == Done
            && !NeedsRecreate(p, turns[i].pod) && !Infeasible(turns[i].pod)
            && !WantsBump(turns[i].pod, p.spec, Now(turns[i].pod, p.now))
            && var plan := PlanFor(turns[i].pod, Resize(p.targets), DefaultPolicy(p.spec));
               plan.Some? && plan.value.direction == d && (if d == Up then p.allowUp else p.allowDown)
  {
    DeedAt(p, turns, i);
  }

  /** Who is bumped: a running pod without an infeasible resize or a wanted recreation, for
      which the fast path has a plan that the API accepts, whatever the cooldowns say. */
  lemma BumpedExactly(p: Pass, turns: seq<Turn>, i: nat)
    requires i < |Deeds(p, turns)| && i < |turns|
    ensures Deeds(p, turns)[i] == Bumped <==>
            && turns[i].pod.running && !turns[i].pod.deleting && turns[i].reply == Done
            && !NeedsRecreate(p, turns[i].pod) && !Infeasible(turns[i].pod)
            && WantsBump(turns[i].pod, p.spec, Now(turns[i].pod, p.now))
  {
    DeedAt(p, turns, i);
  }

  // ---------- Exactly when a pass fails ----------

  /** What a pass would have the API server do to the pod in place. */
  predicate AsksInPlace(p: Pass, pod: Pod) {
    && pod.running && !pod.deleting && !NeedsRecreate(p, pod) && !Infeasible(pod)
    && (|| WantsBump(pod, p.spec, Now(pod, p.now))
        || (var plan := PlanFor(pod, Resize(p.targets), DefaultPolicy(p.spec));
            plan.Some? && (if plan.value.direction == Up then p.allowUp else p.allowDown)))
  }

  /** The API server rejects a bump or resize that the pass asks for. */
  predicate Rejects(p: Pass, turn: Turn) {
    turn.reply == Rejected && AsksInPlace(p, turn.pod)
  }

  lemma EndsPassExactly(p: Pass, turn: Turn, budget: nat)
    ensures EndsPass(Decide(p, turn, budget)) <==> Rejects(p, turn)
  {}

  lemma FailedOneMore(deeds: seq<Deed>, d: Deed)
    ensures Failed(deeds + [d]) <==> Failed(deeds) || EndsPass(d)
  {
    assert forall x :: x in deeds + [d] <==> x in deeds || x == d;
  }

  ghost predicate SomeRejected(p: Pass, turns: seq<Turn>) {
    exists turn <- turns :: Rejects(p, turn)
  }

  /** A pass fails if and only if some bump or resize it asks for is rejected, wherever
      its pod comes and whatever happened to the pods before it. */
  lemma {:induction false} FailedExactly(p: Pass, turns: seq<Turn>)
    ensures Failed(Deeds(p, turns)) <==> SomeRejected(p, turns)
  {
    if turns != [] {
      var front, last := turns[..|turns| - 1], turns[|turns| - 1];
      var before := Deeds(p, front);
      FailedExactly(p, front);
      assert SomeRejected(p, turns) <==> SomeRejected(p, front) || Rejects(p, last) by {
        assert turns == front + [last];
      }
      EndsPassExactly(p, last, Budget(before));
      FailedOneMore(before, Decide(p, last, Budget(before)));
    }
  }

  /** Who is refused a recreation: a running pod that in-place resizing cannot fix, in
      recreate mode, without the webhook. */
  lemma RefusedExactly(p: Pass, turns: seq<Turn>, i: nat)
    requires i < |Deeds(p, turns)| && i < |turns|
    ensures Deeds(p, turns)[i] == RecreateRefused <==>
            && turns[i].pod.running && !turns[i].pod.deleting
            && p.spec.updateMode == InPlaceOrRecreate && !p.webhook
            && (Infeasible(turns[i].pod) || BlockedMemoryShrink(turns[i].pod, p.targets, DefaultPolicy(p.spec)))
  {
    DeedAt(p, turns, i);
  }

  /** Who is reported infeasible: a running pod whose pending resize the node refused,
      outside recreate mode. */
  lemma ReportedExactly(p: Pass, turns: seq<Turn>, i: nat)
    requires i < |Deeds(p, turns)| && i < |turns|
    ensures Deeds(p, turns)[i] == ReportedInfeasible <==>
            && turns[i].pod.running && !turns[i].pod.deleting
            && p.spec.updateMode != InPlaceOrRecreate && Infeasible(turns[i].pod)
  {
    DeedAt(p, turns, i);
  }

  /** Pods that were evicted, bumped or resized, by position. */
  function Acted(deeds: seq<Deed>): set<nat> {
    set i: nat | i < |deeds| &&
                 (deeds[i] == Evicted || deeds[i] == Bumped || deeds[i] == Resized(Up) || deeds[i] == Resized(Down))
  }

  lemma SucceededExactly(d: Deed)
    ensures Succeeded(d) <==> d == Evicted || d == Bumped || d == Resized(Up) || d == Resized(Down)
  {
    if d.Resized? {
      assert d.direction == Up || d.direction == Down;
    }
  }

  /** The count reported is the number of pods acted on: each pod once at most. */
  lemma {:induction false} ResizedCountsPods(deeds: seq<Deed>)
    ensures Successes(deeds) == |Acted(deeds)|
  {
    if deeds != [] {
      var n := |deeds| - 1;
      var front := deeds[..n];
      ResizedCountsPods(front);
      SucceededExactly(deeds[n]);
      assert Acted(deeds) == Acted(front) + (if Succeeded(deeds[n]) then {n} else {});
    }
  }

  lemma {:induction false} NamesReported(turns: seq<Turn>, deeds: seq<Deed>, name: string)
    requires |deeds| <= |turns|
    ensures name in InfeasibleNames(turns, deeds) <==>
            exists i :: 0 <= i < |deeds| && deeds[i] == ReportedInfeasible && turns[i].pod.name == name
  {
    if deeds != [] {
      var n := |deeds| - 1;
      NamesReported(turns, deeds[..n], name);
      if i :| 0 <= i < n && deeds[..n][i] == ReportedInfeasible && turns[i].pod.name == name {
        assert deeds[i] == ReportedInfeasible;
      }
      if i :| 0 <= i < n && deeds[i] == ReportedInfeasible && turns[i].pod.name == name {
        assert deeds[..n][i] == ReportedInfeasible;
      }
    }
  }

  /** What a pass reports, by what happened to its pods: how many were acted on, which
      have an infeasible resize, and whether a recreation was refused. */
  lemma ReportExactly(turns: seq<Turn>, deeds: seq<Deed>)
    requires |deeds| <= |turns|
    ensures var r := AddDeeds(Result(0, [], false), turns, deeds);
            && r.resized == |Acted(deeds)|
            && (r.recreateBlocked <==> exists i :: 0 <= i < |deeds| && deeds[i] == RecreateRefused)
            && forall name :: name in r.infeasible <==>
                 exists i :: 0 <= i < |deeds| && deeds[i] == ReportedInfeasible && turns[i].pod.name == name
  {
    ResizedCountsPods(deeds);
    forall name
      ensures name in AddDeeds(Result(0, [], false), turns, deeds).infeasible <==>
              exists i :: 0 <= i < |deeds| && deeds[i] == ReportedInfeasible && turns[i].pod.name == name
    {
      NamesReported(turns, deeds, name);
    }
  }

  // ---------- Safety towards the HPA, through a pass ----------

  /** Targets come from coordination with a guard; then no in-place resize of the pass
      pushes a watched resource of a container out of the guard. */
  lemma PassIsSafe(p: Pass, targets: Targets, usage: Snapshot, g: Guard, turns: seq<Turn>, i: nat, c: nat,
                   r: ResourceName)
    requires p.targets == FloorTargets(targets, usage, g)
    requires i < |Deeds(p, turns)| && i < |turns| && Deeds(p, turns)[i].Resized?
    requires Sound(turns[i].pod) && PodFits(turns[i].pod) && c < |turns[i].pod.containers|
    requires turns[i].pod.containers[c].name in usage && r in {CPU, Memory} && Watches(g, r)
    ensures var before := turns[i].pod.containers[c];
            var after := StepPod(turns[i].pod, Resize(p.targets), DefaultPolicy(p.spec));
            && |after.containers| == |turns[i].pod.containers|
            && (Amount(after.containers[c].requests, r) < Amount(before.requests, r) ==>
                  WithinUtilization(UsedOf(usage[before.name], r), Percent(g, r),
                                    Amount(after.containers[c].requests, r)))
  {
    var pod := turns[i].pod;
    StepIsPointwise(pod, Resize(p.targets), DefaultPolicy(p.spec));
    if pod.containers[c].name in targets {
      LoweringIsSafe(pod.containers[c], targets, usage, g, DefaultPolicy(p.spec), QosClass(pod) == Guaranteed, r);
    }
  }

  // ---------- Cooldown spacing over runs ----------

  /** One workload in one pass of a run, under its own spec and targets. */
  datatype Visit = Visit(key: string, spec: Spec, targets: Targets, webhook: bool, now: int, turns: seq<Turn>)

  /** The pass of a visit, with what the tracker allows at that moment. */
  function PassOf(last: Stamps, v: Visit): Pass {
    PassAt(v.spec, v.targets, v.webhook, last, v.key, v.now)
  }

  function DeedsOf(last: Stamps, v: Visit): seq<Deed> {
    Deeds(PassOf(last, v), v.turns)
  }

  function AfterVisit(last: Stamps, v: Visit): Stamps {
    if Failed(DeedsOf(last, v)) then last else StampAll(last, v.key, Directions(DeedsOf(last, v)), v.now)
  }

  /** The tracker after the first k visits. */
  function StampsAt(start: Stamps, visits: seq<Visit>, k: nat): Stamps
    requires k <= |visits|
  {
    At(AfterVisit, start, visits, k)
  }

  /** Some pod was resized in this direction; an eviction counts as downward. */
  predicate ActsTowards(deeds: seq<Deed>, d: Direction) {
    Resized(d) in deeds || (d == Down && Evicted in deeds)
  }

  /** In visit k some pod was resized in this direction, or evicted. */
  predicate ActedIn(start: Stamps, visits: seq<Visit>, k: nat, d: Direction)
    requires k < |visits|
  {
    ActsTowards(DeedsOf(StampsAt(start, visits, k), visits[k]), d)
  }

  /** In visit k the API server rejected a bump or resize. */
  ghost predicate RejectedIn(start: Stamps, visits: seq<Visit>, k: nat)
    requires k < |visits|
  {
    SomeRejected(PassOf(StampsAt(start, visits, k), visits[k]), visits[k].turns)
  }

  lemma ActNeedsPermission(p: Pass, turn: Turn, budget: nat, d: Direction)
    requires Decide(p, turn, budget) == Resized(d) || (d == Down && Decide(p, turn, budget) == Evicted)
    ensures if d == Up then p.allowUp else p.allowDown
  {}

  lemma ActingNeedsPermission(p: Pass, turns: seq<Turn>, d: Direction)
    requires ActsTowards(Deeds(p, turns), d)
    ensures if d == Up then p.allowUp else p.allowDown
  {
    var deeds := Deeds(p, turns);
    var i :| 0 <= i < |deeds| && (deeds[i] == Resized(d) || (d == Down && deeds[i] == Evicted));
    DeedAt(p, turns, i);
    ActNeedsPermission(p, turns[i], Budget(deeds[..i]), d);
  }

  /** What a visit stamps, exactly: nothing when the API server rejects something in it;
      otherwise, of its key and at its time, the directions of its resizes, and Down for
      an eviction. */
  lemma VisitStampsExactly(last: Stamps, v: Visit)
    ensures if SomeRejected(PassOf(last, v), v.turns) then AfterVisit(last, v) == last
            else forall k, d ::
              StampOf(AfterVisit(last, v), k, d) ==
              if k == v.key && (Resized(d) in DeedsOf(last, v) || (d == Down && Evicted in DeedsOf(last, v)))
              then Some(v.now) else StampOf(last, k, d)
  {
    FailedExactly(PassOf(last, v), v.turns);
    StampsFollowDeeds(last, v.key, DeedsOf(last, v), v.now);
  }

  ghost predicate ClockRuns(visits: seq<Visit>) {
    forall i, j :: 0 <= i <= j < |visits| ==> visits[i].now <= visits[j].now
  }

  predicate StampedSince(last: Stamps, key: string, d: Direction, t: int) {
    StampOf(last, key, d).Some? && StampOf(last, key, d).value >= t
  }

  lemma VisitAdvances(last: Stamps, v: Visit, key: string, d: Direction, t: int)
    requires t <= v.now && StampedSince(last, key, d, t)
    ensures StampedSince(AfterVisit(last, v), key, d, t)
  {
    VisitStampsExactly(last, v);
  }

  lemma VisitStamps(last: Stamps, v: Visit, d: Direction)
    requires ActsTowards(DeedsOf(last, v), d) && !SomeRejected(PassOf(last, v), v.turns)
    ensures StampedSince(AfterVisit(last, v), v.key, d, v.now)
  {
    VisitStampsExactly(last, v);
  }

  /** A stamp, once written at time t, is never taken back below t. */
  lemma StampsOnlyAdvance(start: Stamps, visits: seq<Visit>, i: nat, k: nat, d: Direction)
    requires i < k <= |visits| && ClockRuns(visits)
    requires ActedIn(start, visits, i, d) && !RejectedIn(start, visits, i)
    ensures StampedSince(StampsAt(start, visits, k), visits[i].key, d, visits[i].now)
  {
    VisitStamps(StampsAt(start, visits, i), visits[i], d);
    StampStays(start, visits, i + 1, k, visits[i].key, d, visits[i].now);
  }

  lemma StampStays(start: Stamps, visits: seq<Visit>, i: nat, k: nat, key: string, d: Direction, t: int)
    requires i <= k <= |visits| && StampedSince(StampsAt(start, visits, i), key, d, t)
    requires forall j :: i <= j < k ==> t <= visits[j].now
    ensures StampedSince(StampsAt(start, visits, k), key, d, t)
  {
    forall last, j | i <= j < k && StampedSince(last, key, d, t)
      ensures StampedSince(AfterVisit(last, visits[j]), key, d, t)
    {
      VisitAdvances(last, visits[j], key, d, t);
    }
    AtKeeps(AfterVisit, start, visits, i, k, (last: Stamps) => StampedSince(last, key, d, t));
  }

  /** Spacing: two passes that both act on a workload in the same direction are at least
      the later one's cooldown apart, unless the API server rejected something that the
      earlier one asked for. */
  lemma CooldownSpacing(start: Stamps, visits: seq<Visit>, i: nat, j: nat, d: Direction)
    requires i < j < |visits| && ClockRuns(visits) && visits[i].key == visits[j].key
    requires ActedIn(start, visits, i, d) && ActedIn(start, visits, j, d)
    requires !RejectedIn(start, visits, i)
    ensures visits[j].now - visits[i].now >= CooldownFor(visits[j].spec, d)
  {
    StampsOnlyAdvance(start, visits, i, j, d);
    ActingNeedsPermission(PassOf(StampsAt(start, visits, j), visits[j]), visits[j].turns, d);
  }

  /** The exact condition: right after acting in a direction with a cooldown, a further
      action is allowed if and only if the API server rejected something in the pass. */
  lemma UnstampedExactlyAfterRejection(last: Stamps, v: Visit, d: Direction)
    requires ActsTowards(DeedsOf(last, v), d) && CooldownFor(v.spec, d) > 0
    ensures Allows(AfterVisit(last, v), v.key, d, CooldownFor(v.spec, d), v.now) <==>
            SomeRejected(PassOf(last, v), v.turns)
  {
    ActingNeedsPermission(PassOf(last, v), v.turns, d);
    VisitStampsExactly(last, v);
    AllowsByStamp(AfterVisit(last, v), v.key, d, CooldownFor(v.spec, d), v.now);
  }

  lemma AllowsByStamp(last: Stamps, key: string, d: Direction, cooldown: int, now: int)
    ensures Allows(last, key, d, cooldown, now) <==>
            StampOf(last, key, d).None? || now - StampOf(last, key, d).value >= cooldown
  {}

  /** When a visit may act: in a direction never stamped for its key, or stamped at least
      the cooldown of its spec ago. */
  lemma PermissionExactly(last: Stamps, v: Visit)
    ensures PassOf(last, v).allowUp <==>
            var t := StampOf(last, v.key, Up); t.None? || v.now - t.value >= CooldownFor(v.spec, Up)
    ensures PassOf(last, v).allowDown <==>
            var t := StampOf(last, v.key, Down); t.None? || v.now - t.value >= CooldownFor(v.spec, Down)
  {
    AllowsByStamp(last, v.key, Up, CooldownFor(v.spec, Up), v.now);
    AllowsByStamp(last, v.key, Down, CooldownFor(v.spec, Down), v.now);
  }

  // ---------- Two concrete visits closer than the cooldown ----------

  function Asking(name: string, n: nat): Pod {
    Pod(name, [Container("app", map[CPU := n, Memory := n], map[])], Some(Burstable), false, true, [], [])
  }

  const FAR: Targets := map["app" := map[CPU := 1000, Memory := 1000]]

  /** Far below its targets, the pod is planned to grow by half. */
  lemma GrowsByHalf(name: string, n: nat)
    requires n == 100 || n == 150
    ensures var (a, policy) := (Resize(FAR), DefaultPolicy(WithDefaults()));
            && PlanFor(Asking(name, n), a, policy).Some? && PlanFor(Asking(name, n), a, policy).value.direction == Up
            && StepPod(Asking(name, n), a, policy) == Asking(name, n + n / 2)
  {
    var a, policy, pod := Resize(FAR), DefaultPolicy(WithDefaults()), Asking(name, n);
    var c := pod.containers[0];
    var grown := Asking(name, n + n / 2).containers[0];
    assert PlanOne(c, a, policy, false) == Some(Change("app", grown.requests, None));
    assert After(c, a, policy, false) == grown;
    PlannedMeansChanges(pod.containers, a, policy, false, 0);
    StepIsPointwise(pod, a, policy);
    assert StepPod(pod, a, policy).containers == [grown];
  }

  lemma UpIsResized(p: Pass, turn: Turn, name: string, n: nat)
    requires p.spec == WithDefaults() && p.targets == FAR && p.allowUp && turn.pod == Asking(name, n)
    requires n == 100 || n == 150
    ensures turn.reply == Done ==> forall budget :: Decide(p, turn, budget) == Resized(Up)
    ensures Rejects(p, turn) <==> turn.reply == Rejected
  {
    GrowsByHalf(name, n);
    assert KilledAt(Now(turn.pod, p.now)) == {};
  }

  /** What happens to the first pod happens, whatever comes after it. */
  lemma {:induction false} FirstActs(p: Pass, turns: seq<Turn>)
    requires turns != [] && Decide(p, turns[0], 1) == Resized(Up)
    ensures Deeds(p, turns) != [] && Deeds(p, turns)[0] == Decide(p, turns[0], 1)
    ensures ActsTowards(Deeds(p, turns), Up)
  {
    var front := turns[..|turns| - 1];
    if front == [] {
      assert Deeds(p, turns) == [Decide(p, turns[0], 1)];
    } else {
      FirstActs(p, front);
    }
    assert Deeds(p, turns)[0] in Deeds(p, turns);
  }

  function FirstVisit(): Visit {
    Visit("ns/app", WithDefaults(), FAR, false, 0, [Turn(Asking("a", 100), Done), Turn(Asking("b", 100), Rejected)])
  }

  function SecondVisit(): Visit {
    Visit("ns/app", WithDefaults(), FAR, false, MINUTE, [Turn(Asking("a", 150), Done)])
  }

  /** Pod "a" is resized, pod "b" rejected, and a minute later pod "a" is resized again,
      although the cooldown is two minutes. */
  lemma RejectionDefeatsCooldown()
    ensures var visits := [FirstVisit(), SecondVisit()];
            && ActedIn(map[], visits, 0, Up) && ActedIn(map[], visits, 1, Up)
            && visits[1].now - visits[0].now < CooldownFor(WithDefaults(), Up)
            && StepPod(Asking("a", 100), Resize(FAR), DefaultPolicy(WithDefaults())) == Asking("a", 150)
  {
    var v, w := FirstVisit(), SecondVisit();
    var visits := [v, w];
    GrowsByHalf("a", 100);
    var p := PassOf(map[], v);
    UpIsResized(p, v.turns[0], "a", 100);
    UpIsResized(p, v.turns[1], "b", 100);
    assert v.turns[1] in v.turns && Rejects(p, v.turns[1]);
    FailedExactly(p, v.turns);
    FirstActs(p, v.turns);
    assert StampsAt(map[], visits, 0) == map[];
    assert StampsAt(map[], visits, 1) == AfterVisit(map[], v) == map[];
    UpIsResized(PassOf(map[], w), w.turns[0], "a", 150);
    FirstActs(PassOf(map[], w), w.turns);
  }
}
