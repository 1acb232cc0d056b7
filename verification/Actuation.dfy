/** One actuation pass over the pods of a workload, and over all workloads. What the API
    server and the rate limiter would answer for a pod comes in with the pod. */
module Actuation {
  import opened Resources
  import opened Planner
  import opened OomRuns
  import opened Webhook
  import opened Api
  import opened Cooldowns

  datatype Reply = Done | RateLimited | Rejected

  /** A pod, and the answer to the one API call the pass may make for it. */
  datatype Turn = Turn(pod: Pod, reply: Reply)

  /** What a pass over one workload works with; the tracker's answers are those of the
      moment the pass starts, since stamps are written after it. */
  datatype Pass = Pass(spec: Spec, targets: Targets, webhook: bool, allowUp: bool, allowDown: bool, now: int)

  /** What happened to one pod. */
  datatype Deed =
    | Skipped
    | RecreateRefused
    | EvictionHeld
    | EvictionFailed
    | Evicted
    | ReportedInfeasible
    | BumpLimited
    | BumpFailed
    | Bumped
    | NothingPlanned
    | CoolingDown
    | ResizeLimited
    | ResizeFailed
    | Resized(direction: Direction)

  predicate Succeeded(d: Deed) {
    d.Evicted? || d.Bumped? || d.Resized?
  }

  /** An Apply error other than the rate limit ends the whole pass. */
  predicate EndsPass(d: Deed) {
    d.BumpFailed? || d.ResizeFailed?
  }

  predicate IsInfeasibleCondition(c: PodCondition) {
    c.kind == "PodResizePending" && c.reason == "Infeasible"
  }

  predicate Infeasible(pod: Pod) {
    exists c <- pod.conditions :: IsInfeasibleCondition(c)
  }

  predicate NeedsRecreate(p: Pass, pod: Pod) {
    && p.spec.updateMode == InPlaceOrRecreate
    && (Infeasible(pod) || BlockedMemoryShrink(pod, p.targets, DefaultPolicy(p.spec)))
  }

  /** The choice for one pod, in the order of the pass. */
  function Decide(p: Pass, turn: Turn, budget: nat): Deed {
    var pod, policy := turn.pod, DefaultPolicy(p.spec);
    if pod.deleting || !pod.running then Skipped
    else if NeedsRecreate(p, pod) then
      if !p.webhook then RecreateRefused
      else if budget == 0 || !p.allowDown then EvictionHeld
      else if turn.reply == Done then Evicted else EvictionFailed
    else if Infeasible(pod) then ReportedInfeasible
    else if WantsBump(pod, p.spec, Now(pod, p.now)) then
      match turn.reply
      case Done => Bumped
      case RateLimited => BumpLimited
      case Rejected => BumpFailed
    else
      match PlanFor(pod, Resize(p.targets), policy)
      case None => NothingPlanned
      case Some(plan) =>
        if !(if plan.direction == Up then p.allowUp else p.allowDown) then CoolingDown
        else
          match turn.reply
          case Done => Resized(plan.direction)
          case RateLimited => ResizeLimited
          case Rejected => ResizeFailed
  }

  function Evictions(deeds: seq<Deed>): nat {
    if deeds == [] then 0
    else Evictions(deeds[..|deeds| - 1]) + (if deeds[|deeds| - 1].Evicted? then 1 else 0)
  }

  predicate Failed(deeds: seq<Deed>) {
    exists d <- deeds :: EndsPass(d)
  }

  function Budget(deeds: seq<Deed>): nat {
    if Evictions(deeds) == 0 then 1 else 0
  }

  /** The deeds of a pass, pod by pod; nothing follows an error. */
  function Deeds(p: Pass, turns: seq<Turn>): seq<Deed> {
    if turns == [] then []
    else
      var before := Deeds(p, turns[..|turns| - 1]);
      if Failed(before) then before else before + [Decide(p, turns[|turns| - 1], Budget(before))]
  }

  function Successes(deeds: seq<Deed>): nat {
    if deeds == [] then 0
    else Successes(deeds[..|deeds| - 1]) + (if Succeeded(deeds[|deeds| - 1]) then 1 else 0)
  }

  predicate ActsIn(d: Deed, dir: Direction) {
    d == Resized(dir) || (dir == Down && d.Evicted?)
  }

  /** The directions to stamp: resizes and evictions count, OOM bumps do not. */
  function Directions(deeds: seq<Deed>): set<Direction> {
    (if exists d <- deeds :: ActsIn(d, Up) then {Up} else {}) +
    (if exists d <- deeds :: ActsIn(d, Down) then {Down} else {})
  }

  function InfeasibleNames(turns: seq<Turn>, deeds: seq<Deed>): seq<string>
    requires |deeds| <= |turns|
  {
    if deeds == [] then []
    else
      var n := |deeds| - 1;
      InfeasibleNames(turns, deeds[..n]) + (if deeds[n].ReportedInfeasible? then [turns[n].pod.name] else [])
  }

  datatype Result = Result(resized: nat, infeasible: seq<string>, recreateBlocked: bool)

  /** A running result with the deeds of one more workload. */
  function AddDeeds(res: Result, turns: seq<Turn>, deeds: seq<Deed>): Result
    requires |deeds| <= |turns|
  {
    Result(res.resized + Successes(deeds), res.infeasible + InfeasibleNames(turns, deeds),
           res.recreateBlocked || RecreateRefused in deeds)
  }

  lemma {:induction false} DeedsLength(p: Pass, turns: seq<Turn>)
    ensures |Deeds(p, turns)| <= |turns|
    ensures !Failed(Deeds(p, turns)) ==> |Deeds(p, turns)| == |turns|
  {
    if turns != [] {
      DeedsLength(p, turns[..|turns| - 1]);
      var before := Deeds(p, turns[..|turns| - 1]);
      assert forall d :: d in before ==> d in before + [Decide(p, turns[|turns| - 1], Budget(before))];
    }
  }

  // ---------- The pass as the code runs it ----------

  method PodResizeInfeasible(pod: Pod) returns (infeasible: bool)
    ensures infeasible <==> Infeasible(pod)
    ensures infeasible <==> exists c <- pod.conditions :: c.kind == "PodResizePending" && c.reason == "Infeasible"
  {
    for i := 0 to |pod.conditions|
      invariant forall j :: 0 <= j < i ==> !IsInfeasibleCondition(pod.conditions[j])
    {
      if IsInfeasibleCondition(pod.conditions[i]) {
        return true;
      }
    }
    return false;
  }

  /** The OOM fast path of one pod: the plan it would apply, if any. */
  method PlanBump(pod: Pod, spec: Spec, now: int) returns (plan: Option<PodPlan>)
    ensures plan.Some? <==> WantsBump(pod, spec, Now(pod, now))
    ensures plan.Some? ==> plan == PlanFor(pod, BumpAt(spec, Now(pod, now)), DefaultPolicy(spec))
  {
    var names := OOMKilledContainers(pod, now);
    assert (set n | n in names) == KilledAt(Now(pod, now));
    if |names| == 0 {
      assert KilledAt(Now(pod, now)) == {};
      return None;
    }
    assert names[0] in KilledAt(Now(pod, now));
    var caps := MaxMemoryBounds(spec, names);
    assert caps == BumpAt(spec, Now(pod, now)).caps;
    plan := PlanOOMBump(pod, names, caps, DefaultPolicy(spec));
  }

  lemma OneMoreDeed(p: Pass, turns: seq<Turn>, i: nat)
    requires i < |turns| && !Failed(Deeds(p, turns[..i]))
    ensures |Deeds(p, turns[..i])| == i
    ensures Deeds(p, turns[..i + 1]) == Deeds(p, turns[..i]) + [Decide(p, turns[i], Budget(Deeds(p, turns[..i])))]
  {
    assert turns[..i + 1][..i] == turns[..i];
    DeedsLength(p, turns[..i]);
  }

  lemma AddOneDeed(res: Result, turns: seq<Turn>, deeds: seq<Deed>, d: Deed)
    requires |deeds| < |turns|
    ensures var before, after := AddDeeds(res, turns, deeds), AddDeeds(res, turns, deeds + [d]);
            && after.resized == before.resized + (if Succeeded(d) then 1 else 0)
            && after.infeasible == before.infeasible + (if d.ReportedInfeasible? then [turns[|deeds|].pod.name] else [])
            && after.recreateBlocked == (before.recreateBlocked || d.RecreateRefused?)
    ensures Failed(deeds + [d]) <==> Failed(deeds) || EndsPass(d)
    ensures Budget(deeds + [d]) == if d.Evicted? then 0 else Budget(deeds)
    ensures Directions(deeds + [d]) ==
            Directions(deeds) + (if ActsIn(d, Up) then {Up} else {}) + (if ActsIn(d, Down) then {Down} else {})
  {
    assert (deeds + [d])[..|deeds|] == deeds;
    assert forall x :: x in deeds + [d] <==> x in deeds || x == d;
  }

  /** The state a pass starts from, with the tracker's answers at that moment. */
  function PassAt(spec: Spec, targets: Targets, webhook: bool, last: Stamps, key: string, now: int): Pass {
    Pass(spec, targets, webhook,
         Allows(last, key, Up, CooldownFor(spec, Up), now), Allows(last, key, Down, CooldownFor(spec, Down), now), now)
  }

  /** One pod of the pass. */
  method ActOn(tracker: CooldownTracker, key: string, spec: Spec, targets: Targets, webhook: bool, now: int,
               turn: Turn, evictBudget: nat) returns (deed: Deed)
    ensures deed == Decide(PassAt(spec, targets, webhook, tracker.last, key, now), turn, evictBudget)
  {
    var pod, policy := turn.pod, DefaultPolicy(spec);
    if pod.deleting || !pod.running {
      return Skipped;
    }
    var infeasible := PodResizeInfeasible(pod);
    if spec.updateMode == InPlaceOrRecreate && (infeasible || BlockedMemoryShrink(pod, targets, policy)) {
      if !webhook {
        return RecreateRefused;
      }
      if evictBudget == 0 {
        return EvictionHeld;
      }
      var allowed := tracker.Allow(key, Down, CooldownFor(spec, Down), now);
      if !allowed {
        return EvictionHeld;
      }
      return if turn.reply == Done then Evicted else EvictionFailed;
    }
    if infeasible {
      return ReportedInfeasible;
    }
    var bump := PlanBump(pod, spec, now);
    if bump.Some? {
      return if turn.reply == Done then Bumped else if turn.reply == RateLimited then BumpLimited else BumpFailed;
    }
    var plan := PlanPod(pod, targets, policy);
    if plan.None? {
      return NothingPlanned;
    }
    var d := plan.value.direction;
    var ok := tracker.Allow(key, d, CooldownFor(spec, d), now);
    if !ok {
      return CoolingDown;
    }
    return if turn.reply == Done then Resized(d) else if turn.reply == RateLimited then ResizeLimited else ResizeFailed;
  }

  /** What the pass has counted so far for one workload. */
  datatype Tally = Tally(res: Result, budget: nat, dirs: set<Direction>)

  function TallyOf(res: Result, turns: seq<Turn>, deeds: seq<Deed>): Tally
    requires |deeds| <= |turns|
  {
    Tally(AddDeeds(res, turns, deeds), Budget(deeds), Directions(deeds))
  }

  /** The counters after one more pod. */
  method CountDeed(before: Tally, pod: Pod, deed: Deed,
                   ghost res0: Result, ghost turns: seq<Turn>, ghost deeds: seq<Deed>)
    returns (t: Tally)
    requires |deeds| < |turns| && turns[|deeds|].pod == pod && before == TallyOf(res0, turns, deeds)
    ensures t == TallyOf(res0, turns, deeds + [deed])
  {
    AddOneDeed(res0, turns, deeds, deed);
    t := before;
    match deed {
      case RecreateRefused => t := t.(res := t.res.(recreateBlocked := true));
      case ReportedInfeasible => t := t.(res := t.res.(infeasible := t.res.infeasible + [pod.name]));
      case Evicted => t := Tally(t.res.(resized := t.res.resized + 1), 0, t.dirs + {Down});
      case Bumped => t := t.(res := t.res.(resized := t.res.resized + 1));
      case Resized(d) => t := t.(res := t.res.(resized := t.res.resized + 1), dirs := t.dirs + {d});
      case _ =>
    }
  }

  lemma DeedsAfter(p: Pass, turns: seq<Turn>, j: nat, deeds: seq<Deed>, deed: Deed)
    requires j < |turns| && deeds == Deeds(p, turns[..j]) && !Failed(deeds)
    requires deed == Decide(p, turns[j], Budget(deeds))
    ensures |deeds| == j && deeds + [deed] == Deeds(p, turns[..j + 1])
    ensures Failed(deeds + [deed]) <==> EndsPass(deed)
    ensures EndsPass(deed) ==> Deeds(p, turns) == deeds + [deed]
  {
    OneMoreDeed(p, turns, j);
    assert forall x :: x in deeds + [deed] <==> x in deeds || x == deed;
    if EndsPass(deed) {
      FailureIsFinal(p, turns, j + 1);
    }
  }

  /** One pod of the loop: its deed, and the counters with it. */
  method VisitOne(tracker: CooldownTracker, key: string, spec: Spec, targets: Targets, webhook: bool, now: int,
                  turn: Turn, before: Tally, ghost res0: Result, ghost turns: seq<Turn>, ghost deeds: seq<Deed>)
    returns (t: Tally, deed: Deed)
    requires |deeds| < |turns| && turns[|deeds|] == turn && before == TallyOf(res0, turns, deeds)
    ensures deed == Decide(PassAt(spec, targets, webhook, tracker.last, key, now), turn, Budget(deeds))
    ensures t == TallyOf(res0, turns, deeds + [deed])
  {
    deed := ActOn(tracker, key, spec, targets, webhook, now, turn, before.budget);
    t := CountDeed(before, turn.pod, deed, res0, turns, deeds);
  }

  /** The loop over a workload's pods, with at most one eviction. */
  method VisitPods(tracker: CooldownTracker, key: string, spec: Spec, targets: Targets, webhook: bool, now: int,
                   turns: seq<Turn>, res0: Result) returns (t: Tally, failed: bool)
    ensures var deeds := Deeds(PassAt(spec, targets, webhook, tracker.last, key, now), turns);
            && |deeds| <= |turns| && t == TallyOf(res0, turns, deeds) && (failed <==> Failed(deeds))
  {
    ghost var p := PassAt(spec, targets, webhook, tracker.last, key, now);
    ghost var deeds: seq<Deed> := [];
    t, failed := Tally(res0, 1, {}), false;
    for j := 0 to |turns|
      invariant deeds == Deeds(p, turns[..j]) && |deeds| == j && !Failed(deeds)
      invariant t == TallyOf(res0, turns, deeds)
    {
      var deed;
      t, deed := VisitOne(tracker, key, spec, targets, webhook, now, turns[j], t, res0, turns, deeds);
      DeedsAfter(p, turns, j, deeds, deed);
      deeds := deeds + [deed];
      if EndsPass(deed) {
        return t, true;
      }
    }
    assert turns[..|turns|] == turns;
  }

  /** The stamps after a pass over the pods of `key`: a direction is stamped when some pod
      was resized in it, and downward also when one was evicted. Everything else, the
      directions of bumps and the other keys included, is as it was. */
  ghost predicate StampsFollow(before: Stamps, after: Stamps, key: string, deeds: seq<Deed>, now: int) {
    forall k, d ::
      StampOf(after, k, d) ==
      if k == key && (Resized(d) in deeds || (d == Down && Evicted in deeds)) then Some(now) else StampOf(before, k, d)
  }

  lemma DirectionsExactly(deeds: seq<Deed>, d: Direction)
    ensures d in Directions(deeds) <==> Resized(d) in deeds || (d == Down && Evicted in deeds)
  {}

  lemma StampsFollowDeeds(last: Stamps, key: string, deeds: seq<Deed>, now: int)
    ensures StampsFollow(last, StampAll(last, key, Directions(deeds), now), key, deeds, now)
  {
    forall k, d
      ensures StampOf(StampAll(last, key, Directions(deeds), now), k, d) ==
              if k == key && (Resized(d) in deeds || (d == Down && Evicted in deeds)) then Some(now)
              else StampOf(last, k, d)
    {
      DirectionsExactly(deeds, d);
      StampAllExactly(last, key, Directions(deeds), now, k, d);
    }
  }

  method RecordAll(tracker: CooldownTracker, key: string, dirs: set<Direction>, now: int, ghost deeds: seq<Deed>)
    requires dirs == Directions(deeds)
    modifies tracker
    ensures tracker.last == StampAll(old(tracker.last), key, dirs, now)
    ensures StampsFollow(old(tracker.last), tracker.last, key, deeds, now)
  {
    ghost var before := tracker.last;
    if Up in dirs {
      tracker.Record(key, Up, now);
    }
    if Down in dirs {
      tracker.Record(key, Down, now);
    }
    assert tracker.last == StampAll(before, key, Directions(deeds), now);
    StampsFollowDeeds(before, key, deeds, now);
  }

  /** The pass over one workload: its cooldowns are stamped once, after the last pod,
      and only if no error ended the pass. */
  method ActuateWorkload(tracker: CooldownTracker, key: string, spec: Spec, targets: Targets, webhook: bool, now: int,
                         turns: seq<Turn>, res0: Result) returns (res: Result, failed: bool)
    modifies tracker
    ensures var deeds := Deeds(PassAt(spec, targets, webhook, old(tracker.last), key, now), turns);
            && |deeds| <= |turns|
            && res == AddDeeds(res0, turns, deeds)
            && (failed <==> Failed(deeds))
            && tracker.last == (if failed then old(tracker.last)
                                else StampAll(old(tracker.last), key, Directions(deeds), now))
            && (!failed ==> StampsFollow(old(tracker.last), tracker.last, key, deeds, now))
  {
    var t, f := VisitPods(tracker, key, spec, targets, webhook, now, turns, res0);
    res, failed := t.res, f;
    if !failed {
      ghost var deeds := Deeds(PassAt(spec, targets, webhook, tracker.last, key, now), turns);
      RecordAll(tracker, key, t.dirs, now, deeds);
    }
  }

  /** Once an error has ended the pass, later pods add nothing. */
  lemma {:induction false} FailureIsFinal(p: Pass, turns: seq<Turn>, i: nat)
    requires i <= |turns| && Failed(Deeds(p, turns[..i]))
    ensures Deeds(p, turns) == Deeds(p, turns[..i])
  {
    if i == |turns| {
      assert turns[..i] == turns;
    } else {
      var front := turns[..|turns| - 1];
      assert front[..i] == turns[..i];
      FailureIsFinal(p, front, i);
    }
  }
}
