/** Actuation over all matched workloads: coordination first, then the pods. */
module ActuateAll {
  import opened Resources
  import opened Planner
  import opened Api
  import opened UsagePass
  import opened HpaCoordination
  import opened Cooldowns
  import opened Actuation

  /** A matched workload with what the reads for it come back with: its recommendation,
      its HPA, its mean usage, and its pods unless listing them fails. */
  datatype Workload = Workload(
    name: string, rec: Option<Targets>, lookup: HpaLookup, usage: Snapshot, turns: Option<seq<Turn>>)

  datatype Progress = Progress(res: Result, state: HpaState, failed: bool, last: Stamps)

  function Rank(s: HpaState): nat {
    match s
    case Idle => 0
    case AtMaxVertical => 1
    case Scaling => 2
  }

  function Worse(a: HpaState, b: HpaState): HpaState {
    if Rank(b) > Rank(a) then b else a
  }

  function KeyOf(ns: string, workload: string): string {
    ns + "/" + workload
  }

  /** One workload of the pass. */
  ghost function Next(pr: Progress, spec: Spec, ns: string, webhook: bool, w: Workload, now: int): Progress {
    if pr.failed || w.rec.None? then pr
    else
      match Coordination(spec, w.lookup, w.rec.value, w.usage, now)
      case Unreadable => pr.(failed := true)
      case Coordinated(state, targets) =>
        var seen := pr.(state := Worse(pr.state, state));
        if state == Scaling then seen
        else if w.turns.None? then seen.(failed := true)
        else OverPods(seen, spec, targets, ns, webhook, w.name, w.turns.value, now)
  }

  ghost function OverPods(pr: Progress, spec: Spec, targets: Targets, ns: string, webhook: bool, name: string,
                          turns: seq<Turn>, now: int): Progress {
    var p := PassAt(spec, targets, webhook, pr.last, KeyOf(ns, name), now);
    var deeds := Deeds(p, turns);
    DeedsLength(p, turns);
    Progress(AddDeeds(pr.res, turns, deeds), pr.state, Failed(deeds),
             if Failed(deeds) then pr.last else StampAll(pr.last, KeyOf(ns, name), Directions(deeds), now))
  }

  ghost function Through(start: Stamps, spec: Spec, ns: string, webhook: bool, ws: seq<Workload>, now: int): Progress {
    if ws == [] then Progress(Result(0, [], false), Idle, false, start)
    else Next(Through(start, spec, ns, webhook, ws[..|ws| - 1], now), spec, ns, webhook, ws[|ws| - 1], now)
  }

  /** The matched workloads in turn; the first error ends the pass. */
  method Actuate(tracker: CooldownTracker, spec: Spec, ns: string, webhook: bool, ws: seq<Workload>, now: int)
    returns (res: Result, state: HpaState, failed: bool)
    modifies tracker
    ensures Progress(res, state, failed, tracker.last) == Through(old(tracker.last), spec, ns, webhook, ws, now)
  {
    res, state, failed := Result(0, [], false), Idle, false;
    for i := 0 to |ws|
      invariant !failed
      invariant Progress(res, state, failed, tracker.last) ==
                Through(old(tracker.last), spec, ns, webhook, ws[..i], now)
    {
      assert ws[..i + 1][..i] == ws[..i];
      res, state, failed := ActuateOne(tracker, spec, ns, webhook, ws[i], now, res, state);
      if failed {
        ErrorEndsThePass(old(tracker.last), spec, ns, webhook, ws, now, i + 1);
        return;
      }
    }
    assert ws[..|ws|] == ws;
  }

  method ActuateOne(tracker: CooldownTracker, spec: Spec, ns: string, webhook: bool, w: Workload, now: int,
                    res0: Result, state0: HpaState)
    returns (res: Result, state: HpaState, failed: bool)
    modifies tracker
    ensures Progress(res, state, failed, tracker.last) ==
            Next(Progress(res0, state0, false, old(tracker.last)), spec, ns, webhook, w, now)
  {
    res, state, failed := res0, state0, false;
    if w.rec.None? {
      return;
    }
    var table := new TargetTable(w.rec.value);
    var here, unreadable := table.Coordinate(spec, w.lookup, w.usage, now);
    if unreadable {
      failed := true;
      return;
    }
    state := Worse(state, here);
    if here == Scaling {
      return;
    }
    if w.turns.None? {
      failed := true;
      return;
    }
    res, failed := ActuateWorkload(tracker, KeyOf(ns, w.name), spec, table.entries, webhook, now, w.turns.value, res);
  }

  lemma {:induction false} ErrorEndsThePass(start: Stamps, spec: Spec, ns: string, webhook: bool, ws: seq<Workload>,
                                            now: int, i: nat)
    requires i <= |ws| && Through(start, spec, ns, webhook, ws[..i], now).failed
    ensures Through(start, spec, ns, webhook, ws, now) == Through(start, spec, ns, webhook, ws[..i], now)
  {
    if i == |ws| {
      assert ws[..i] == ws;
    } else {
      var front := ws[..|ws| - 1];
      assert front[..i] == ws[..i];
      ErrorEndsThePass(start, spec, ns, webhook, front, now, i);
    }
  }

  // ---------- What the HPA can rely on ----------

  /** The two trackers agree on a workload's stamps. */
  predicate SameStamps(last: Stamps, after: Stamps, key: string) {
    && (key in last <==> key in after)
    && (key in last ==> last[key] == after[key])
  }

  lemma StampAllKeeps(last: Stamps, key: string, dirs: set<Direction>, now: int, other: string)
    requires key != other
    ensures SameStamps(last, StampAll(last, key, dirs, now), other)
  {}

  lemma OverPodsKeepsStamps(pr: Progress, spec: Spec, targets: Targets, ns: string, webhook: bool, name: string,
                            turns: seq<Turn>, now: int, key: string)
    requires key != KeyOf(ns, name)
    ensures SameStamps(pr.last, OverPods(pr, spec, targets, ns, webhook, name, turns, now).last, key)
  {
    var p := PassAt(spec, targets, webhook, pr.last, KeyOf(ns, name), now);
    StampAllKeeps(pr.last, KeyOf(ns, name), Directions(Deeds(p, turns)), now, key);
  }

  lemma NextKeepsStamps(pr: Progress, spec: Spec, ns: string, webhook: bool, w: Workload, now: int, key: string)
    requires key != KeyOf(ns, w.name) || MustWait(spec, w.lookup, now)
    ensures SameStamps(pr.last, Next(pr, spec, ns, webhook, w, now).last, key)
  {
    if w.rec.Some? {
      WaitsExactly(spec, w.lookup, w.rec.value, w.usage, now);
    }
    if !pr.failed && w.rec.Some? && w.turns.Some? && key != KeyOf(ns, w.name) {
      var c := Coordination(spec, w.lookup, w.rec.value, w.usage, now);
      if c.Coordinated? {
        var seen := pr.(state := Worse(pr.state, c.state));
        OverPodsKeepsStamps(seen, spec, c.targets, ns, webhook, w.name, w.turns.value, now, key);
      }
    }
  }

  /** A pass over all workloads leaves the cooldowns of a key alone unless one of its
      workloads has that key and need not wait for its HPA. */
  lemma {:induction false} PassKeepsStamps(start: Stamps, spec: Spec, ns: string, webhook: bool, ws: seq<Workload>,
                                           now: int, key: string)
    requires forall w <- ws :: key != KeyOf(ns, w.name) || MustWait(spec, w.lookup, now)
    ensures SameStamps(start, Through(start, spec, ns, webhook, ws, now).last, key)
  {
    if ws != [] {
      var front, w := ws[..|ws| - 1], ws[|ws| - 1];
      assert w in ws;
      PassKeepsStamps(start, spec, ns, webhook, front, now, key);
      NextKeepsStamps(Through(start, spec, ns, webhook, front, now), spec, ns, webhook, w, now, key);
    }
  }

  /** Coordination found this state for the workload. */
  ghost predicate HasState(spec: Spec, w: Workload, now: int, state: HpaState) {
    w.rec.Some? && Coordination(spec, w.lookup, w.rec.value, w.usage, now).Coordinated? &&
    Coordination(spec, w.lookup, w.rec.value, w.usage, now).state == state
  }

  lemma {:induction false} StateIsAtLeast(start: Stamps, spec: Spec, ns: string, webhook: bool, ws: seq<Workload>,
                                          now: int, i: nat)
    requires i < |ws| && ws[i].rec.Some? && !Through(start, spec, ns, webhook, ws, now).failed
    ensures exists s :: HasState(spec, ws[i], now, s) &&
                        Rank(Through(start, spec, ns, webhook, ws, now).state) >= Rank(s)
  {
    var front := ws[..|ws| - 1];
    if i < |front| {
      StateIsAtLeast(start, spec, ns, webhook, front, now, i);
    } else {
      var c := Coordination(spec, ws[i].lookup, ws[i].rec.value, ws[i].usage, now);
      assert HasState(spec, ws[i], now, c.state);
    }
  }

  lemma {:induction false} StateIsFound(start: Stamps, spec: Spec, ns: string, webhook: bool, ws: seq<Workload>,
                                        now: int)
    ensures var state := Through(start, spec, ns, webhook, ws, now).state;
            state == Idle || exists w <- ws :: HasState(spec, w, now, state)
  {
    if ws != [] {
      var front, last := ws[..|ws| - 1], ws[|ws| - 1];
      StateIsFound(start, spec, ns, webhook, front, now);
      var before := Through(start, spec, ns, webhook, front, now).state;
      var state := Through(start, spec, ns, webhook, ws, now).state;
      if state == before {
        if w :| w in front && HasState(spec, w, now, state) {
          assert w in ws;
        }
      } else {
        assert last in ws && HasState(spec, last, now, state);
      }
    }
  }

  /** The reported state: Scaling when some workload's is, otherwise AtMaxVertical when
      some workload's is, and Idle when all are Idle or none was coordinated. */
  lemma StateIsWorst(start: Stamps, spec: Spec, ns: string, webhook: bool, ws: seq<Workload>, now: int)
    requires !Through(start, spec, ns, webhook, ws, now).failed
    ensures Through(start, spec, ns, webhook, ws, now).state ==
            if exists w <- ws :: HasState(spec, w, now, Scaling) then Scaling
            else if exists w <- ws :: HasState(spec, w, now, AtMaxVertical) then AtMaxVertical
            else Idle
  {
    StateIsFound(start, spec, ns, webhook, ws, now);
    forall w <- ws, s | HasState(spec, w, now, s)
      ensures Rank(Through(start, spec, ns, webhook, ws, now).state) >= Rank(s)
    {
      var i :| 0 <= i < |ws| && ws[i] == w;
      StateIsAtLeast(start, spec, ns, webhook, ws, now, i);
    }
  }

  /** Workloads of one namespace never share their cooldowns. */
  lemma KeysDiffer(ns: string, a: string, b: string)
    requires a != b
    ensures KeyOf(ns, a) != KeyOf(ns, b)
  {
    assert KeyOf(ns, a)[|ns| + 1..] == a && KeyOf(ns, b)[|ns| + 1..] == b;
  }

  /** Nor do workloads of two namespaces, whose names have no slash. */
  lemma NamespacesDiffer(ns: string, ns': string, a: string, b: string)
    requires ns != ns' && '/' !in ns && '/' !in ns'
    ensures KeyOf(ns, a) != KeyOf(ns', b)
  {
    var x, y := KeyOf(ns, a), KeyOf(ns', b);
    assert x[..|ns|] == ns && x[|ns|] == '/' && y[..|ns'|] == ns' && y[|ns'|] == '/';
    if |ns| < |ns'| {
      assert y[|ns|] == ns'[|ns|];
    } else if |ns'| < |ns| {
      assert x[|ns'|] == ns[|ns'|];
    }
  }
}
