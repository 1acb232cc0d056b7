/** Which DynamicResource manages a workload: the oldest matcher wins, ties go to the
    smaller name, whoever loses one workload acts on none, and the older one keeps the
    newer away even when it cannot act itself. */
module Ownership {
  import opened Resources
  import opened Api

  /** A policy object of one namespace. Its selector is a relation to workloads; `None`
      stands for one that is invalid or empty. */
  datatype DynamicResource = DynamicResource(
    name: string, created: int, selector: Option<set<string>>, spec: Spec, prometheus: bool)

  predicate Matches(dr: DynamicResource, workload: string) {
    dr.selector.Some? && workload in dr.selector.value
  }

  /** Go's order on strings. */
  predicate Precedes(a: string, b: string) {
    b != [] && (a == [] || a[0] < b[0] || (a[0] == b[0] && Precedes(a[1..], b[1..])))
  }

  predicate OlderThan(a: DynamicResource, b: DynamicResource) {
    if a.created != b.created then a.created < b.created else Precedes(a.name, b.name)
  }

  /** The names agree up to k, where the first ends or has the smaller character. */
  predicate DiffersAt(a: string, b: string, k: nat) {
    && k <= |a| && k < |b| && a[..k] == b[..k]
    && (k == |a| || a[k] < b[k])
  }

  /** The order is the lexicographic one: by the first differing character, and a proper
      prefix first. */
  lemma {:induction false} PrecedesExactly(a: string, b: string)
    ensures Precedes(a, b) <==> exists k :: DiffersAt(a, b, k)
  {
    if b == [] {
    } else if a == [] {
      assert DiffersAt(a, b, 0);
    } else if a[0] != b[0] {
      if a[0] < b[0] {
        assert DiffersAt(a, b, 0);
      }
      forall k: nat | DiffersAt(a, b, k) ensures a[0] < b[0] {
        assert k > 0 ==> a[..k][0] == b[..k][0];
      }
    } else {
      PrecedesExactly(a[1..], b[1..]);
      if k: nat :| DiffersAt(a[1..], b[1..], k) {
        assert a[..k + 1] == [a[0]] + a[1..][..k] && b[..k + 1] == [b[0]] + b[1..][..k];
        assert DiffersAt(a, b, k + 1);
      }
      if k: nat :| DiffersAt(a, b, k) {
        assert k > 0;
        assert a[1..][..k - 1] == a[..k][1..] && b[1..][..k - 1] == b[..k][1..];
        assert DiffersAt(a[1..], b[1..], k - 1);
      }
    }
  }

  /** Older means created earlier, and between objects created together, with the
      lexicographically smaller name. */
  lemma OlderExactly(a: DynamicResource, b: DynamicResource)
    ensures OlderThan(a, b) <==>
            a.created < b.created || (a.created == b.created && exists k :: DiffersAt(a.name, b.name, k))
  {
    PrecedesExactly(a.name, b.name);
  }

  lemma {:induction false} PrecedesIrreflexive(a: string)
    ensures !Precedes(a, a)
  {
    if a != [] {
      PrecedesIrreflexive(a[1..]);
    }
  }

  lemma {:induction false} PrecedesTransitive(a: string, b: string, c: string)
    requires Precedes(a, b) && Precedes(b, c)
    ensures Precedes(a, c)
  {
    if a != [] && a[0] == b[0] == c[0] {
      PrecedesTransitive(a[1..], b[1..], c[1..]);
    }
  }

  lemma {:induction false} PrecedesTotal(a: string, b: string)
    requires a != b
    ensures Precedes(a, b) || Precedes(b, a)
  {
    if a != [] && b != [] && a[0] == b[0] {
      assert a == [a[0]] + a[1..] && b == [b[0]] + b[1..];
      PrecedesTotal(a[1..], b[1..]);
    }
  }

  /** Age is a strict total order on objects with distinct names. */
  lemma OlderThanIsStrictTotalOrder(a: DynamicResource, b: DynamicResource, c: DynamicResource)
    ensures !OlderThan(a, a)
    ensures OlderThan(a, b) && OlderThan(b, c) ==> OlderThan(a, c)
    ensures a.name != b.name ==> OlderThan(a, b) || OlderThan(b, a)
    ensures !(OlderThan(a, b) && OlderThan(b, a))
  {
    PrecedesIrreflexive(a.name);
    if Precedes(a.name, b.name) && Precedes(b.name, c.name) {
      PrecedesTransitive(a.name, b.name, c.name);
    }
    if a.name != b.name {
      PrecedesTotal(a.name, b.name);
    }
    if Precedes(a.name, b.name) && Precedes(b.name, a.name) {
      PrecedesTransitive(a.name, b.name, a.name);
    }
  }

  /** Some other object of the namespace is older and matches the workload too. */
  predicate Claimed(all: seq<DynamicResource>, dr: DynamicResource, workload: string) {
    exists other <- all :: other.name != dr.name && OlderThan(other, dr) && Matches(other, workload)
  }

  function Conflicts(all: seq<DynamicResource>, dr: DynamicResource, matched: seq<string>): seq<string> {
    if matched == [] then []
    else
      var w := matched[|matched| - 1];
      Conflicts(all, dr, matched[..|matched| - 1]) + (if Claimed(all, dr, w) then [w] else [])
  }

  /** The nested scan: for each matched workload, the first older matcher settles it. */
  method ConflictedWorkloads(all: seq<DynamicResource>, dr: DynamicResource,
                             matched: seq<string>)
    returns (conflicted: seq<string>)
    ensures conflicted == Conflicts(all, dr, matched)
  {
    conflicted := [];
    for i := 0 to |matched|
      invariant conflicted == Conflicts(all, dr, matched[..i])
    {
      assert matched[..i + 1][..i] == matched[..i];
      var claimed := false;
      for j := 0 to |all|
        invariant !claimed
        invariant forall k :: 0 <= k < j ==>
                    !(all[k].name != dr.name && OlderThan(all[k], dr) && Matches(all[k], matched[i]))
      {
        var other := all[j];
        if other.name == dr.name || !OlderThan(other, dr) {
          continue;
        }
        if other.selector.None? {
          continue;
        }
        if matched[i] in other.selector.value {
          claimed := true;
          break;
        }
      }
      assert claimed <==> Claimed(all, dr, matched[i]);
      if claimed {
        conflicted := conflicted + [matched[i]];
      }
    }
    assert matched[..|matched|] == matched;
  }

  lemma {:induction false} ConflictsExactly(all: seq<DynamicResource>, dr: DynamicResource, matched: seq<string>,
                                            w: string)
    ensures w in Conflicts(all, dr, matched) <==> w in matched && Claimed(all, dr, w)
  {
    if matched != [] {
      var front, last := matched[..|matched| - 1], matched[|matched| - 1];
      assert matched == front + [last];
      ConflictsExactly(all, dr, front, w);
    }
  }

  /** Object names are unique in a namespace. */
  ghost predicate DistinctNames(all: seq<DynamicResource>) {
    forall a <- all, b <- all :: a.name == b.name ==> a == b
  }

  /** The workloads a DynamicResource resolves to, out of those that exist. */
  ghost predicate Resolves(dr: DynamicResource, workloads: set<string>, matched: seq<string>) {
    forall w :: w in matched <==> w in workloads && Matches(dr, w)
  }

  /** No conflict is found for any of its workloads. */
  predicate Unconflicted(all: seq<DynamicResource>, dr: DynamicResource, matched: seq<string>) {
    Conflicts(all, dr, matched) == []
  }

  /** The oldest of the objects that match a workload. */
  ghost predicate OldestMatcher(all: seq<DynamicResource>, dr: DynamicResource, w: string) {
    Matches(dr, w) && forall other <- all :: other != dr && Matches(other, w) ==> OlderThan(dr, other)
  }

  lemma UnclaimedIsOldest(all: seq<DynamicResource>, dr: DynamicResource, w: string)
    requires DistinctNames(all) && dr in all && Matches(dr, w)
    ensures !Claimed(all, dr, w) <==> OldestMatcher(all, dr, w)
  {
    forall other <- all | other != dr
      ensures other.name != dr.name && (OlderThan(other, dr) <==> !OlderThan(dr, other))
    {
      OlderThanIsStrictTotalOrder(other, dr, dr);
    }
  }

  lemma NoneConflicted(all: seq<DynamicResource>, dr: DynamicResource, matched: seq<string>)
    ensures Unconflicted(all, dr, matched) <==> forall w <- matched :: !Claimed(all, dr, w)
  {
    forall w ensures w in Conflicts(all, dr, matched) <==> w in matched && Claimed(all, dr, w) {
      ConflictsExactly(all, dr, matched, w);
    }
    if Conflicts(all, dr, matched) != [] {
      assert Conflicts(all, dr, matched)[0] in matched;
    }
  }

  /** An object has no conflict if and only if it is the oldest matcher of every workload
      it matches. */
  lemma UnconflictedExactly(all: seq<DynamicResource>, dr: DynamicResource, workloads: set<string>,
                            matched: seq<string>)
    requires DistinctNames(all) && dr in all && Resolves(dr, workloads, matched)
    ensures Unconflicted(all, dr, matched) <==> forall w <- workloads :: Matches(dr, w) ==> OldestMatcher(all, dr, w)
  {
    NoneConflicted(all, dr, matched);
    forall w <- workloads | Matches(dr, w) ensures !Claimed(all, dr, w) <==> OldestMatcher(all, dr, w) {
      UnclaimedIsOldest(all, dr, w);
    }
    if Unconflicted(all, dr, matched) {
      forall w <- workloads | Matches(dr, w) ensures OldestMatcher(all, dr, w) {
        assert w in matched;
      }
    }
  }

  /** Every matched workload has an oldest matcher. */
  lemma {:induction false} OldestMatcherExists(all: seq<DynamicResource>, w: string) returns (dr: DynamicResource)
    requires DistinctNames(all) && exists a <- all :: Matches(a, w)
    ensures dr in all && OldestMatcher(all, dr, w)
  {
    var front, last := all[..|all| - 1], all[|all| - 1];
    assert forall x :: x in all <==> x in front || x == last;
    if exists a <- front :: Matches(a, w) {
      dr := OldestMatcherExists(front, w);
      if last != dr && Matches(last, w) && !OlderThan(dr, last) {
        OlderThanIsStrictTotalOrder(dr, last, last);
        forall other <- all | other != last && Matches(other, w) ensures OlderThan(last, other) {
          OlderThanIsStrictTotalOrder(last, dr, other);
        }
        dr := last;
      }
    } else {
      dr := last;
    }
  }

  // ---------- VerticalPodAutoscalers ----------

  datatype TargetRef = TargetRef(kind: string, name: string)

  /** Some VerticalPodAutoscaler of the namespace targets the Deployment. */
  predicate VpaTargets(vpas: seq<TargetRef>, workload: string) {
    exists v <- vpas :: v.kind == "Deployment" && v.name != "" && v.name == workload
  }

  method VpaConflicts(vpas: seq<TargetRef>, matched: seq<string>) returns (conflicts: seq<string>)
    ensures forall w :: w in conflicts <==> w in matched && VpaTargets(vpas, w)
    ensures forall w :: w in conflicts <==>
              w in matched && exists v <- vpas :: v.kind == "Deployment" && v.name == w && w != ""
  {
    var targeted: set<string> := {};
    for i := 0 to |vpas|
      invariant forall w :: w in targeted <==> VpaTargets(vpas[..i], w)
    {
      assert forall v :: v in vpas[..i + 1] <==> v in vpas[..i] || v == vpas[i];
      if vpas[i].kind == "Deployment" && vpas[i].name != "" {
        targeted := targeted + {vpas[i].name};
      }
    }
    assert vpas[..|vpas|] == vpas;
    conflicts := [];
    for i := 0 to |matched|
      invariant forall w :: w in conflicts <==> w in matched[..i] && w in targeted
    {
      assert forall w :: w in matched[..i + 1] <==> w in matched[..i] || w == matched[i];
      if matched[i] in targeted {
        conflicts := conflicts + [matched[i]];
      }
    }
    assert matched[..|matched|] == matched;
  }

  // ---------- The gates before actuation ----------

  /** What reconciling an object meets: the cluster, and which reads of it succeed. */
  datatype Cluster = Cluster(
    vpas: seq<TargetRef>,
    resizeSupported: bool,
    prometheusUrl: bool,
    workloadsListed: bool,
    objectsListed: bool,
    vpasListed: bool,
    metricsReadable: bool)

  datatype Outcome =
    | InvalidBounds
    | InvalidSelector
    | ObjectsUnlisted
    | OverlappingSelector
    | VpasUnlisted
    | VpaConflict
    | NoMatch
    | UnsupportedProvider
    | MetricsUnavailable
    | RecommendOnly
    | ClusterUnsupported
    | Actuates

  /** The first gate that is closed. */
  function OutcomeOf(all: seq<DynamicResource>, dr: DynamicResource, matched: seq<string>, cluster: Cluster): Outcome {
    if !Validated(dr.spec) then InvalidBounds
    else if dr.selector.None? || !cluster.workloadsListed then InvalidSelector
    else if !cluster.objectsListed then ObjectsUnlisted
    else if !Unconflicted(all, dr, matched) then OverlappingSelector
    else if !cluster.vpasListed then VpasUnlisted
    else if exists w <- matched :: VpaTargets(cluster.vpas, w) then VpaConflict
    else if matched == [] then NoMatch
    else if dr.prometheus && !cluster.prometheusUrl then UnsupportedProvider
    else if !cluster.metricsReadable then MetricsUnavailable
    else if dr.spec.updateMode == Off then RecommendOnly
    else if !cluster.resizeSupported then ClusterUnsupported
    else Actuates
  }

  datatype Gate = Gate(outcome: Outcome, closed: bool)

  /** The gates in the order they are reached. */
  function Gates(all: seq<DynamicResource>, dr: DynamicResource, matched: seq<string>, cluster: Cluster): seq<Gate> {
    [Gate(InvalidBounds, !Validated(dr.spec)),
     Gate(InvalidSelector, dr.selector.None? || !cluster.workloadsListed),
     Gate(ObjectsUnlisted, !cluster.objectsListed),
     Gate(OverlappingSelector, exists w <- matched :: Claimed(all, dr, w)),
     Gate(VpasUnlisted, !cluster.vpasListed),
     Gate(VpaConflict, exists w <- matched, v <- cluster.vpas :: v.kind == "Deployment" && v.name == w && w != ""),
     Gate(NoMatch, matched == []),
     Gate(UnsupportedProvider, dr.prometheus && !cluster.prometheusUrl),
     Gate(MetricsUnavailable, !cluster.metricsReadable),
     Gate(RecommendOnly, dr.spec.updateMode == Off),
     Gate(ClusterUnsupported, !cluster.resizeSupported)]
  }

  /** The outcome is that of the first closed gate, and the object actuates when all are
      open. */
  lemma FirstClosedGate(all: seq<DynamicResource>, dr: DynamicResource, matched: seq<string>, cluster: Cluster)
    ensures var gates := Gates(all, dr, matched, cluster);
            var outcome := OutcomeOf(all, dr, matched, cluster);
            && ((forall i :: 0 <= i < |gates| ==> !gates[i].closed) <==> outcome == Actuates)
            && forall i :: 0 <= i < |gates| && gates[i].closed && (forall j :: 0 <= j < i ==> !gates[j].closed) ==>
                 outcome == gates[i].outcome
  {
    NoneConflicted(all, dr, matched);
    var gates := Gates(all, dr, matched, cluster);
    assert gates[5].closed <==> exists w <- matched :: VpaTargets(cluster.vpas, w);
    forall i | 0 <= i < |gates| && gates[i].closed && (forall j :: 0 <= j < i ==> !gates[j].closed)
      ensures OutcomeOf(all, dr, matched, cluster) == gates[i].outcome
    {
      assert i > 0 ==> !gates[0].closed;
      assert i > 1 ==> !gates[1].closed;
      assert i > 2 ==> !gates[2].closed;
      assert i > 3 ==> !gates[3].closed;
      assert i > 4 ==> !gates[4].closed;
      assert i > 5 ==> !gates[5].closed;
      assert i > 6 ==> !gates[6].closed;
      assert i > 7 ==> !gates[7].closed;
      assert i > 8 ==> !gates[8].closed;
      assert i > 9 ==> !gates[9].closed;
    }
    if OutcomeOf(all, dr, matched, cluster) != Actuates {
      assert || gates[0].closed || gates[1].closed || gates[2].closed || gates[3].closed || gates[4].closed
             || gates[5].closed || gates[6].closed || gates[7].closed || gates[8].closed || gates[9].closed
             || gates[10].closed;
    }
  }

  /** Reconciling one object, up to the point where it actuates. */
  method Reconcile(all: seq<DynamicResource>, dr: DynamicResource, matched: seq<string>, cluster: Cluster)
    returns (outcome: Outcome)
    ensures outcome == OutcomeOf(all, dr, matched, cluster)
  {
    var err := ValidateBounds(dr.spec);
    if err.Some? {
      return InvalidBounds;
    }
    if dr.selector.None? || !cluster.workloadsListed {
      return InvalidSelector;
    }
    if !cluster.objectsListed {
      return ObjectsUnlisted;
    }
    var conflicted := ConflictedWorkloads(all, dr, matched);
    if |conflicted| > 0 {
      return OverlappingSelector;
    }
    if !cluster.vpasListed {
      return VpasUnlisted;
    }
    var vpa := VpaConflicts(cluster.vpas, matched);
    if |vpa| > 0 {
      assert vpa[0] in vpa;
      return VpaConflict;
    }
    assert forall w <- matched :: VpaTargets(cluster.vpas, w) ==> w in vpa;
    if |matched| == 0 {
      return NoMatch;
    }
    if dr.prometheus && !cluster.prometheusUrl {
      return UnsupportedProvider;
    }
    if !cluster.metricsReadable {
      return MetricsUnavailable;
    }
    if dr.spec.updateMode == Off {
      return RecommendOnly;
    }
    if !cluster.resizeSupported {
      return ClusterUnsupported;
    }
    return Actuates;
  }

  /** Nothing about the object itself, the cluster or its metrics keeps it from acting. */
  predicate Operable(dr: DynamicResource, cluster: Cluster) {
    && Validated(dr.spec) && dr.selector.Some? && dr.spec.updateMode != Off
    && cluster.workloadsListed && cluster.objectsListed && cluster.vpasListed
    && (dr.prometheus ==> cluster.prometheusUrl) && cluster.metricsReadable && cluster.resizeSupported
  }

  /** The object actuates, and the workload is among its own. */
  predicate Manages(all: seq<DynamicResource>, dr: DynamicResource, matched: seq<string>, cluster: Cluster, w: string) {
    OutcomeOf(all, dr, matched, cluster) == Actuates && w in matched
  }

  /** Every workload the object matches has it for its oldest matcher and no
      VerticalPodAutoscaler. */
  ghost predicate OwnsAll(all: seq<DynamicResource>, dr: DynamicResource, workloads: set<string>, cluster: Cluster) {
    forall v <- workloads :: Matches(dr, v) ==> OldestMatcher(all, dr, v) && !VpaTargets(cluster.vpas, v)
  }

  /** An object manages a workload if and only if it matches it, can act at all, and owns
      every workload it matches. */
  lemma ManagesExactly(all: seq<DynamicResource>, dr: DynamicResource, workloads: set<string>, matched: seq<string>,
                       cluster: Cluster, w: string)
    requires DistinctNames(all) && dr in all && Resolves(dr, workloads, matched)
    ensures Manages(all, dr, matched, cluster, w) <==>
            w in workloads && Matches(dr, w) && Operable(dr, cluster) && OwnsAll(all, dr, workloads, cluster)
  {
    UnconflictedExactly(all, dr, workloads, matched);
    assert forall v <- workloads :: Matches(dr, v) ==> v in matched;
    assert forall v <- matched :: v in workloads && Matches(dr, v);
  }

  /** Mutual exclusion: no two objects manage the same workload, whatever each of them
      sees of the cluster. */
  lemma AtMostOneManages(all: seq<DynamicResource>, workloads: set<string>, a: DynamicResource, b: DynamicResource,
                         matchedA: seq<string>, matchedB: seq<string>, seenA: Cluster, seenB: Cluster, w: string)
    requires DistinctNames(all) && a in all && b in all
    requires Resolves(a, workloads, matchedA) && Resolves(b, workloads, matchedB)
    requires Manages(all, a, matchedA, seenA, w) && Manages(all, b, matchedB, seenB, w)
    ensures a == b
  {
    ManagesExactly(all, a, workloads, matchedA, seenA, w);
    ManagesExactly(all, b, workloads, matchedB, seenB, w);
    OlderThanIsStrictTotalOrder(a, b, a);
  }

  /** A workload is managed if and only if its oldest matcher can act at all and owns
      everything else it matches; otherwise nobody manages it. */
  lemma ManagedExactly(all: seq<DynamicResource>, workloads: set<string>, w: string, oldest: DynamicResource,
                       matched: map<DynamicResource, seq<string>>, cluster: map<DynamicResource, Cluster>)
    requires DistinctNames(all) && w in workloads && oldest in all && OldestMatcher(all, oldest, w)
    requires forall dr <- all :: dr in matched && Resolves(dr, workloads, matched[dr]) && dr in cluster
    ensures (exists dr <- all :: Manages(all, dr, matched[dr], cluster[dr], w)) <==>
            Operable(oldest, cluster[oldest]) && OwnsAll(all, oldest, workloads, cluster[oldest])
  {
    ManagesExactly(all, oldest, workloads, matched[oldest], cluster[oldest], w);
    forall dr <- all | Manages(all, dr, matched[dr], cluster[dr], w) ensures dr == oldest {
      ManagesExactly(all, dr, workloads, matched[dr], cluster[dr], w);
      OlderThanIsStrictTotalOrder(dr, oldest, dr);
    }
  }

  // ---------- Two concrete pairs of objects ----------

  function Simple(min: nat, max: nat): Spec {
    Spec(Bounds(min, max), Bounds(0, 1024), None, [], None, None, None, InPlaceOnly)
  }

  lemma FirstIsOlder(s: set<string>, t: set<string>, spec: Spec, spec': Spec)
    requires "x" in s && "x" in t
    ensures var older, newer := DynamicResource("a", 1, Some(s), spec, false),
                                DynamicResource("b", 2, Some(t), spec', false);
            !Claimed([older, newer], older, "x") && Claimed([older, newer], newer, "x")
  {
    var older, newer := DynamicResource("a", 1, Some(s), spec, false), DynamicResource("b", 2, Some(t), spec', false);
    assert [older, newer][0] == older && older.name[0] != newer.name[0];
  }

  /** Losing one workload loses all: the newer object loses "x" to the older one, and with
      it "y", which nobody else matches. */
  lemma LosingOneLosesAll(cluster: Cluster)
    ensures var older, newer := DynamicResource("a", 1, Some({"x"}), Simple(0, 100), false),
                                DynamicResource("b", 2, Some({"x", "y"}), Simple(0, 100), false);
            var all := [older, newer];
            && !Manages(all, newer, ["x", "y"], cluster, "y") && Matches(newer, "y")
            && forall dr <- all :: Matches(dr, "y") ==> dr == newer
  {
    var older, newer := DynamicResource("a", 1, Some({"x"}), Simple(0, 100), false),
                        DynamicResource("b", 2, Some({"x", "y"}), Simple(0, 100), false);
    FirstIsOlder({"x"}, {"x", "y"}, Simple(0, 100), Simple(0, 100));
    ConflictsExactly([older, newer], newer, ["x", "y"], "x");
    assert ["x", "y"][0] == "x" && "y"[0] != "x"[0];
  }

  /** An older object that cannot act silences the newer: with bounds out of order it is
      refused before anything else, and still claims "x". */
  lemma BrokenOlderSilencesNewer(cluster: Cluster)
    ensures var older, newer := DynamicResource("a", 1, Some({"x"}), Simple(100, 0), false),
                                DynamicResource("b", 2, Some({"x"}), Simple(0, 100), false);
            var all := [older, newer];
            && !Operable(older, cluster) && Matches(newer, "x") && Validated(newer.spec)
            && forall dr <- all :: !Manages(all, dr, ["x"], cluster, "x")
  {
    var older, newer := DynamicResource("a", 1, Some({"x"}), Simple(100, 0), false),
                        DynamicResource("b", 2, Some({"x"}), Simple(0, 100), false);
    FirstIsOlder({"x"}, {"x"}, Simple(100, 0), Simple(0, 100));
    ConflictsExactly([older, newer], newer, ["x"], "x");
    assert ["x"][0] == "x";
  }
}
