/** Pods, containers and resource quantities as the decision code reads them.
    CPU is counted in millicores and memory in bytes, both non-negative integers. */
module Resources {

  /** Times and durations are integer nanoseconds. */
  const MINUTE: int := 60_000_000_000

  datatype Option<+T> = None | Some(value: T)

  datatype ResourceName = CPU | Memory | Other(name: string)

  /** A Kubernetes ResourceList; a nil list and an empty one read alike. */
  type ResourceList = map<ResourceName, nat>

  /** Indexing a Go map: a missing entry reads as the zero quantity. */
  function Amount(list: ResourceList, r: ResourceName): nat {
    if r in list then list[r] else 0
  }

  datatype Container = Container(name: string, requests: ResourceList, limits: ResourceList)

  datatype QoS = BestEffort | Burstable | Guaranteed

  datatype Termination = Termination(reason: string, finishedAt: int)

  datatype ContainerStatus = ContainerStatus(name: string, lastTermination: Option<Termination>)

  datatype PodCondition = PodCondition(kind: string, reason: string)

  datatype Pod = Pod(
    name: string,
    containers: seq<Container>,
    statusQos: Option<QoS>,
    deleting: bool,
    running: bool,
    conditions: seq<PodCondition>,
    statuses: seq<ContainerStatus>)

  /** The API server refuses two containers of one pod with the same name. */
  ghost predicate UniqueNames(cs: seq<Container>) {
    forall i, j :: 0 <= i < j < |cs| ==> cs[i].name != cs[j].name
  }

  predicate PinnedOn(c: Container, r: ResourceName) {
    r in c.requests && r in c.limits && c.requests[r] == c.limits[r]
  }

  predicate Pinned(c: Container) {
    PinnedOn(c, CPU) && PinnedOn(c, Memory)
  }

  /** The class Kubernetes derives from a pod's containers. */
  function SpecQos(cs: seq<Container>): QoS {
    if forall c <- cs :: c.requests == map[] then BestEffort
    else if forall c <- cs :: Pinned(c) then Guaranteed
    else Burstable
  }

  /** The class the planner works with: the status field wins when it is set. */
  function QosClass(pod: Pod): QoS {
    match pod.statusQos
    case Some(q) => q
    case None => SpecQos(pod.containers)
  }

  /** Requests do not exceed the limits set beside them. */
  predicate Fits(c: Container) {
    && (CPU in c.limits ==> Amount(c.requests, CPU) <= c.limits[CPU])
    && (Memory in c.limits ==> Amount(c.requests, Memory) <= c.limits[Memory])
  }

  predicate PodFits(pod: Pod) {
    forall c <- pod.containers :: Fits(c)
  }

  /** Which of the two classes a pod with some request belongs to. */
  lemma QosOfRequesting(cs: seq<Container>, j: nat)
    requires j < |cs| && cs[j].requests.Keys != {}
    ensures SpecQos(cs) == if forall i :: 0 <= i < |cs| ==> Pinned(cs[i]) then Guaranteed else Burstable
  {
    assert cs[j].requests != map[] && cs[j] in cs;
    assert forall i :: 0 <= i < |cs| ==> cs[i] in cs;
  }

  lemma SomeRequest(cs: seq<Container>) returns (j: nat)
    requires SpecQos(cs) != BestEffort
    ensures j < |cs| && cs[j].requests.Keys != {}
  {
    j :| 0 <= j < |cs| && cs[j].requests != map[];
    assert cs[j].requests.Keys != {};
  }

  /** The kubelet's derivation as the code runs it, with two flags over one scan. */
  method ClassifyQos(pod: Pod) returns (q: QoS)
    ensures q == QosClass(pod)
  {
    if pod.statusQos.Some? {
      return pod.statusQos.value;
    }
    var cs := pod.containers;
    var requestsSet, allGuaranteed := false, true;
    for i := 0 to |cs|
      invariant requestsSet <==> exists j :: 0 <= j < i && cs[j].requests != map[]
      invariant allGuaranteed <==> forall j :: 0 <= j < i ==> Pinned(cs[j])
    {
      if |cs[i].requests| > 0 {
        requestsSet := true;
      }
      var names := [CPU, Memory];
      for k := 0 to 2
        invariant allGuaranteed <==>
                  && (forall j :: 0 <= j < i ==> Pinned(cs[j]))
                  && (forall m :: 0 <= m < k ==> PinnedOn(cs[i], names[m]))
      {
        var r := names[k];
        if !(r in cs[i].requests && r in cs[i].limits && cs[i].requests[r] == cs[i].limits[r]) {
          allGuaranteed := false;
        }
      }
      assert names[0] == CPU && names[1] == Memory;
    }
    if !requestsSet {
      q := BestEffort;
    } else if allGuaranteed {
      q := Guaranteed;
    } else {
      q := Burstable;
    }
  }
}
