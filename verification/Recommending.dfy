/** The recommender's behaviour over whole traces of samples, on values. */
module Recommending {
  import opened Resources
  import opened Exponentials
  import opened Histogram

  const BUCKET_RATIO: real := 1.05
  const BUCKET_COUNT: nat := 200
  const CPU_BASE_MILLI: real := 10.0
  const MEM_BASE_BYTES: real := 10.0 * 1024.0 * 1024.0

  /** Bounds growing by 5% from a base; weights growing by a fixed factor per tick. */
  function ExpShape(base: real, growth: real): Shape
    requires growth > 0.0
  {
    Shape((i: nat) => Times(base, Pow(BUCKET_RATIO, i)), BUCKET_COUNT, Growth(growth))
  }

  function CpuShape(growth: real): Shape
    requires growth > 0.0
  {
    ExpShape(CPU_BASE_MILLI, growth)
  }

  function MemShape(growth: real): Shape
    requires growth > 0.0
  {
    ExpShape(MEM_BASE_BYTES, growth)
  }

  lemma TimesIncreases(b: real, x: real, y: real)
    requires b > 0.0 && x < y
    ensures Times(b, x) < Times(b, y)
  {
    var d := y - x;
    assert b * d > 0.0;
    assert b * y - b * x == b * d;
  }

  lemma ExpShapeOk(base: real, growth: real)
    requires base > 0.0 && growth > 1.0
    ensures ExpShape(base, growth).Ok()
  {
    var sh := ExpShape(base, growth);
    GrowthIsExponential(growth);
    forall i: nat, j: nat ensures InOrder(sh.bound, i, j) {
      if i < j {
        PowIncreases(BUCKET_RATIO, i, j);
        TimesIncreases(base, Pow(BUCKET_RATIO, i), Pow(BUCKET_RATIO, j));
      }
    }
  }

  lemma SwapFactors(x: real, y: real, z: real)
    ensures Times(x, Times(y, z)) == Times(y, Times(x, z))
  {}

  /** One bucket down is the value divided by 1.05. */
  lemma NextBound(base: real, growth: real, i: nat)
    requires growth > 0.0
    ensures ExpShape(base, growth).bound(i + 1) == Times(BUCKET_RATIO, ExpShape(base, growth).bound(i))
  {
    SwapFactors(base, BUCKET_RATIO, Pow(BUCKET_RATIO, i));
  }

  /** Where the buckets start, and how many there are: 10 millicores, 10Mi, 200. */
  lemma BucketsInUse(growth: real)
    requires growth > 0.0
    ensures CpuShape(growth).bound(0) == 10.0 && CpuShape(growth).count == 200
    ensures MemShape(growth).bound(0) == 10_485_760.0 && MemShape(growth).count == 200
  {
    TimesOne(10.0);
    TimesOne(10_485_760.0);
    assert Pow(BUCKET_RATIO, 0) == 1.0;
  }

  /** A growth per tick that doubles over one half-life is all the histograms need. */
  lemma ShapesOk(growth: real, halfLife: nat)
    requires growth > 0.0 && Exp(growth, halfLife) == 2.0
    ensures CpuShape(growth).Ok() && MemShape(growth).Ok()
    ensures CpuShape(growth).weigh(halfLife) == 2.0 == MemShape(growth).weigh(halfLife)
  {
    OnlyGrowthDoubles(growth, halfLife);
    ExpShapeOk(CPU_BASE_MILLI, growth);
    ExpShapeOk(MEM_BASE_BYTES, growth);
  }

  /** Such a growth: doubling every tick, for a half-life of one tick. */
  lemma DoublingEachTick()
    ensures Exp(2.0, 1) == 2.0 && ShapesFor(2.0).Ok()
  {
    assert Pow(2.0, 1) == Times(2.0, Pow(2.0, 0));
    ShapesOk(2.0, 1);
  }

  /** Shapes with at least the properties the histogram needs, for both resources. */
  datatype Shapes = Shapes(cpu: Shape, mem: Shape) {
    ghost predicate Ok() {
      cpu.Ok() && mem.Ok()
    }
  }

  function ShapesFor(growth: real): Shapes
    requires growth > 0.0
  {
    Shapes(CpuShape(growth), MemShape(growth))
  }

  // ---------- State and operations ----------

  datatype ContainerKey = ContainerKey(namespace: string, workload: string, container: string)

  /** One usage reading of one container of one pod. */
  datatype Event = Event(key: ContainerKey, pod: string, cpu: real, mem: real, t: int)

  datatype Recommendation = Recommendation(cpuMilli: real, memBytes: real)

  datatype KeyState = KeyState(cpu: Hist, mem: Hist, last: map<string, int>)

  type Model = map<ContainerKey, KeyState>

  predicate Sized(shs: Shapes, st: KeyState) {
    |st.cpu.weights| == shs.cpu.count && |st.mem.weights| == shs.mem.count
  }

  predicate AllSized(shs: Shapes, m: Model) {
    forall k <- m :: Sized(shs, m[k])
  }

  function NewState(shs: Shapes): KeyState {
    KeyState(Empty(shs.cpu), Empty(shs.mem), map[])
  }

  function Take(shs: Shapes, st: KeyState, e: Event): (r: KeyState)
    requires shs.Ok() && Sized(shs, st)
    ensures Sized(shs, r)
  {
    if e.pod in st.last && e.t <= st.last[e.pod] then st
    else KeyState(Observe(shs.cpu, st.cpu, e.cpu, e.t), Observe(shs.mem, st.mem, e.mem, e.t), st.last[e.pod := e.t])
  }

  function ObserveEvent(shs: Shapes, m: Model, e: Event): (r: Model)
    requires shs.Ok() && AllSized(shs, m)
    ensures AllSized(shs, r)
  {
    m[e.key := Take(shs, if e.key in m then m[e.key] else NewState(shs), e)]
  }

  function Recommend(shs: Shapes, m: Model, key: ContainerKey, cpuPercentile: real, memPercentile: real)
    : Option<Recommendation>
    requires shs.Ok() && AllSized(shs, m)
  {
    if key !in m || IsEmpty(m[key].cpu) then None
    else Some(Recommendation(Percentile(shs.cpu, m[key].cpu, cpuPercentile),
                             Percentile(shs.mem, m[key].mem, memPercentile)))
  }

  /** The state after a trace of readings. */
  function Feed(shs: Shapes, trace: seq<Event>): (m: Model)
    requires shs.Ok()
    ensures AllSized(shs, m)
  {
    if trace == [] then map[] else ObserveEvent(shs, Feed(shs, trace[..|trace| - 1]), trace[|trace| - 1])
  }

  // ---------- Which readings count ----------

  /** Strictly newer than every earlier reading of the same container and pod. */
  predicate NewAt(trace: seq<Event>, key: ContainerKey, pod: string, t: int) {
    forall x <- trace :: x.key == key && x.pod == pod ==> x.t < t
  }

  function Accepted(trace: seq<Event>, key: ContainerKey): seq<Event> {
    if trace == [] then []
    else
      var front, e := trace[..|trace| - 1], trace[|trace| - 1];
      if e.key == key && NewAt(front, key, e.pod, e.t) then Accepted(front, key) + [e] else Accepted(front, key)
  }

  function CpuSamples(es: seq<Event>): seq<Sample> {
    seq(|es|, i requires 0 <= i < |es| => Sample(es[i].cpu, es[i].t))
  }

  function MemSamples(es: seq<Event>): seq<Sample> {
    seq(|es|, i requires 0 <= i < |es| => Sample(es[i].mem, es[i].t))
  }

  ghost predicate LastIsNewest(last: map<string, int>, trace: seq<Event>, key: ContainerKey) {
    forall pod, t :: NewAt(trace, key, pod, t) <==> (pod in last ==> last[pod] < t)
  }

  /** The state of a key holds exactly the accepted readings of that key. */
  ghost predicate Holds(shs: Shapes, st: KeyState, trace: seq<Event>, key: ContainerKey)
    requires shs.Ok()
  {
    && st.cpu == HistOf(shs.cpu, CpuSamples(Accepted(trace, key)))
    && st.mem == HistOf(shs.mem, MemSamples(Accepted(trace, key)))
    && LastIsNewest(st.last, trace, key)
  }

  lemma NewAtOneMore(trace: seq<Event>, e: Event, key: ContainerKey, pod: string, t: int)
    ensures NewAt(trace + [e], key, pod, t) <==>
            NewAt(trace, key, pod, t) && (e.key == key && e.pod == pod ==> e.t < t)
  {}

  lemma OneMoreSample(shs: Shapes, es: seq<Event>, e: Event)
    requires shs.Ok()
    ensures HistOf(shs.cpu, CpuSamples(es + [e])) == Observe(shs.cpu, HistOf(shs.cpu, CpuSamples(es)), e.cpu, e.t)
    ensures HistOf(shs.mem, MemSamples(es + [e])) == Observe(shs.mem, HistOf(shs.mem, MemSamples(es)), e.mem, e.t)
  {
    SamplesOfOneMore(es, e);
    HistOneMore(shs.cpu, CpuSamples(es), Sample(e.cpu, e.t));
    HistOneMore(shs.mem, MemSamples(es), Sample(e.mem, e.t));
  }

  lemma SamplesOfOneMore(es: seq<Event>, e: Event)
    ensures CpuSamples(es + [e]) == CpuSamples(es) + [Sample(e.cpu, e.t)]
    ensures MemSamples(es + [e]) == MemSamples(es) + [Sample(e.mem, e.t)]
  {}

  lemma TakeHolds(shs: Shapes, st: KeyState, trace: seq<Event>, e: Event)
    requires shs.Ok() && Sized(shs, st) && Holds(shs, st, trace, e.key)
    ensures Holds(shs, Take(shs, st, e), trace + [e], e.key)
  {
    assert (trace + [e])[..|trace|] == trace;
    assert NewAt(trace, e.key, e.pod, e.t) <==> (e.pod in st.last ==> st.last[e.pod] < e.t);
    OneMoreSample(shs, Accepted(trace, e.key), e);
    var r := Take(shs, st, e);
    forall pod, t
      ensures NewAt(trace + [e], e.key, pod, t) <==> (pod in r.last ==> r.last[pod] < t)
    {
      NewAtOneMore(trace, e, e.key, pod, t);
      assert NewAt(trace, e.key, pod, t) <==> (pod in st.last ==> st.last[pod] < t);
    }
  }

  lemma OtherKeyHolds(shs: Shapes, st: KeyState, trace: seq<Event>, e: Event, key: ContainerKey)
    requires shs.Ok() && Holds(shs, st, trace, key) && e.key != key
    ensures Holds(shs, st, trace + [e], key)
  {
    assert (trace + [e])[..|trace|] == trace;
    forall pod, t ensures NewAt(trace + [e], key, pod, t) <==> NewAt(trace, key, pod, t) {
      NewAtOneMore(trace, e, key, pod, t);
    }
  }

  ghost predicate Seen(trace: seq<Event>, key: ContainerKey) {
    exists x <- trace :: x.key == key
  }

  lemma NothingSeen(shs: Shapes, trace: seq<Event>, key: ContainerKey)
    requires shs.Ok() && !Seen(trace, key)
    ensures Holds(shs, NewState(shs), trace, key) && Accepted(trace, key) == []
  {
    NoneAccepted(trace, key);
    assert HistOf(shs.cpu, []) == Empty(shs.cpu) && HistOf(shs.mem, []) == Empty(shs.mem);
    assert CpuSamples([]) == [] && MemSamples([]) == [];
  }

  lemma {:induction false} NoneAccepted(trace: seq<Event>, key: ContainerKey)
    requires !Seen(trace, key)
    ensures Accepted(trace, key) == []
  {
    if trace != [] {
      assert trace[|trace| - 1] in trace;
      NoneAccepted(trace[..|trace| - 1], key);
    }
  }

  /** After any trace, the state of each key holds exactly its accepted readings. */
  lemma {:induction false} FeedHolds(shs: Shapes, trace: seq<Event>, key: ContainerKey)
    requires shs.Ok()
    ensures var m := Feed(shs, trace);
            && (key in m <==> Seen(trace, key))
            && (key in m ==> Holds(shs, m[key], trace, key))
  {
    if trace != [] {
      var front, e := trace[..|trace| - 1], trace[|trace| - 1];
      assert trace == front + [e];
      var m := Feed(shs, front);
      FeedHolds(shs, front, key);
      assert Seen(trace, key) <==> Seen(front, key) || e.key == key;
      if e.key == key {
        if key !in m {
          NothingSeen(shs, front, key);
        }
        TakeHolds(shs, if key in m then m[key] else NewState(shs), front, e);
      } else if key in m {
        OtherKeyHolds(shs, m[key], front, e, key);
      }
    }
  }

  /** The first reading of a key is accepted. */
  lemma {:induction false} SeenMeansAccepted(trace: seq<Event>, key: ContainerKey)
    ensures Seen(trace, key) <==> Accepted(trace, key) != []
  {
    if trace != [] {
      var front, e := trace[..|trace| - 1], trace[|trace| - 1];
      assert trace == front + [e];
      SeenMeansAccepted(front, key);
    }
  }

  /** A recommendation is given exactly for the keys that have an accepted reading, and
      it is the pair of percentiles of the accepted readings. */
  lemma RecommendReadsAccepted(shs: Shapes, trace: seq<Event>, key: ContainerKey, cp: real, mp: real)
    requires shs.Ok()
    ensures var es := Accepted(trace, key);
            Recommend(shs, Feed(shs, trace), key, cp, mp) ==
            if es == [] then None
            else Some(Recommendation(Percentile(shs.cpu, HistOf(shs.cpu, CpuSamples(es)), cp),
                                     Percentile(shs.mem, HistOf(shs.mem, MemSamples(es)), mp)))
  {
    FeedHolds(shs, trace, key);
    SeenMeansAccepted(trace, key);
    EmptyMeansNoSample(shs.cpu, CpuSamples(Accepted(trace, key)));
  }
}
