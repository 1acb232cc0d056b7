/** What time does to a percentile: only differences of times matter, each half-life
    halves a sample, and the zero time decays nothing. */
module DecayTimes {
  import opened Exponentials
  import opened Histogram
  import opened Recommending

  lemma {:induction false} MassConcat(sh: Shape, xs: seq<Sample>, ys: seq<Sample>, b: int)
    requires sh.Ok()
    ensures MassUpTo(sh, xs + ys, b) == MassUpTo(sh, xs, b) + MassUpTo(sh, ys, b)
  {
    if ys == [] {
      assert xs + ys == xs;
    } else {
      var front := ys[..|ys| - 1];
      MassConcat(sh, xs, front, b);
      Append(xs, ys);
      MassUpToOneMore(sh, xs + front, ys[|ys| - 1], b);
    }
  }

  // ---------- Proportional masses ----------

  /** Up to every bucket, the masses of `tt` are k times those of `ss`. */
  ghost predicate Proportional(sh: Shape, ss: seq<Sample>, tt: seq<Sample>, k: real)
    requires sh.Ok()
  {
    forall b :: 0 <= b < sh.count ==> MassUpTo(sh, tt, b) == Times(MassUpTo(sh, ss, b), k)
  }

  lemma {:induction false} SamePlainScan(sh: Shape, ss: seq<Sample>, x: real, tt: seq<Sample>, y: real, i: nat)
    requires sh.Ok() && i < sh.count
    requires forall j :: 0 <= j < sh.count ==> (MassUpTo(sh, ss, j) >= x <==> MassUpTo(sh, tt, j) >= y)
    ensures PlainScan(sh, ss, x, i) == PlainScan(sh, tt, y, i)
    decreases sh.count - i
  {
    if i < sh.count - 1 {
      SamePlainScan(sh, ss, x, tt, y, i + 1);
    }
  }

  lemma ProportionalReadsSame(sh: Shape, ss: seq<Sample>, tt: seq<Sample>, k: real, p: real)
    requires sh.Ok() && k > 0.0 && Proportional(sh, ss, tt, k) && (ss == [] <==> tt == [])
    ensures PlainPercentile(sh, ss, p) == PlainPercentile(sh, tt, p)
  {
    var x, y := TotalMass(sh, ss), TotalMass(sh, tt);
    AllMassInBuckets(sh, ss);
    AllMassInBuckets(sh, tt);
    assert y == Times(x, k);
    forall j | 0 <= j < sh.count ensures MassUpTo(sh, ss, j) >= Times(p, x) <==> MassUpTo(sh, tt, j) >= Times(p, y) {
      ThresholdScales(MassUpTo(sh, ss, j), p, x, k);
    }
    SamePlainScan(sh, ss, Times(p, x), tt, Times(p, y), 0);
  }

  /** All samples at later times by the same amount read every percentile the same. */
  lemma PercentileIgnoresShift(sh: Shape, ss: seq<Sample>, d: int, p: real)
    requires sh.Ok() && Anchored(ss) && Anchored(Shift(ss, d))
    ensures Percentile(sh, HistOf(sh, ss), p) == Percentile(sh, HistOf(sh, Shift(ss, d)), p)
  {
    PercentileRefines(sh, ss, p);
    PercentileRefines(sh, Shift(ss, d), p);
    forall b | 0 <= b < sh.count ensures MassUpTo(sh, Shift(ss, d), b) == Times(MassUpTo(sh, ss, b), sh.weigh(d)) {
      ShiftMassUpTo(sh, ss, d, b);
    }
    ProportionalReadsSame(sh, ss, Shift(ss, d), sh.weigh(d), p);
  }

  // ---------- Half-lives ----------

  function Repeat(s: Sample, n: nat): seq<Sample> {
    seq(n, _ => s)
  }

  lemma OneSampleMass(sh: Shape, s: Sample, b: int)
    requires sh.Ok()
    ensures MassUpTo(sh, [s], b) == if BucketFor(sh, s.value) <= b then sh.weigh(s.t) else 0.0
  {
    assert [s] == [] + [s];
    MassUpToOneMore(sh, [], s, b);
  }

  lemma TwiceTheMass(sh: Shape, s: Sample, n: nat, b: int)
    requires sh.Ok()
    ensures MassUpTo(sh, Repeat(s, 2 * n), b) == 2.0 * MassUpTo(sh, Repeat(s, n), b)
  {
    MassConcat(sh, Repeat(s, n), Repeat(s, n), b);
    assert Repeat(s, 2 * n) == Repeat(s, n) + Repeat(s, n);
  }

  lemma OneHalfLife(sh: Shape, halfLife: nat, v: real, t: int, b: int)
    requires sh.Ok() && sh.weigh(halfLife) == 2.0
    ensures 2.0 * MassUpTo(sh, [Sample(v, t - halfLife)], b) == MassUpTo(sh, [Sample(v, t)], b)
  {
    OneSampleMass(sh, Sample(v, t - halfLife), b);
    OneSampleMass(sh, Sample(v, t), b);
    ShiftedWeight(sh, t - halfLife, halfLife);
  }

  function Before(t: int, halfLife: nat, n: nat): int {
    t - n * halfLife
  }

  lemma OneBefore(t: int, halfLife: nat, n: nat)
    requires n > 0
    ensures Before(t, halfLife, n) == Before(t - halfLife, halfLife, n - 1)
  {}

  /** A sample n half-lives older weighs 2^n times less: it takes that many of them to
      weigh as much, up to every bucket. */
  lemma {:induction false} HalfLivesHalve(sh: Shape, halfLife: nat, n: nat, v: real, t: int, b: int)
    requires sh.Ok() && sh.weigh(halfLife) == 2.0
    ensures MassUpTo(sh, Repeat(Sample(v, Before(t, halfLife, n)), IntPower(2, n)), b) ==
            MassUpTo(sh, [Sample(v, t)], b)
  {
    var s := Sample(v, Before(t, halfLife, n));
    if n == 0 {
      assert Repeat(s, IntPower(2, 0)) == [Sample(v, t)];
    } else {
      OneBefore(t, halfLife, n);
      HalfLivesHalve(sh, halfLife, n - 1, v, t - halfLife, b);
      TwiceTheMass(sh, s, IntPower(2, n - 1), b);
      OneHalfLife(sh, halfLife, v, t, b);
    }
  }

  /** Among any other samples, 2^n equal samples n half-lives older read every percentile
      as one new sample does. */
  lemma OldSamplesReadAsOne(sh: Shape, halfLife: nat, n: nat, ss: seq<Sample>, tt: seq<Sample>, v: real, t: int,
                            p: real)
    requires sh.Ok() && sh.weigh(halfLife) == 2.0
    requires Anchored(ss + Repeat(Sample(v, Before(t, halfLife, n)), IntPower(2, n)) + tt)
    requires Anchored(ss + [Sample(v, t)] + tt)
    ensures Percentile(sh, HistOf(sh, ss + Repeat(Sample(v, Before(t, halfLife, n)), IntPower(2, n)) + tt), p) ==
            Percentile(sh, HistOf(sh, ss + [Sample(v, t)] + tt), p)
  {
    var many, one := Repeat(Sample(v, Before(t, halfLife, n)), IntPower(2, n)), [Sample(v, t)];
    PercentileRefines(sh, ss + many + tt, p);
    PercentileRefines(sh, ss + one + tt, p);
    forall b | 0 <= b < sh.count
      ensures MassUpTo(sh, ss + one + tt, b) == Times(MassUpTo(sh, ss + many + tt, b), 1.0)
    {
      HalfLivesHalve(sh, halfLife, n, v, t, b);
      MassConcat(sh, ss, many, b);
      MassConcat(sh, ss + many, tt, b);
      MassConcat(sh, ss, one, b);
      MassConcat(sh, ss + one, tt, b);
      TimesOne(MassUpTo(sh, ss + many + tt, b));
    }
    ProportionalReadsSame(sh, ss + many + tt, ss + one + tt, 1.0, p);
  }

  // ---------- The zero time ----------

  lemma {:induction false} AllInFirstBucket(sh: Shape, ss: seq<Sample>)
    requires sh.Ok() && forall s <- ss :: BucketFor(sh, s.value) == 0
    ensures MassUpTo(sh, ss, 0) == TotalMass(sh, ss)
  {
    if ss != [] {
      assert ss[|ss| - 1] in ss;
      AllInFirstBucket(sh, ss[..|ss| - 1]);
    }
  }

  lemma {:induction false} NoneInFirstBucket(sh: Shape, ss: seq<Sample>)
    requires sh.Ok() && forall s <- ss :: BucketFor(sh, s.value) > 0
    ensures MassUpTo(sh, ss, 0) == 0.0
  {
    if ss != [] {
      assert ss[|ss| - 1] in ss;
      NoneInFirstBucket(sh, ss[..|ss| - 1]);
    }
  }

  lemma TotalConcat(sh: Shape, xs: seq<Sample>, ys: seq<Sample>)
    requires sh.Ok()
    ensures TotalMass(sh, xs + ys) == TotalMass(sh, xs) + TotalMass(sh, ys)
  {
    AllMassInBuckets(sh, xs);
    AllMassInBuckets(sh, ys);
    AllMassInBuckets(sh, xs + ys);
    MassConcat(sh, xs, ys, sh.count - 1);
  }

  /** Samples at the zero time, in the first bucket, before others that are not. */
  ghost predicate Separated(sh: Shape, zeros: seq<Sample>, rest: seq<Sample>)
    requires sh.Ok()
  {
    && Split(zeros, rest) && zeros != []
    && (forall s <- zeros :: BucketFor(sh, s.value) == 0)
    && (forall s <- rest :: BucketFor(sh, s.value) > 0)
  }

  lemma PlainFirstMass(sh: Shape, zeros: seq<Sample>, rest: seq<Sample>)
    requires sh.Ok() && Separated(sh, zeros, rest)
    ensures MassUpTo(sh, zeros + rest, 0) == TotalMass(sh, zeros)
  {
    AllInFirstBucket(sh, zeros);
    NoneInFirstBucket(sh, rest);
    MassConcat(sh, zeros, rest, 0);
  }

  lemma AnchoredFirstMass(sh: Shape, zeros: seq<Sample>, rest: seq<Sample>)
    requires sh.Ok() && Separated(sh, zeros, rest)
    ensures MassUpTo(sh, Anchor(sh, zeros + rest), 0) == TotalMass(sh, Shift(zeros, rest[0].t))
  {
    var moved := Shift(zeros, rest[0].t);
    AnchorSplits(sh, zeros, rest);
    AllInFirstBucket(sh, moved);
    NoneInFirstBucket(sh, rest);
    MassConcat(sh, moved, rest, 0);
  }

  lemma AnchoredTotal(sh: Shape, zeros: seq<Sample>, rest: seq<Sample>)
    requires sh.Ok() && Split(zeros, rest)
    ensures TotalMass(sh, Anchor(sh, zeros + rest)) == TotalMass(sh, Shift(zeros, rest[0].t)) + TotalMass(sh, rest)
  {
    AnchorSplits(sh, zeros, rest);
    TotalConcat(sh, Shift(zeros, rest[0].t), rest);
  }

  /** A percentile reads the first bound exactly when the first bucket reaches it. */
  lemma FirstBucketReads(sh: Shape, ss: seq<Sample>, p: real)
    requires sh.Ok() && sh.count > 1 && ss != []
    ensures if Times(p, TotalMass(sh, ss)) <= MassUpTo(sh, ss, 0) then PlainPercentile(sh, ss, p) == sh.bound(0)
            else PlainPercentile(sh, ss, p) > sh.bound(0)
  {
    assert InOrder(sh.bound, 0, PlainScan(sh, ss, Times(p, TotalMass(sh, ss)), 0));
  }

  /** The fraction p of `total` is more than a, but that of `dated` is no more than x. */
  predicate Straddles(p: real, a: real, total: real, x: real, dated: real) {
    a < Times(p, total) && Times(p, dated) <= x
  }

  /** A fraction that the zero-time samples reach only when they are not decayed. */
  lemma UndecayedReadsLower(sh: Shape, zeros: seq<Sample>, rest: seq<Sample>, p: real)
    requires sh.Ok() && sh.count > 1 && Separated(sh, zeros, rest)
    requires Straddles(p, TotalMass(sh, zeros), TotalMass(sh, zeros + rest),
                     TotalMass(sh, Shift(zeros, rest[0].t)), TotalMass(sh, Anchor(sh, zeros + rest)))
    ensures Percentile(sh, HistOf(sh, zeros + rest), p) == sh.bound(0) < PlainPercentile(sh, zeros + rest, p)
  {
    PercentileIsAnchored(sh, zeros + rest, p);
    PlainFirstMass(sh, zeros, rest);
    AnchoredFirstMass(sh, zeros, rest);
    FirstBucketReads(sh, zeros + rest, p);
    FirstBucketReads(sh, Anchor(sh, zeros + rest), p);
  }

  /** Such a fraction, for later samples of weight b that come to both totals. */
  lemma FractionBetween(a: real, total: real, x: real, dated: real, b: real) returns (p: real)
    requires 0.0 < a < x && b > 0.0 && total == a + b && dated == x + b
    ensures Straddles(p, a, total, x, dated)
  {
    p := x / dated;
    assert p * dated == x;
    var q := 1.0 - p;
    assert q * dated == b;
    assert q > 0.0;
    assert q * (x - a) > 0.0;
    assert p * total - a == q * (x - a);
  }

  lemma LaterWeighMore(sh: Shape, ss: seq<Sample>, d: nat)
    requires sh.Ok() && ss != [] && d > 0
    ensures 0.0 < TotalMass(sh, ss) < TotalMass(sh, Shift(ss, d))
  {
    TotalMassPositive(sh, ss);
    WeighAtLeastOne(sh, d);
    ShiftTotalMass(sh, ss, d);
    GrowsByFactor(sh.weigh(d), TotalMass(sh, ss));
  }

  lemma FirstCpuBound(growth: real)
    requires growth > 1.0
    ensures CpuShape(growth).bound(0) == 10.0
  {
    TimesOne(10.0);
    assert Pow(BUCKET_RATIO, 0) == 1.0;
  }

  lemma CpuReadingsSeparated(growth: real, t: int)
    requires growth > 1.0 && t > 0 && CpuShape(growth).Ok()
    ensures Separated(CpuShape(growth), [Sample(10.0, 0)], [Sample(20.0, t)])
  {
    FirstCpuBound(growth);
    InFirstBucket(CpuShape(growth), Sample(10.0, 0));
    AboveFirstBucket(CpuShape(growth), Sample(20.0, t));
  }

  lemma InFirstBucket(sh: Shape, s: Sample)
    requires sh.Ok() && sh.count > 1 && s.value <= sh.bound(0)
    ensures BucketFor(sh, s.value) == 0
  {
    BucketCovers(sh, s.value, 0);
  }

  lemma AboveFirstBucket(sh: Shape, s: Sample)
    requires sh.Ok() && sh.count > 1 && s.value > sh.bound(0)
    ensures BucketFor(sh, s.value) > 0
  {
    BucketCovers(sh, s.value, 0);
  }

  /** The same readings on the shape in use: 10 millicores at the zero time and 20 at
      any later time read a median of 10, although the newer weighs more. */
  lemma ZeroTimestampIsNotDecayed(growth: real, t: int)
    requires growth > 1.0 && t > 0
    ensures CpuShape(growth).Ok()
    ensures var (sh, ss) := (CpuShape(growth), [Sample(10.0, 0), Sample(20.0, t)]);
            Percentile(sh, HistOf(sh, ss), 0.5) == 10.0 < PlainPercentile(sh, ss, 0.5)
  {
    ExpShapeOk(CPU_BASE_MILLI, growth);
    var sh, zeros, rest := CpuShape(growth), [Sample(10.0, 0)], [Sample(20.0, t)];
    FirstCpuBound(growth);
    CpuReadingsSeparated(growth, t);
    HalfIsBetween(sh, t);
    UndecayedReadsLower(sh, zeros, rest, 0.5);
    assert zeros + rest == [Sample(10.0, 0), Sample(20.0, t)];
  }

  lemma HalfIsBetween(sh: Shape, t: nat)
    requires sh.Ok() && t > 0
    ensures var (zeros, rest) := ([Sample(10.0, 0)], [Sample(20.0, t)]);
            Straddles(0.5, TotalMass(sh, zeros), TotalMass(sh, zeros + rest),
                    TotalMass(sh, Shift(zeros, t)), TotalMass(sh, Anchor(sh, zeros + rest)))
  {
    var zeros, rest := [Sample(10.0, 0)], [Sample(20.0, t)];
    AnchoredTotal(sh, zeros, rest);
    TotalConcat(sh, zeros, rest);
    OneSampleTotal(sh, Sample(10.0, 0));
    OneSampleTotal(sh, Sample(20.0, t));
    OneSampleTotal(sh, Sample(10.0, t));
    assert Shift(zeros, t) == [Sample(10.0, t)];
    WeighAtLeastOne(sh, t);
  }

  lemma OneSampleTotal(sh: Shape, s: Sample)
    requires sh.Ok()
    ensures TotalMass(sh, [s]) == sh.weigh(s.t)
  {
    assert [s][..0] == [];
  }

  // ---------- Exactly when samples decay ----------

  function Zip(vs: seq<real>, ts: seq<int>): (r: seq<Sample>)
    requires |vs| == |ts|
    ensures |r| == |ts|
  {
    seq(|ts|, i requires 0 <= i < |ts| => Sample(vs[i], ts[i]))
  }

  ghost predicate ReadsPlain(sh: Shape, vs: seq<real>, ts: seq<int>, p: real)
    requires sh.Ok() && |vs| == |ts|
  {
    Percentile(sh, HistOf(sh, Zip(vs, ts)), p) == PlainPercentile(sh, Zip(vs, ts), p)
  }

  /** The first reading is not at the zero time, or all are. */
  predicate AnchoredTimes(ts: seq<nat>) {
    ts == [] || ts[0] != 0 || forall t <- ts :: t == 0
  }

  lemma {:induction false} FirstNonZero(ts: seq<nat>) returns (j: nat)
    requires exists t <- ts :: t != 0
    ensures j < |ts| && ts[j] != 0 && forall i :: 0 <= i < j ==> ts[i] == 0
  {
    if ts[0] != 0 {
      j := 0;
    } else {
      assert ts == [ts[0]] + ts[1..];
      j := FirstNonZero(ts[1..]);
      j := j + 1;
    }
  }

  lemma SplitTimes(sh: Shape, ts: seq<nat>) returns (vs: seq<real>, zeros: seq<Sample>, rest: seq<Sample>)
    requires sh.Ok() && sh.count > 1 && !AnchoredTimes(ts)
    ensures |vs| == |ts| && Zip(vs, ts) == zeros + rest && Separated(sh, zeros, rest)
  {
    var j := FirstNonZero(ts);
    vs := seq(|ts|, i => if i < j then sh.bound(0) else sh.bound(0) + 1.0);
    zeros, rest := Zip(vs, ts)[..j], Zip(vs, ts)[j..];
    BucketCovers(sh, sh.bound(0), 0);
    BucketCovers(sh, sh.bound(0) + 1.0, 0);
  }

  lemma DecayFails(sh: Shape, ts: seq<nat>) returns (vs: seq<real>, p: real)
    requires sh.Ok() && sh.count > 1 && !AnchoredTimes(ts)
    ensures |vs| == |ts| && !ReadsPlain(sh, vs, ts, p)
  {
    var zeros, rest;
    vs, zeros, rest := SplitTimes(sh, ts);
    assert rest[0] in rest;
    LaterWeighMore(sh, zeros, rest[0].t);
    TotalMassPositive(sh, rest);
    TotalConcat(sh, zeros, rest);
    AnchoredTotal(sh, zeros, rest);
    p := FractionBetween(TotalMass(sh, zeros), TotalMass(sh, zeros + rest), TotalMass(sh, Shift(zeros, rest[0].t)),
                         TotalMass(sh, Anchor(sh, zeros + rest)), TotalMass(sh, rest));
    UndecayedReadsLower(sh, zeros, rest, p);
  }

  lemma ZipAnchored(vs: seq<real>, ts: seq<nat>)
    requires |vs| == |ts| && AnchoredTimes(ts)
    ensures Anchored(Zip(vs, ts))
  {
    forall s | s in Zip(vs, ts) ensures s.t >= 0 && s.t in ts {
      var i :| 0 <= i < |ts| && Zip(vs, ts)[i] == s;
      assert ts[i] == s.t;
    }
  }

  /** For readings at given times, whatever their values, every percentile is that of the
      decayed multiset if and only if the first time is not the zero time or all are. */
  lemma DecaysExactly(sh: Shape, ts: seq<nat>)
    requires sh.Ok() && sh.count > 1
    ensures AnchoredTimes(ts) <==> forall vs: seq<real>, p: real :: |vs| == |ts| ==> ReadsPlain(sh, vs, ts, p)
  {
    if AnchoredTimes(ts) {
      forall vs: seq<real>, p: real | |vs| == |ts| ensures ReadsPlain(sh, vs, ts, p) {
        ZipAnchored(vs, ts);
        PercentileRefines(sh, Zip(vs, ts), p);
      }
    } else {
      var vs, p := DecayFails(sh, ts);
    }
  }
}
