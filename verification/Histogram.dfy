/** The decaying histogram. New samples weigh more and more relative to a reference
    time, and every weight is divided down when they grow too large; the proofs show
    that this is the plain thing it speeds up, a multiset of samples of which each
    weighs 2 to the power of its time over the half-life. */
module Histogram {
  import opened Exponentials

  predicate InOrder(bound: nat -> real, i: nat, j: nat) {
    i < j ==> bound(i) < bound(j)
  }

  /** The upper bound of each bucket, the number of buckets, and the weight of a
      sample over time, which doubles every half-life. */
  datatype Shape = Shape(bound: nat -> real, count: nat, weigh: int -> real) {
    ghost predicate Ok() {
      && count > 0
      && (forall i, j :: InOrder(bound, i, j))
      && Exponential(weigh)
    }
  }

  const MAX_WEIGHT: real := 1_000_000_000_000.0

  /** The least bucket from `i` on whose bound covers the value, or the last one. */
  function BucketFrom(sh: Shape, value: real, i: nat): (b: nat)
    requires sh.Ok() && i < sh.count
    ensures i <= b < sh.count
    ensures b < sh.count - 1 ==> value <= sh.bound(b)
    ensures forall j :: i <= j < b ==> value > sh.bound(j)
    decreases sh.count - i
  {
    if i == sh.count - 1 || value <= sh.bound(i) then i else BucketFrom(sh, value, i + 1)
  }

  function BucketFor(sh: Shape, value: real): (b: nat)
    requires sh.Ok()
    ensures b < sh.count
  {
    BucketFrom(sh, value, 0)
  }

  /** Below the last bucket, a value is in a bucket up to `b` exactly when the bound of
      `b` covers it. */
  lemma BucketCovers(sh: Shape, value: real, b: nat)
    requires sh.Ok() && b < sh.count - 1
    ensures BucketFor(sh, value) <= b <==> value <= sh.bound(b)
  {
    var c := BucketFor(sh, value);
    assert InOrder(sh.bound, c, b);
  }

  lemma BucketMonotone(sh: Shape, v: real, w: real)
    requires sh.Ok() && v <= w
    ensures BucketFor(sh, v) <= BucketFor(sh, w)
  {
    var b := BucketFor(sh, w);
    if b < sh.count - 1 {
      BucketCovers(sh, w, b);
      BucketCovers(sh, v, b);
    }
  }

  // ---------- The state and its two operations ----------

  /** Times are ticks; 0 is the zero time, which as a reference time means "none yet". */
  datatype Hist = Hist(weights: seq<real>, total: real, refTime: int)

  datatype Sample = Sample(value: real, t: int)

  function Empty(sh: Shape): Hist {
    Hist(seq(sh.count, _ => 0.0), 0.0, 0)
  }

  function Scaled(w: seq<real>, factor: real): seq<real>
    requires factor > 0.0
  {
    seq(|w|, i requires 0 <= i < |w| => w[i] / factor)
  }

  function Rescale(sh: Shape, h: Hist, now: int): Hist
    requires sh.Ok()
  {
    var factor := sh.weigh(now - h.refTime);
    Hist(Scaled(h.weights, factor), h.total / factor, now)
  }

  function AddTo(h: Hist, b: nat, weight: real): Hist
    requires b < |h.weights|
  {
    h.(weights := h.weights[b := h.weights[b] + weight], total := h.total + weight)
  }

  function Observe(sh: Shape, h: Hist, value: real, t: int): (r: Hist)
    requires sh.Ok() && |h.weights| == sh.count
    ensures |r.weights| == sh.count
  {
    var started := if h.refTime == 0 then h.(refTime := t) else h;
    var weight := sh.weigh(t - started.refTime);
    if weight > MAX_WEIGHT then AddTo(Rescale(sh, started, t), BucketFor(sh, value), 1.0)
    else AddTo(started, BucketFor(sh, value), weight)
  }

  predicate IsEmpty(h: Hist) {
    h.total < 0.000000001
  }

  /** The first bucket from `i` on where the running sum reaches the threshold, or the last. */
  function Scan(w: seq<real>, threshold: real, i: nat): (b: nat)
    requires i < |w|
    ensures i <= b < |w|
    decreases |w| - i
  {
    if i == |w| - 1 || Prefix(w, i + 1) >= threshold then i else Scan(w, threshold, i + 1)
  }

  function Percentile(sh: Shape, h: Hist, p: real): real
    requires sh.Ok() && |h.weights| == sh.count
  {
    if IsEmpty(h) then 0.0 else sh.bound(Scan(h.weights, Times(p, h.total), 0))
  }

  /** The state after a sequence of observations. */
  function HistOf(sh: Shape, ss: seq<Sample>): (h: Hist)
    requires sh.Ok()
    ensures |h.weights| == sh.count
  {
    if ss == [] then Empty(sh)
    else
      var last := ss[|ss| - 1];
      Observe(sh, HistOf(sh, ss[..|ss| - 1]), last.value, last.t)
  }

  // ---------- The plain decayed multiset ----------

  /** Decayed weight of the samples that fall in bucket b. */
  function BucketMass(sh: Shape, ss: seq<Sample>, b: nat): real
    requires sh.Ok()
  {
    if ss == [] then 0.0
    else
      var last := ss[|ss| - 1];
      BucketMass(sh, ss[..|ss| - 1], b) + (if BucketFor(sh, last.value) == b then sh.weigh(last.t) else 0.0)
  }

  /** Decayed weight of the samples in buckets up to b. */
  function MassUpTo(sh: Shape, ss: seq<Sample>, b: int): real
    requires sh.Ok()
  {
    if ss == [] then 0.0
    else
      var last := ss[|ss| - 1];
      MassUpTo(sh, ss[..|ss| - 1], b) + (if BucketFor(sh, last.value) <= b then sh.weigh(last.t) else 0.0)
  }

  /** Decayed weight of the samples whose value is at most x. */
  function MassAtMost(sh: Shape, ss: seq<Sample>, x: real): real
    requires sh.Ok()
  {
    if ss == [] then 0.0
    else
      var last := ss[|ss| - 1];
      MassAtMost(sh, ss[..|ss| - 1], x) + (if last.value <= x then sh.weigh(last.t) else 0.0)
  }

  function TotalMass(sh: Shape, ss: seq<Sample>): real
    requires sh.Ok()
  {
    if ss == [] then 0.0 else TotalMass(sh, ss[..|ss| - 1]) + sh.weigh(ss[|ss| - 1].t)
  }

  /** The first bucket from `i` on up to which the threshold's weight lies, or the last. */
  function PlainScan(sh: Shape, ss: seq<Sample>, threshold: real, i: nat): (b: nat)
    requires sh.Ok() && i < sh.count
    ensures i <= b < sh.count
    decreases sh.count - i
  {
    if i == sh.count - 1 || MassUpTo(sh, ss, i) >= threshold then i else PlainScan(sh, ss, threshold, i + 1)
  }

  /** The percentile of the decayed multiset of samples. */
  function PlainPercentile(sh: Shape, ss: seq<Sample>, p: real): real
    requires sh.Ok()
  {
    if ss == [] then 0.0 else sh.bound(PlainScan(sh, ss, Times(p, TotalMass(sh, ss)), 0))
  }

  lemma {:induction false} MassSplits(sh: Shape, ss: seq<Sample>, b: nat)
    requires sh.Ok()
    ensures MassUpTo(sh, ss, b) == MassUpTo(sh, ss, b - 1) + BucketMass(sh, ss, b)
  {
    if ss != [] {
      MassSplits(sh, ss[..|ss| - 1], b);
    }
  }

  lemma {:induction false} NoMassBelowZero(sh: Shape, ss: seq<Sample>)
    requires sh.Ok()
    ensures MassUpTo(sh, ss, -1) == 0.0
  {
    if ss != [] {
      NoMassBelowZero(sh, ss[..|ss| - 1]);
    }
  }

  lemma {:induction false} AllMassInBuckets(sh: Shape, ss: seq<Sample>)
    requires sh.Ok()
    ensures MassUpTo(sh, ss, sh.count - 1) == TotalMass(sh, ss)
  {
    if ss != [] {
      AllMassInBuckets(sh, ss[..|ss| - 1]);
    }
  }

  lemma {:induction false} TotalMassPositive(sh: Shape, ss: seq<Sample>)
    requires sh.Ok() && ss != []
    ensures TotalMass(sh, ss) > 0.0
  {
    if |ss| > 1 {
      TotalMassPositive(sh, ss[..|ss| - 1]);
    }
  }

  // ---------- The fast form refines the plain one ----------

  /** Every bucket, and the total, is its mass divided by one positive factor k. */
  ghost predicate Masses(sh: Shape, h: Hist, ss: seq<Sample>, k: real)
    requires sh.Ok() && |h.weights| == sh.count
  {
    && (forall b {:trigger BucketMass(sh, ss, b)} :: 0 <= b < sh.count ==>
        Times(h.weights[b], k) == BucketMass(sh, ss, b))
    && Times(h.total, k) == TotalMass(sh, ss)
  }

  /** The histogram stands for these samples: the factor is the weight of the
      reference time. */
  ghost predicate Refines(sh: Shape, h: Hist, ss: seq<Sample>)
    requires sh.Ok()
  {
    |h.weights| == sh.count && Masses(sh, h, ss, sh.weigh(h.refTime))
  }

  /** The same samples, all taken d ticks later. */
  function Shift(ss: seq<Sample>, d: int): seq<Sample> {
    seq(|ss|, i requires 0 <= i < |ss| => Sample(ss[i].value, ss[i].t + d))
  }

  /** The samples as the histogram dates them. A reference time of zero reads as unset, so
      the next sample moves the reference, and all weights with it, to its own time. */
  function Anchor(sh: Shape, ss: seq<Sample>): (r: seq<Sample>)
    requires sh.Ok()
    ensures |r| == |ss|
  {
    if ss == [] then []
    else
      var front, last := ss[..|ss| - 1], ss[|ss| - 1];
      (if HistOf(sh, front).refTime == 0 then Shift(Anchor(sh, front), last.t) else Anchor(sh, front)) + [last]
  }

  lemma ShiftOneMore(ss: seq<Sample>, s: Sample, d: int)
    ensures Shift(ss + [s], d) == Shift(ss, d) + [Sample(s.value, s.t + d)]
  {}

  lemma MassUpToOneMore(sh: Shape, ss: seq<Sample>, s: Sample, b: int)
    requires sh.Ok()
    ensures MassUpTo(sh, ss + [s], b) == MassUpTo(sh, ss, b) +
            (if BucketFor(sh, s.value) <= b then sh.weigh(s.t) else 0.0)
  {
    assert (ss + [s])[..|ss|] == ss;
  }

  /** A sum that grows by one more weight, or by nothing, scaled by k. */
  lemma ScaledSum(sum: real, counts: bool, weight: real, k: real)
    ensures Times(sum + (if counts then weight else 0.0), k) ==
            Times(sum, k) + (if counts then Times(weight, k) else 0.0)
  {
    if counts {
      Distribute(sum, weight, k);
    }
  }

  /** The weight of one sample moved d ticks later. */
  lemma ShiftedWeight(sh: Shape, t: int, d: int)
    requires sh.Ok()
    ensures sh.weigh(t + d) == Times(sh.weigh(t), sh.weigh(d))
  {
    assert Additive(sh.weigh, t, d);
  }

  lemma ShiftMassStep(sh: Shape, front: seq<Sample>, s: Sample, d: int, b: int)
    requires sh.Ok() && MassUpTo(sh, Shift(front, d), b) == Times(MassUpTo(sh, front, b), sh.weigh(d))
    ensures MassUpTo(sh, Shift(front + [s], d), b) == Times(MassUpTo(sh, front + [s], b), sh.weigh(d))
  {
    ShiftOneMore(front, s, d);
    ShiftedWeight(sh, s.t, d);
    MassUpToOneMore(sh, Shift(front, d), Sample(s.value, s.t + d), b);
    MassUpToOneMore(sh, front, s, b);
    ScaledSum(MassUpTo(sh, front, b), BucketFor(sh, s.value) <= b, sh.weigh(s.t), sh.weigh(d));
  }

  /** Dating all samples d ticks later multiplies every mass by the weight of d. */
  lemma {:induction false} ShiftMassUpTo(sh: Shape, ss: seq<Sample>, d: int, b: int)
    requires sh.Ok()
    ensures MassUpTo(sh, Shift(ss, d), b) == Times(MassUpTo(sh, ss, b), sh.weigh(d))
  {
    if ss != [] {
      var front := ss[..|ss| - 1];
      ShiftMassUpTo(sh, front, d, b);
      ShiftMassStep(sh, front, ss[|ss| - 1], d, b);
      assert ss == front + [ss[|ss| - 1]];
    }
  }

  lemma ShiftBucketMass(sh: Shape, ss: seq<Sample>, d: int, b: nat)
    requires sh.Ok()
    ensures BucketMass(sh, Shift(ss, d), b) == Times(BucketMass(sh, ss, b), sh.weigh(d))
  {
    MassSplits(sh, ss, b);
    MassSplits(sh, Shift(ss, d), b);
    ShiftMassUpTo(sh, ss, d, b);
    ShiftMassUpTo(sh, ss, d, b - 1);
    Distribute(MassUpTo(sh, ss, b - 1), BucketMass(sh, ss, b), sh.weigh(d));
  }

  lemma ShiftTotalMass(sh: Shape, ss: seq<Sample>, d: int)
    requires sh.Ok()
    ensures TotalMass(sh, Shift(ss, d)) == Times(TotalMass(sh, ss), sh.weigh(d))
  {
    AllMassInBuckets(sh, ss);
    AllMassInBuckets(sh, Shift(ss, d));
    ShiftMassUpTo(sh, ss, d, sh.count - 1);
  }

  lemma MoveReference(w: real, f: real, kRef: real, kNow: real)
    requires f > 0.0 && kNow == Times(f, kRef)
    ensures Times(w / f, kNow) == Times(w, kRef)
  {
    var q := w / f;
    assert q * f == w;
    assert q * (f * kRef) == (q * f) * kRef;
  }

  /** Moving the reference time changes every weight by the same factor. */
  lemma RescaleKeepsMasses(sh: Shape, h: Hist, now: int, ss: seq<Sample>)
    requires sh.Ok() && |h.weights| == sh.count && Masses(sh, h, ss, sh.weigh(h.refTime))
    ensures Masses(sh, Rescale(sh, h, now), ss, sh.weigh(now))
  {
    var r, f := Rescale(sh, h, now), sh.weigh(now - h.refTime);
    assert Additive(sh.weigh, now - h.refTime, h.refTime);
    forall b | 0 <= b < sh.count ensures Times(r.weights[b], sh.weigh(now)) == BucketMass(sh, ss, b) {
      MoveReference(h.weights[b], f, sh.weigh(h.refTime), sh.weigh(now));
    }
    MoveReference(h.total, f, sh.weigh(h.refTime), sh.weigh(now));
  }

  lemma Distribute(x: real, y: real, k: real)
    ensures Times(x + y, k) == Times(x, k) + Times(y, k)
  {}

  lemma MassOfOneMore(sh: Shape, ss: seq<Sample>, s: Sample, b: nat)
    requires sh.Ok()
    ensures BucketMass(sh, ss + [s], b) ==
            BucketMass(sh, ss, b) + (if BucketFor(sh, s.value) == b then sh.weigh(s.t) else 0.0)
    ensures TotalMass(sh, ss + [s]) == TotalMass(sh, ss) + sh.weigh(s.t)
  {
    assert (ss + [s])[..|ss|] == ss;
  }

  lemma AddKeepsMasses(sh: Shape, h: Hist, ss: seq<Sample>, s: Sample, weight: real, k: real)
    requires sh.Ok() && |h.weights| == sh.count && Masses(sh, h, ss, k)
    requires Times(weight, k) == sh.weigh(s.t)
    ensures Masses(sh, AddTo(h, BucketFor(sh, s.value), weight), ss + [s], k)
  {
    var c := BucketFor(sh, s.value);
    var r := AddTo(h, c, weight);
    Distribute(h.weights[c], weight, k);
    Distribute(h.total, weight, k);
    MassOfOneMore(sh, ss, s, c);
    forall b | 0 <= b < sh.count ensures Times(r.weights[b], k) == BucketMass(sh, ss + [s], b) {
      MassOfOneMore(sh, ss, s, b);
      assert Times(h.weights[b], k) == BucketMass(sh, ss, b);
    }
  }

  lemma EmptyMasses(sh: Shape, h: Hist, k: real)
    requires sh.Ok() && |h.weights| == sh.count && h.total == 0.0
    requires forall b :: 0 <= b < sh.count ==> h.weights[b] == 0.0
    ensures Masses(sh, h, [], k)
  {}

  /** Setting an unset reference to t dates everything so far t later. */
  lemma SettingTheReference(sh: Shape, h: Hist, ss: seq<Sample>, t: int)
    requires sh.Ok() && Refines(sh, h, ss) && h.refTime == 0
    ensures Refines(sh, h.(refTime := t), Shift(ss, t))
  {
    forall b | 0 <= b < sh.count ensures Times(h.weights[b], sh.weigh(t)) == BucketMass(sh, Shift(ss, t), b) {
      ShiftBucketMass(sh, ss, t, b);
      TimesOne(h.weights[b]);
      assert Times(h.weights[b], sh.weigh(0)) == BucketMass(sh, ss, b);
    }
    ShiftTotalMass(sh, ss, t);
    TimesOne(h.total);
  }

  lemma TimesOne(x: real)
    ensures Times(x, 1.0) == x == Times(1.0, x)
  {}

  /** One observation with the reference time set, or just being set to t. */
  lemma ObserveRefines(sh: Shape, h: Hist, ss: seq<Sample>, s: Sample)
    requires sh.Ok() && Refines(sh, h, ss)
    ensures Refines(sh, Observe(sh, h, s.value, s.t), (if h.refTime == 0 then Shift(ss, s.t) else ss) + [s])
  {
    if h.refTime == 0 {
      assert s.t - s.t == 0;
      SettingTheReference(sh, h, ss, s.t);
      TimesOne(sh.weigh(s.t));
      AddKeepsMasses(sh, h.(refTime := s.t), Shift(ss, s.t), s, 1.0, sh.weigh(s.t));
    } else {
      var weight := sh.weigh(s.t - h.refTime);
      assert Additive(sh.weigh, s.t - h.refTime, h.refTime);
      if weight > MAX_WEIGHT {
        RescaleKeepsMasses(sh, h, s.t, ss);
        TimesOne(sh.weigh(s.t));
        AddKeepsMasses(sh, Rescale(sh, h, s.t), ss, s, 1.0, sh.weigh(s.t));
      } else {
        AddKeepsMasses(sh, h, ss, s, weight, sh.weigh(h.refTime));
      }
    }
  }

  /** Refinement: after any sequence of observations, at any times in any order and with
      any number of rescales, the weights are the masses of the anchored samples. */
  lemma {:induction false} HistRefines(sh: Shape, ss: seq<Sample>)
    requires sh.Ok()
    ensures Refines(sh, HistOf(sh, ss), Anchor(sh, ss))
  {
    if ss == [] {
      EmptyMasses(sh, Empty(sh), sh.weigh(0));
    } else {
      HistRefines(sh, ss[..|ss| - 1]);
      ObserveRefines(sh, HistOf(sh, ss[..|ss| - 1]), Anchor(sh, ss[..|ss| - 1]), ss[|ss| - 1]);
    }
  }

  // ---------- When the histogram dates its samples as they are ----------

  /** No time before the zero time. */
  ghost predicate FromZero(ss: seq<Sample>) {
    forall s <- ss :: s.t >= 0
  }

  /** The first sample is not at the zero time, or all are. */
  ghost predicate Anchored(ss: seq<Sample>) {
    FromZero(ss) && (ss == [] || ss[0].t != 0 || forall s <- ss :: s.t == 0)
  }

  /** Zero-time samples, and then others of which the first is not at the zero time. */
  ghost predicate Split(zeros: seq<Sample>, rest: seq<Sample>) {
    && (forall s <- zeros :: s.t == 0)
    && rest != [] && rest[0].t != 0 && FromZero(rest)
  }

  lemma SplitFront(zeros: seq<Sample>, rest: seq<Sample>)
    requires Split(zeros, rest) && |rest| > 1
    ensures Split(zeros, rest[..|rest| - 1]) && rest[..|rest| - 1][0] == rest[0]
    ensures zeros + rest == zeros + rest[..|rest| - 1] + [rest[|rest| - 1]]
  {}

  lemma Append<T>(x: seq<T>, y: seq<T>)
    requires y != []
    ensures x + y == x + y[..|y| - 1] + [y[|y| - 1]]
  {}

  lemma HistOneMore(sh: Shape, ss: seq<Sample>, s: Sample)
    requires sh.Ok()
    ensures HistOf(sh, ss + [s]) == Observe(sh, HistOf(sh, ss), s.value, s.t)
    ensures Anchor(sh, ss + [s]) ==
            (if HistOf(sh, ss).refTime == 0 then Shift(Anchor(sh, ss), s.t) else Anchor(sh, ss)) + [s]
  {
    assert (ss + [s])[..|ss|] == ss;
  }

  lemma {:induction false} ReferenceIsSet(sh: Shape, zeros: seq<Sample>, rest: seq<Sample>)
    requires sh.Ok() && Split(zeros, rest)
    ensures HistOf(sh, zeros + rest).refTime > 0
  {
    var front, last := rest[..|rest| - 1], rest[|rest| - 1];
    assert last in rest;
    if front != [] {
      SplitFront(zeros, rest);
      ReferenceIsSet(sh, zeros, front);
    } else {
      assert rest == [last] && zeros + front == zeros;
      ZeroTimesStandStill(sh, zeros);
    }
    HistOneMore(sh, zeros + front, last);
    ReferenceAfter(sh, HistOf(sh, zeros + front), last);
  }

  /** Zero-time samples before the first other one, at time T, are dated T; nothing else
      is dated differently. */
  lemma {:induction false} AnchorSplits(sh: Shape, zeros: seq<Sample>, rest: seq<Sample>)
    requires sh.Ok() && Split(zeros, rest)
    ensures Anchor(sh, zeros + rest) == Shift(zeros, rest[0].t) + rest
  {
    var front, last := rest[..|rest| - 1], rest[|rest| - 1];
    if front != [] {
      SplitFront(zeros, rest);
      AnchorSplits(sh, zeros, front);
      ReferenceIsSet(sh, zeros, front);
      HistOneMore(sh, zeros + front, last);
      Append(Shift(zeros, rest[0].t), rest);
    } else {
      assert rest == [last];
      ZeroTimesStandStill(sh, zeros);
      HistOneMore(sh, zeros, last);
    }
  }

  /** A reference time, once set, stays set as long as no sample precedes the zero time. */
  lemma ReferenceAfter(sh: Shape, h: Hist, s: Sample)
    requires sh.Ok() && |h.weights| == sh.count && s.t >= 0
    ensures h.refTime > 0 ==> Observe(sh, h, s.value, s.t).refTime > 0
    ensures h.refTime == 0 ==> Observe(sh, h, s.value, s.t).refTime == s.t
  {
    if h.refTime == 0 {
      assert s.t - s.t == 0;
    } else if h.refTime > 0 && sh.weigh(s.t - h.refTime) > MAX_WEIGHT {
      LaterWeighsMore(sh, s.t - h.refTime);
    }
  }

  lemma {:induction false} ZeroTimesStandStill(sh: Shape, ss: seq<Sample>)
    requires sh.Ok() && forall s <- ss :: s.t == 0
    ensures Anchor(sh, ss) == ss && HistOf(sh, ss).refTime == 0
  {
    if ss != [] {
      var front, last := ss[..|ss| - 1], ss[|ss| - 1];
      assert last in ss && ss == front + [last];
      ZeroTimesStandStill(sh, front);
      assert sh.weigh(0 - 0) == 1.0;
      assert Shift(front, 0) == front;
    }
  }

  /** Only a positive number of ticks weighs more than one. */
  lemma LaterWeighsMore(sh: Shape, n: int)
    requires sh.Ok() && sh.weigh(n) > 1.0
    ensures n > 0
  {
    if n <= 0 {
      WeighAtLeastOne(sh, -n);
      assert Additive(sh.weigh, n, -n);
      ProductAboveOne(sh.weigh(n), sh.weigh(-n));
    }
  }

  lemma {:induction false} WeighAtLeastOne(sh: Shape, n: nat)
    requires sh.Ok()
    ensures sh.weigh(n) >= 1.0
    ensures n > 0 ==> sh.weigh(n) > 1.0
  {
    if n > 0 {
      WeighAtLeastOne(sh, n - 1);
      assert Additive(sh.weigh, n - 1, 1);
      ProductAboveOne(sh.weigh(1), sh.weigh(n - 1));
    }
  }

  lemma ProductAboveOne(x: real, y: real)
    requires x > 1.0 && y >= 1.0
    ensures Times(x, y) > 1.0 && Times(y, x) > 1.0
  {
    var d := x - 1.0;
    assert d * y > 0.0;
    assert x * y == y + d * y;
  }

  lemma AnchoredStays(sh: Shape, ss: seq<Sample>)
    requires sh.Ok() && Anchored(ss)
    ensures Anchor(sh, ss) == ss
  {
    if ss != [] && ss[0].t != 0 {
      AnchorSplits(sh, [], ss);
      assert [] + ss == ss && Shift([], ss[0].t) == [];
    } else {
      ZeroTimesStandStill(sh, ss);
    }
  }

  // ---------- Exact emptiness ----------

  lemma QuotientShrinks(x: real, f: real)
    requires x >= 0.0 && f >= 1.0
    ensures 0.0 <= x / f <= x
  {
    var q := x / f;
    assert q * f == x;
  }

  lemma ObserveTotal(sh: Shape, h: Hist, value: real, t: int)
    requires sh.Ok() && |h.weights| == sh.count
    requires h.total >= 1.0 || (h.total == 0.0 && h.refTime == 0)
    ensures 1.0 <= Observe(sh, h, value, t).total <= h.total + MAX_WEIGHT
  {
    var started := if h.refTime == 0 then h.(refTime := t) else h;
    var weight := sh.weigh(t - started.refTime);
    if weight > MAX_WEIGHT {
      QuotientShrinks(h.total, weight);
    } else if h.total == 0.0 {
      assert t - started.refTime == 0;
    }
  }

  /** From the first sample on the total is at least 1, and it grows by at most the
      rescale threshold per sample, whatever the timestamps. */
  lemma {:induction false} TotalWeightBounds(sh: Shape, ss: seq<Sample>)
    requires sh.Ok() && ss != []
    ensures 1.0 <= HistOf(sh, ss).total <= |ss| as real * MAX_WEIGHT
  {
    var front, last := ss[..|ss| - 1], ss[|ss| - 1];
    if front != [] {
      TotalWeightBounds(sh, front);
    }
    ObserveTotal(sh, HistOf(sh, front), last.value, last.t);
  }

  lemma EmptyMeansNoSample(sh: Shape, ss: seq<Sample>)
    requires sh.Ok()
    ensures IsEmpty(HistOf(sh, ss)) <==> ss == []
  {
    if ss != [] {
      TotalWeightBounds(sh, ss);
    }
  }

  // ---------- Percentiles ----------

  lemma {:induction false} PrefixIsMass(sh: Shape, h: Hist, ss: seq<Sample>, n: nat)
    requires sh.Ok() && ss != [] && Refines(sh, h, ss) && n <= sh.count
    ensures Times(Prefix(h.weights, n), sh.weigh(h.refTime)) == MassUpTo(sh, ss, n - 1)
  {
    if n == 0 {
      NoMassBelowZero(sh, ss);
    } else {
      PrefixIsMass(sh, h, ss, n - 1);
      MassSplits(sh, ss, n - 1);
      Distribute(Prefix(h.weights, n - 1), h.weights[n - 1], sh.weigh(h.refTime));
    }
  }

  lemma ThresholdScales(x: real, p: real, total: real, k: real)
    requires k > 0.0
    ensures x >= Times(p, total) <==> Times(x, k) >= Times(p, Times(total, k))
  {
    var d := x - p * total;
    assert p * (total * k) == (p * total) * k;
    assert x * k - (p * total) * k == d * k;
    if d >= 0.0 {
      assert d * k >= 0.0;
    } else {
      assert (-d) * k > 0.0;
    }
  }

  lemma {:induction false} SameScan(sh: Shape, w: seq<real>, threshold: real, ss: seq<Sample>, plain: real, i: nat)
    requires sh.Ok() && |w| == sh.count && i < sh.count
    requires forall j :: 0 <= j < sh.count ==> (Prefix(w, j + 1) >= threshold <==> MassUpTo(sh, ss, j) >= plain)
    ensures Scan(w, threshold, i) == PlainScan(sh, ss, plain, i)
    decreases sh.count - i
  {
    if i < sh.count - 1 {
      SameScan(sh, w, threshold, ss, plain, i + 1);
    }
  }

  lemma ReachesTogether(sh: Shape, h: Hist, ss: seq<Sample>, p: real, j: nat)
    requires sh.Ok() && ss != [] && Refines(sh, h, ss) && j < sh.count
    ensures Prefix(h.weights, j + 1) >= Times(p, h.total) <==> MassUpTo(sh, ss, j) >= Times(p, TotalMass(sh, ss))
  {
    PrefixIsMass(sh, h, ss, j + 1);
    ThresholdScales(Prefix(h.weights, j + 1), p, h.total, sh.weigh(h.refTime));
  }

  lemma ScanIsPlain(sh: Shape, h: Hist, ss: seq<Sample>, p: real)
    requires sh.Ok() && ss != [] && Refines(sh, h, ss)
    ensures Scan(h.weights, Times(p, h.total), 0) == PlainScan(sh, ss, Times(p, TotalMass(sh, ss)), 0)
  {
    forall j | 0 <= j < sh.count
      ensures Prefix(h.weights, j + 1) >= Times(p, h.total) <==> MassUpTo(sh, ss, j) >= Times(p, TotalMass(sh, ss))
    {
      ReachesTogether(sh, h, ss, p, j);
    }
    SameScan(sh, h.weights, Times(p, h.total), ss, Times(p, TotalMass(sh, ss)), 0);
  }

  /** The percentile read from the rescaled weights is, always and for every p, that of
      the plain decayed multiset of the anchored samples. */
  lemma PercentileIsAnchored(sh: Shape, ss: seq<Sample>, p: real)
    requires sh.Ok()
    ensures Percentile(sh, HistOf(sh, ss), p) == PlainPercentile(sh, Anchor(sh, ss), p)
  {
    EmptyMeansNoSample(sh, ss);
    if ss != [] {
      HistRefines(sh, ss);
      ScanIsPlain(sh, HistOf(sh, ss), Anchor(sh, ss), p);
    }
  }

  /** So it is that of the samples themselves when they are anchored. */
  lemma PercentileRefines(sh: Shape, ss: seq<Sample>, p: real)
    requires sh.Ok() && Anchored(ss)
    ensures Percentile(sh, HistOf(sh, ss), p) == PlainPercentile(sh, ss, p)
  {
    PercentileIsAnchored(sh, ss, p);
    AnchoredStays(sh, ss);
  }

  lemma {:induction false} PlainScanIsLeast(sh: Shape, ss: seq<Sample>, threshold: real, i: nat)
    requires sh.Ok() && i < sh.count && threshold <= TotalMass(sh, ss)
    ensures var b := PlainScan(sh, ss, threshold, i);
            && MassUpTo(sh, ss, b) >= threshold
            && forall j :: i <= j < b ==> MassUpTo(sh, ss, j) < threshold
    decreases sh.count - i
  {
    AllMassInBuckets(sh, ss);
    if i < sh.count - 1 && MassUpTo(sh, ss, i) < threshold {
      PlainScanIsLeast(sh, ss, threshold, i + 1);
    }
  }

  lemma {:induction false} MassByValue(sh: Shape, ss: seq<Sample>, b: nat)
    requires sh.Ok() && b < sh.count - 1
    ensures MassUpTo(sh, ss, b) == MassAtMost(sh, ss, sh.bound(b))
  {
    if ss != [] {
      MassByValue(sh, ss[..|ss| - 1], b);
      BucketCovers(sh, ss[|ss| - 1].value, b);
    }
  }

  lemma FractionBelowTotal(p: real, total: real)
    requires total > 0.0 && p <= 1.0
    ensures Times(p, total) <= total
  {
    var q := 1.0 - p;
    assert q * total >= 0.0;
    assert q * total == total - p * total;
  }

  /** What the scan answers, in terms of sample values. */
  lemma PlainScanAccuracy(sh: Shape, ss: seq<Sample>, threshold: real) returns (b: nat)
    requires sh.Ok() && threshold <= TotalMass(sh, ss)
    ensures b == PlainScan(sh, ss, threshold, 0) && b < sh.count && MassUpTo(sh, ss, b) >= threshold
    ensures b < sh.count - 1 ==> MassAtMost(sh, ss, sh.bound(b)) >= threshold
    ensures b > 0 ==> MassAtMost(sh, ss, sh.bound(b - 1)) < threshold
  {
    b := PlainScan(sh, ss, threshold, 0);
    PlainScanIsLeast(sh, ss, threshold, 0);
    if b < sh.count - 1 {
      MassByValue(sh, ss, b);
    }
    if b > 0 {
      MassByValue(sh, ss, b - 1);
    }
  }

  /** Accuracy. A fraction p of the decayed weight lies at or below the answer, unless
      the answer is the saturated last bucket; less than p lies at or below the bound
      of the bucket before. */
  lemma PercentileAccuracy(sh: Shape, ss: seq<Sample>, p: real) returns (b: nat)
    requires sh.Ok() && ss != [] && p <= 1.0
    ensures b < sh.count && Percentile(sh, HistOf(sh, ss), p) == sh.bound(b)
    ensures var dated := Anchor(sh, ss);
            && (b < sh.count - 1 ==> MassAtMost(sh, dated, sh.bound(b)) >= Times(p, TotalMass(sh, dated)))
            && (b > 0 ==> MassAtMost(sh, dated, sh.bound(b - 1)) < Times(p, TotalMass(sh, dated)))
  {
    var dated := Anchor(sh, ss);
    TotalMassPositive(sh, dated);
    FractionBelowTotal(p, TotalMass(sh, dated));
    PercentileIsAnchored(sh, ss, p);
    b := PlainScanAccuracy(sh, dated, Times(p, TotalMass(sh, dated)));
  }

  /** For p up to 1 the running sum reaches the threshold in the bucket answered, so
      the return after the loop is never needed. */
  lemma FallbackUnreachable(sh: Shape, ss: seq<Sample>, p: real)
    requires sh.Ok() && ss != [] && p <= 1.0
    ensures var h := HistOf(sh, ss);
            Prefix(h.weights, Scan(h.weights, Times(p, h.total), 0) + 1) >= Times(p, h.total)
  {
    var h, dated := HistOf(sh, ss), Anchor(sh, ss);
    HistRefines(sh, ss);
    ScanIsPlain(sh, h, dated, p);
    TotalMassPositive(sh, dated);
    FractionBelowTotal(p, TotalMass(sh, dated));
    var b := PlainScanAccuracy(sh, dated, Times(p, TotalMass(sh, dated)));
    ReachesTogether(sh, h, dated, p, b);
  }
}
