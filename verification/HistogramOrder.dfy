/** What the percentile of a histogram does not depend on, and how it follows its samples. */
module HistogramOrder {
  import opened Exponentials
  import opened Histogram

  // ---------- Order of the samples ----------

  function Without<T>(s: seq<T>, i: nat): seq<T>
    requires i < |s|
  {
    s[..i] + s[i + 1..]
  }

  lemma WithoutEarlier<T>(s: seq<T>, i: nat)
    requires i < |s| - 1
    ensures Without(s, i) == Without(s[..|s| - 1], i) + [s[|s| - 1]]
  {}

  lemma {:induction false} MassWithout(sh: Shape, ss: seq<Sample>, i: nat, b: int)
    requires sh.Ok() && i < |ss|
    ensures MassUpTo(sh, ss, b) ==
            MassUpTo(sh, Without(ss, i), b) + (if BucketFor(sh, ss[i].value) <= b then sh.weigh(ss[i].t) else 0.0)
    ensures TotalMass(sh, ss) == TotalMass(sh, Without(ss, i)) + sh.weigh(ss[i].t)
  {
    var n := |ss| - 1;
    var front := ss[..n];
    if i == n {
      assert Without(ss, i) == front;
    } else {
      MassWithout(sh, front, i, b);
      WithoutEarlier(ss, i);
      MassUpToOneMore(sh, Without(front, i), ss[n], b);
      MassOfOneMore(sh, Without(front, i), ss[n], 0);
    }
  }

  lemma MultisetWithout<T>(s: seq<T>, i: nat)
    requires i < |s|
    ensures multiset(s) == multiset(Without(s, i)) + multiset{s[i]}
  {
    assert s == s[..i] + [s[i]] + s[i + 1..];
  }

  lemma MatchingLast<T>(ss: seq<T>, tt: seq<T>) returns (i: nat)
    requires multiset(ss) == multiset(tt) && ss != []
    ensures i < |tt| && tt[i] == ss[|ss| - 1]
    ensures multiset(ss[..|ss| - 1]) == multiset(Without(tt, i))
  {
    var n := |ss| - 1;
    assert ss[n] in multiset(ss);
    i :| 0 <= i < |tt| && tt[i] == ss[n];
    assert Without(ss, n) == ss[..n];
    MultisetWithout(ss, n);
    MultisetWithout(tt, i);
    assert multiset(ss[..n]) == multiset(ss) - multiset{ss[n]} == multiset(Without(tt, i));
  }

  /** Masses depend on which samples there are, not on their order. */
  lemma {:induction false} MassIgnoresOrder(sh: Shape, ss: seq<Sample>, tt: seq<Sample>, b: int)
    requires sh.Ok() && multiset(ss) == multiset(tt)
    ensures MassUpTo(sh, ss, b) == MassUpTo(sh, tt, b)
    ensures TotalMass(sh, ss) == TotalMass(sh, tt)
    decreases |ss|
  {
    if ss == [] {
      assert |tt| == |multiset(tt)| == 0;
    } else {
      var n := |ss| - 1;
      var i := MatchingLast(ss, tt);
      MassIgnoresOrder(sh, ss[..n], Without(tt, i), b);
      MassWithout(sh, tt, i, b);
    }
  }

  lemma {:induction false} ScanIgnoresOrder(sh: Shape, ss: seq<Sample>, tt: seq<Sample>, threshold: real, i: nat)
    requires sh.Ok() && multiset(ss) == multiset(tt) && i < sh.count
    ensures PlainScan(sh, ss, threshold, i) == PlainScan(sh, tt, threshold, i)
    decreases sh.count - i
  {
    MassIgnoresOrder(sh, ss, tt, i);
    if i < sh.count - 1 {
      ScanIgnoresOrder(sh, ss, tt, threshold, i + 1);
    }
  }

  /** Samples in any order, with rescales falling at different moments, read the same. */
  lemma PercentileIgnoresOrder(sh: Shape, ss: seq<Sample>, tt: seq<Sample>, p: real)
    requires sh.Ok() && Anchored(ss) && Anchored(tt) && multiset(ss) == multiset(tt)
    ensures Percentile(sh, HistOf(sh, ss), p) == Percentile(sh, HistOf(sh, tt), p)
  {
    assert |ss| == |multiset(ss)| == |multiset(tt)| == |tt|;
    PercentileRefines(sh, ss, p);
    PercentileRefines(sh, tt, p);
    if ss != [] {
      MassIgnoresOrder(sh, ss, tt, 0);
      ScanIgnoresOrder(sh, ss, tt, Times(p, TotalMass(sh, ss)), 0);
    }
  }

  // ---------- Larger samples ----------

  /** The same moments, with values no larger. */
  ghost predicate PointwiseBelow(ss: seq<Sample>, tt: seq<Sample>) {
    |ss| == |tt| && forall i :: 0 <= i < |ss| ==> ss[i].t == tt[i].t && ss[i].value <= tt[i].value
  }

  lemma {:induction false} SmallerSamplesWeighMoreBelow(sh: Shape, ss: seq<Sample>, tt: seq<Sample>, b: int)
    requires sh.Ok() && PointwiseBelow(ss, tt)
    ensures MassUpTo(sh, ss, b) >= MassUpTo(sh, tt, b)
    ensures TotalMass(sh, ss) == TotalMass(sh, tt)
  {
    if ss != [] {
      var n := |ss| - 1;
      SmallerSamplesWeighMoreBelow(sh, ss[..n], tt[..n], b);
      BucketMonotone(sh, ss[n].value, tt[n].value);
      assert sh.weigh(ss[n].t) > 0.0;
    }
  }

  lemma {:induction false} ScanMonotone(sh: Shape, ss: seq<Sample>, tt: seq<Sample>, threshold: real, i: nat)
    requires sh.Ok() && PointwiseBelow(ss, tt) && i < sh.count
    ensures PlainScan(sh, ss, threshold, i) <= PlainScan(sh, tt, threshold, i)
    decreases sh.count - i
  {
    SmallerSamplesWeighMoreBelow(sh, ss, tt, i);
    if i < sh.count - 1 {
      ScanMonotone(sh, ss, tt, threshold, i + 1);
    }
  }

  lemma BoundMonotone(sh: Shape, i: nat, j: nat)
    requires sh.Ok() && i <= j
    ensures sh.bound(i) <= sh.bound(j)
  {
    assert InOrder(sh.bound, i, j);
  }

  lemma ReferenceStep(sh: Shape, h: Hist, k: Hist, v: real, w: real, t: int)
    requires sh.Ok() && |h.weights| == sh.count == |k.weights| && h.refTime == k.refTime
    ensures Observe(sh, h, v, t).refTime == Observe(sh, k, w, t).refTime
  {}

  /** The reference time follows the times of the samples alone. */
  lemma {:induction false} SameReference(sh: Shape, ss: seq<Sample>, tt: seq<Sample>)
    requires sh.Ok() && PointwiseBelow(ss, tt)
    ensures HistOf(sh, ss).refTime == HistOf(sh, tt).refTime
  {
    if ss != [] {
      var n := |ss| - 1;
      SameReference(sh, ss[..n], tt[..n]);
      ReferenceStep(sh, HistOf(sh, ss[..n]), HistOf(sh, tt[..n]), ss[n].value, tt[n].value, ss[n].t);
    }
  }

  lemma ShiftBelow(ss: seq<Sample>, tt: seq<Sample>, d: int)
    requires PointwiseBelow(ss, tt)
    ensures PointwiseBelow(Shift(ss, d), Shift(tt, d))
  {}

  lemma {:induction false} AnchorBelow(sh: Shape, ss: seq<Sample>, tt: seq<Sample>)
    requires sh.Ok() && PointwiseBelow(ss, tt)
    ensures PointwiseBelow(Anchor(sh, ss), Anchor(sh, tt))
  {
    if ss != [] {
      var n := |ss| - 1;
      AnchorBelow(sh, ss[..n], tt[..n]);
      SameReference(sh, ss[..n], tt[..n]);
      ShiftBelow(Anchor(sh, ss[..n]), Anchor(sh, tt[..n]), ss[n].t);
    }
  }

  /** Larger samples at the same moments, whatever these are, never read a smaller
      percentile. */
  lemma PercentileMonotone(sh: Shape, ss: seq<Sample>, tt: seq<Sample>, p: real)
    requires sh.Ok() && PointwiseBelow(ss, tt)
    ensures Percentile(sh, HistOf(sh, ss), p) <= Percentile(sh, HistOf(sh, tt), p)
  {
    var low, high := Anchor(sh, ss), Anchor(sh, tt);
    PercentileIsAnchored(sh, ss, p);
    PercentileIsAnchored(sh, tt, p);
    AnchorBelow(sh, ss, tt);
    if ss != [] {
      SmallerSamplesWeighMoreBelow(sh, low, high, 0);
      var threshold := Times(p, TotalMass(sh, low));
      ScanMonotone(sh, low, high, threshold, 0);
      BoundMonotone(sh, PlainScan(sh, low, threshold, 0), PlainScan(sh, high, threshold, 0));
    }
  }
}
