/** Pods arrive in no particular order and readings are fetched again before they
    change; neither may matter to a recommendation. */
module Interleavings {
  import opened Histogram
  import opened HistogramOrder
  import opened Recommending

  /** The readings of one container of one pod, in the order they were fed. */
  function Stream(trace: seq<Event>, key: ContainerKey, pod: string): seq<Event> {
    if trace == [] then []
    else
      var front, e := trace[..|trace| - 1], trace[|trace| - 1];
      Stream(front, key, pod) + (if e.key == key && e.pod == pod then [e] else [])
  }

  /** A stream without the readings that had already been fed. */
  function Dedup(s: seq<Event>): seq<Event> {
    if s == [] then []
    else
      var front, e := s[..|s| - 1], s[|s| - 1];
      if e in front then Dedup(front) else Dedup(front) + [e]
  }

  /** Two traces that interleave the same per-pod streams, up to repeated readings. */
  ghost predicate SameStreams(tr: seq<Event>, us: seq<Event>) {
    forall key, pod :: Dedup(Stream(tr, key, pod)) == Dedup(Stream(us, key, pod))
  }

  predicate Newest(before: seq<Event>, t: int) {
    forall x <- before :: x.t < t
  }

  /** The readings of a single stream that are newer than all before them. */
  function Rising(s: seq<Event>): seq<Event> {
    if s == [] then []
    else
      var front, e := s[..|s| - 1], s[|s| - 1];
      if Newest(front, e.t) then Rising(front) + [e] else Rising(front)
  }

  function OfPod(es: seq<Event>, pod: string): seq<Event> {
    if es == [] then []
    else OfPod(es[..|es| - 1], pod) + (if es[|es| - 1].pod == pod then [es[|es| - 1]] else [])
  }

  lemma OfPodOneMore(es: seq<Event>, e: Event, pod: string)
    ensures OfPod(es + [e], pod) == OfPod(es, pod) + (if e.pod == pod then [e] else [])
  {
    assert (es + [e])[..|es|] == es;
  }

  lemma RisingOneMore(s: seq<Event>, e: Event)
    ensures Rising(s + [e]) == if Newest(s, e.t) then Rising(s) + [e] else Rising(s)
  {
    assert (s + [e])[..|s|] == s;
  }

  lemma {:induction false} StreamMembers(trace: seq<Event>, key: ContainerKey, pod: string, x: Event)
    ensures x in Stream(trace, key, pod) <==> x in trace && x.key == key && x.pod == pod
  {
    if trace != [] {
      var front, e := trace[..|trace| - 1], trace[|trace| - 1];
      assert trace == front + [e];
      StreamMembers(front, key, pod, x);
    }
  }

  lemma NewsInStream(trace: seq<Event>, key: ContainerKey, pod: string, t: int)
    ensures NewAt(trace, key, pod, t) <==> Newest(Stream(trace, key, pod), t)
  {
    forall x ensures x in Stream(trace, key, pod) <==> x in trace && x.key == key && x.pod == pod {
      StreamMembers(trace, key, pod, x);
    }
  }

  /** What a key accepts from a pod depends on that pod's stream alone. */
  lemma {:induction false} AcceptedPerPod(trace: seq<Event>, key: ContainerKey, pod: string)
    ensures OfPod(Accepted(trace, key), pod) == Rising(Stream(trace, key, pod))
  {
    if trace != [] {
      var front, e := trace[..|trace| - 1], trace[|trace| - 1];
      AcceptedPerPod(front, key, pod);
      if e.key == key {
        OfPodOneMore(Accepted(front, key), e, pod);
        NewsInStream(front, key, pod, e.t);
        RisingOneMore(Stream(front, key, pod), e);
      }
      if !(e.key == key && e.pod == pod) {
        assert Stream(trace, key, pod) == Stream(front, key, pod);
      }
    }
  }

  lemma {:induction false} DedupMembers(s: seq<Event>, x: Event)
    ensures x in Dedup(s) <==> x in s
  {
    if s != [] {
      var front, e := s[..|s| - 1], s[|s| - 1];
      assert s == front + [e];
      DedupMembers(front, x);
    }
  }

  /** Repeating a reading that had been fed changes nothing. */
  lemma {:induction false} RisingIgnoresRepeats(s: seq<Event>)
    ensures Rising(Dedup(s)) == Rising(s)
  {
    if s != [] {
      var front, e := s[..|s| - 1], s[|s| - 1];
      RisingIgnoresRepeats(front);
      if e !in front {
        forall x ensures x in Dedup(front) <==> x in front {
          DedupMembers(front, x);
        }
        RisingOneMore(Dedup(front), e);
      }
    }
  }

  lemma {:induction false} CountPerPod(es: seq<Event>, x: Event)
    ensures multiset(es)[x] == multiset(OfPod(es, x.pod))[x]
  {
    if es != [] {
      var front, e := es[..|es| - 1], es[|es| - 1];
      assert es == front + [e];
      CountPerPod(front, x);
    }
  }

  /** Both traces accept the same readings for a key, in some order. */
  lemma SameReadingsAccepted(tr: seq<Event>, us: seq<Event>, key: ContainerKey)
    requires SameStreams(tr, us)
    ensures multiset(Accepted(tr, key)) == multiset(Accepted(us, key))
  {
    forall x ensures multiset(Accepted(tr, key))[x] == multiset(Accepted(us, key))[x] {
      CountPerPod(Accepted(tr, key), x);
      CountPerPod(Accepted(us, key), x);
      AcceptedPerPod(tr, key, x.pod);
      AcceptedPerPod(us, key, x.pod);
      RisingIgnoresRepeats(Stream(tr, key, x.pod));
      RisingIgnoresRepeats(Stream(us, key, x.pod));
    }
  }

  lemma SamplesOneMore(es: seq<Event>)
    requires es != []
    ensures var n := |es| - 1;
            && CpuSamples(es) == CpuSamples(es[..n]) + [Sample(es[n].cpu, es[n].t)]
            && MemSamples(es) == MemSamples(es[..n]) + [Sample(es[n].mem, es[n].t)]
  {}

  lemma SamplesWithout(es: seq<Event>, i: nat)
    requires i < |es|
    ensures CpuSamples(Without(es, i)) == Without(CpuSamples(es), i)
    ensures MemSamples(Without(es, i)) == Without(MemSamples(es), i)
  {}

  lemma {:induction false} SamplesFollowReadings(es: seq<Event>, fs: seq<Event>)
    requires multiset(es) == multiset(fs)
    ensures multiset(CpuSamples(es)) == multiset(CpuSamples(fs))
    ensures multiset(MemSamples(es)) == multiset(MemSamples(fs))
    decreases |es|
  {
    if es == [] {
      assert |fs| == |multiset(fs)| == 0;
      assert CpuSamples(es) == CpuSamples(fs) && MemSamples(es) == MemSamples(fs);
    } else {
      var i := MatchingLast(es, fs);
      SamplesFollowReadings(es[..|es| - 1], Without(fs, i));
      SamplesOneMore(es);
      SamplesWithout(fs, i);
      MultisetWithout(CpuSamples(fs), i);
      MultisetWithout(MemSamples(fs), i);
    }
  }

  // ---------- The zero time ----------

  /** The readings of one container, of whichever pod. */
  function OfKey(trace: seq<Event>, key: ContainerKey): seq<Event> {
    if trace == [] then []
    else OfKey(trace[..|trace| - 1], key) + (if trace[|trace| - 1].key == key then [trace[|trace| - 1]] else [])
  }

  /** The first reading of the key is not at the zero time, or all are; none precedes it. */
  ghost predicate AnchoredFor(trace: seq<Event>, key: ContainerKey) {
    var es := OfKey(trace, key);
    && (forall e <- es :: e.t >= 0)
    && (es == [] || es[0].t != 0 || forall e <- es :: e.t == 0)
  }

  lemma {:induction false} OfKeyMembers(trace: seq<Event>, key: ContainerKey, x: Event)
    ensures x in OfKey(trace, key) <==> x in trace && x.key == key
  {
    if trace != [] {
      var front, e := trace[..|trace| - 1], trace[|trace| - 1];
      assert trace == front + [e];
      OfKeyMembers(front, key, x);
    }
  }

  lemma {:induction false} AcceptedOfKey(trace: seq<Event>, key: ContainerKey, x: Event)
    requires x in Accepted(trace, key)
    ensures x in OfKey(trace, key)
  {
    var front := trace[..|trace| - 1];
    if x in Accepted(front, key) {
      AcceptedOfKey(front, key, x);
    }
  }

  /** The first reading of a key is always accepted. */
  lemma {:induction false} FirstIsAccepted(trace: seq<Event>, key: ContainerKey)
    ensures Accepted(trace, key) == [] <==> OfKey(trace, key) == []
    ensures Accepted(trace, key) != [] ==> Accepted(trace, key)[0] == OfKey(trace, key)[0]
  {
    if trace != [] {
      var front, e := trace[..|trace| - 1], trace[|trace| - 1];
      FirstIsAccepted(front, key);
      if OfKey(front, key) == [] {
        forall x | x in front ensures x.key != key {
          OfKeyMembers(front, key, x);
        }
      }
    }
  }

  lemma AcceptedAnchored(trace: seq<Event>, key: ContainerKey)
    requires AnchoredFor(trace, key)
    ensures Anchored(CpuSamples(Accepted(trace, key))) && Anchored(MemSamples(Accepted(trace, key)))
  {
    var es := Accepted(trace, key);
    FirstIsAccepted(trace, key);
    forall i | 0 <= i < |es| ensures es[i] in OfKey(trace, key) {
      AcceptedOfKey(trace, key, es[i]);
    }
  }

  /** Interleaving independence: the same per-pod streams, interleaved in any two ways
      and with any readings repeated, give the same answer for every key and percentile. */
  lemma RecommendIgnoresInterleaving(shs: Shapes, tr: seq<Event>, us: seq<Event>, key: ContainerKey, cp: real, mp: real)
    requires shs.Ok() && AnchoredFor(tr, key) && AnchoredFor(us, key) && SameStreams(tr, us)
    ensures Recommend(shs, Feed(shs, tr), key, cp, mp) == Recommend(shs, Feed(shs, us), key, cp, mp)
  {
    var es, fs := Accepted(tr, key), Accepted(us, key);
    SameReadingsAccepted(tr, us, key);
    SamplesFollowReadings(es, fs);
    AcceptedAnchored(tr, key);
    AcceptedAnchored(us, key);
    assert |es| == |multiset(es)| == |multiset(fs)| == |fs|;
    RecommendReadsAccepted(shs, tr, key, cp, mp);
    RecommendReadsAccepted(shs, us, key, cp, mp);
    PercentileIgnoresOrder(shs.cpu, CpuSamples(es), CpuSamples(fs), cp);
    PercentileIgnoresOrder(shs.mem, MemSamples(es), MemSamples(fs), mp);
  }

  // ---------- Larger readings ----------

  /** Readings of the same containers and pods at the same moments. */
  ghost predicate SameMoments(tr: seq<Event>, us: seq<Event>) {
    && |tr| == |us|
    && forall i :: 0 <= i < |tr| ==> tr[i].key == us[i].key && tr[i].pod == us[i].pod && tr[i].t == us[i].t
  }

  ghost predicate CpuBelow(tr: seq<Event>, us: seq<Event>) {
    |tr| == |us| && forall i :: 0 <= i < |tr| ==> tr[i].cpu <= us[i].cpu
  }

  ghost predicate MemBelow(tr: seq<Event>, us: seq<Event>) {
    |tr| == |us| && forall i :: 0 <= i < |tr| ==> tr[i].mem <= us[i].mem
  }

  lemma SameNews(tr: seq<Event>, us: seq<Event>, key: ContainerKey, pod: string, t: int)
    requires SameMoments(tr, us)
    ensures NewAt(tr, key, pod, t) == NewAt(us, key, pod, t)
  {
    if NewAt(tr, key, pod, t) {
      forall i | 0 <= i < |us| && us[i].key == key && us[i].pod == pod ensures us[i].t < t {
        assert tr[i] in tr;
      }
    }
    if NewAt(us, key, pod, t) {
      forall i | 0 <= i < |tr| && tr[i].key == key && tr[i].pod == pod ensures tr[i].t < t {
        assert us[i] in us;
      }
    }
  }

  lemma {:induction false} AcceptedBelow(tr: seq<Event>, us: seq<Event>, key: ContainerKey)
    requires SameMoments(tr, us)
    ensures SameMoments(Accepted(tr, key), Accepted(us, key))
    ensures CpuBelow(tr, us) ==> CpuBelow(Accepted(tr, key), Accepted(us, key))
    ensures MemBelow(tr, us) ==> MemBelow(Accepted(tr, key), Accepted(us, key))
  {
    if tr != [] {
      var n := |tr| - 1;
      var front, before := tr[..n], us[..n];
      assert SameMoments(front, before);
      AcceptedBelow(front, before, key);
      SameNews(front, before, key, tr[n].pod, tr[n].t);
    }
  }

  lemma CpuMonotone(sh: Shape, es: seq<Event>, fs: seq<Event>, p: real)
    requires sh.Ok() && SameMoments(es, fs) && CpuBelow(es, fs)
    ensures Percentile(sh, HistOf(sh, CpuSamples(es)), p) <= Percentile(sh, HistOf(sh, CpuSamples(fs)), p)
  {
    PercentileMonotone(sh, CpuSamples(es), CpuSamples(fs), p);
  }

  lemma MemMonotone(sh: Shape, es: seq<Event>, fs: seq<Event>, p: real)
    requires sh.Ok() && SameMoments(es, fs) && MemBelow(es, fs)
    ensures Percentile(sh, HistOf(sh, MemSamples(es)), p) <= Percentile(sh, HistOf(sh, MemSamples(fs)), p)
  {
    PercentileMonotone(sh, MemSamples(es), MemSamples(fs), p);
  }

  /** Larger readings of a resource never give a smaller recommendation of it, whatever the
      other resource does, nor lose one. */
  lemma RecommendMonotone(shs: Shapes, tr: seq<Event>, us: seq<Event>, key: ContainerKey, cp: real, mp: real)
    requires shs.Ok() && SameMoments(tr, us)
    ensures var r, s := Recommend(shs, Feed(shs, tr), key, cp, mp), Recommend(shs, Feed(shs, us), key, cp, mp);
            && (r.Some? <==> s.Some?)
            && (r.Some? && CpuBelow(tr, us) ==> r.value.cpuMilli <= s.value.cpuMilli)
            && (r.Some? && MemBelow(tr, us) ==> r.value.memBytes <= s.value.memBytes)
  {
    AcceptedBelow(tr, us, key);
    RecommendReadsAccepted(shs, tr, key, cp, mp);
    RecommendReadsAccepted(shs, us, key, cp, mp);
    if CpuBelow(tr, us) {
      CpuMonotone(shs.cpu, Accepted(tr, key), Accepted(us, key), cp);
    }
    if MemBelow(tr, us) {
      MemMonotone(shs.mem, Accepted(tr, key), Accepted(us, key), mp);
    }
  }
}
