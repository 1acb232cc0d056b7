/** The histogram as the code keeps it: a buffer of bucket weights, a total and a
    reference time, all updated in place. */
module DecayingHistograms {
  import opened Exponentials
  import H = Histogram

  class DecayingHistogram {
    const shape: H.Shape
    const weights: array<real>
    var totalWeight: real
    var refTime: int

    ghost predicate Valid() {
      weights.Length == shape.count
    }

    function View(): H.Hist
      reads this, weights
    {
      H.Hist(weights[..], totalWeight, refTime)
    }

    constructor (shape: H.Shape)
      requires shape.Ok()
      ensures Valid() && fresh(weights)
      ensures this.shape == shape && View() == H.Empty(shape)
    {
      this.shape := shape;
      this.weights := new real[shape.count](i => 0.0);
      totalWeight := 0.0;
      refTime := 0;
    }

    method Rescale(now: int)
      requires shape.Ok() && Valid()
      modifies this, weights
      ensures View() == H.Rescale(shape, old(View()), now)
    {
      var factor := shape.weigh(now - refTime);
      for i := 0 to weights.Length
        modifies weights
        invariant forall j :: 0 <= j < i ==> weights[j] == old(weights[j]) / factor
        invariant forall j :: i <= j < weights.Length ==> weights[j] == old(weights[j])
      {
        weights[i] := weights[i] / factor;
      }
      totalWeight := totalWeight / factor;
      refTime := now;
    }

    method Observe(value: real, t: int)
      requires shape.Ok() && Valid()
      modifies this, weights
      ensures View() == H.Observe(shape, old(View()), value, t)
    {
      if refTime == 0 {
        refTime := t;
      }
      var weight := shape.weigh(t - refTime);
      if weight > H.MAX_WEIGHT {
        Rescale(t);
        weight := 1.0;
      }
      var b := H.BucketFor(shape, value);
      weights[b] := weights[b] + weight;
      totalWeight := totalWeight + weight;
    }

    method Percentile(p: real) returns (r: real)
      requires shape.Ok() && Valid()
      ensures r == H.Percentile(shape, View(), p)
    {
      if totalWeight < 0.000000001 {
        return 0.0;
      }
      var threshold := Times(p, totalWeight);
      var cumulative := 0.0;
      for i := 0 to weights.Length
        invariant cumulative == Prefix(weights[..], i)
        invariant i < weights.Length ==> H.Scan(weights[..], threshold, i) == H.Scan(weights[..], threshold, 0)
        invariant i == weights.Length ==> H.Scan(weights[..], threshold, 0) == weights.Length - 1
      {
        cumulative := cumulative + weights[i];
        if cumulative >= threshold {
          return shape.bound(i);
        }
      }
      return shape.bound(weights.Length - 1);
    }
  }
}
