/**
  The latency histogram of bench/util/histogram.cc: Clear, Add and Merge keep its fields
  equal to the summary of the samples; Percentile and StandardDeviation read them.
*/
module Histogram {
  import opened Summaries
  import opened Percentiles

  class Histogram {
    const limits: seq<real>
    const buckets: array<real>
    var min: real
    var max: real
    var num: real
    var sum: real
    var sumSquares: real
    ghost var samples: seq<real>     // everything added since the last Clear

    /** The fields hold the summary `r`. */
    ghost predicate Shows(r: Summary)
      reads this, buckets
    {
      && |limits| > 0 && buckets.Length == |limits| == |r.counts|
      && min == r.min && max == r.max && num == r.num as real && sum == r.sum && sumSquares == r.sumSquares
      && forall b :: 0 <= b < |limits| ==> buckets[b] == r.counts[b] as real
    }

    ghost predicate Valid()
      reads this, buckets
    {
      IsTable(limits) && Shows(Summarize(limits, samples))
    }

    constructor ()
      ensures Valid() && samples == [] && fresh(buckets)
      ensures limits == BucketLimits() && |limits| == 154
    {
      TableIsOrdered(9, 200);
      limits := BucketLimits();
      buckets := new real[|BucketLimits()|];
      new;
      Clear();
    }

    method Clear()
      requires IsTable(limits) && buckets.Length == |limits|
      modifies this, buckets
      ensures Valid() && samples == []
    {
      min, max, num, sum, sumSquares := limits[|limits| - 1], 0.0, 0.0, 0.0, 0.0;
      for i := 0 to |limits|
        invariant forall b :: 0 <= b < i ==> buckets[b] == 0.0
        modifies buckets
      {
        buckets[i] := 0.0;
      }
      samples := [];
    }

    method Add(value: real)
      requires Valid()
      modifies this, buckets
      ensures Valid() && samples == old(samples) + [value]
    {
      SummarizeAdd(limits, samples, value);
      Record(value, Summarize(limits, samples));
      samples := samples + [value];
    }

    /** The body of Add, on any summary. */
    method Record(value: real, ghost r: Summary)
      requires Shows(r)
      modifies this`min, this`max, this`num, this`sum, this`sumSquares, buckets
      ensures BucketOf(limits, value) < |r.counts| && Shows(Added(limits, r, value))
    {
      var b := 0;
      while b < |limits| - 1 && limits[b] <= value
        invariant b < |limits| && BucketFrom(limits, b, value) == BucketOf(limits, value)
      {
        b := b + 1;
      }
      buckets[b] := buckets[b] + 1.0;
      if min > value { min := value; }
      if max < value { max := value; }
      num := num + 1.0;
      sum := sum + value;
      sumSquares := sumSquares + value * value;
    }

    /** Also right when a histogram is merged into itself. */
    method Merge(other: Histogram)
      requires Valid() && other.Valid() && other.limits == limits
      requires other == this || other.buckets != buckets
      modifies this, buckets
      ensures Valid() && samples == old(samples) + old(other.samples)
    {
      SummarizeConcat(limits, samples, other.samples);
      Absorb(other, Summarize(limits, samples), Summarize(limits, other.samples));
      samples := samples + other.samples;
    }

    /** The body of Merge, on any summaries. */
    method Absorb(other: Histogram, ghost r: Summary, ghost q: Summary)
      requires Shows(r) && other.Shows(q) && other.limits == limits
      requires other == this || other.buckets != buckets
      modifies this`min, this`max, this`num, this`sum, this`sumSquares, buckets
      ensures Shows(Combine(r, q))
    {
      if other.min < min { min := other.min; }
      if other.max > max { max := other.max; }
      num := num + other.num;
      sum := sum + other.sum;
      sumSquares := sumSquares + other.sumSquares;
      for b := 0 to |limits|
        invariant forall i :: 0 <= i < b ==> buckets[i] == (r.counts[i] + q.counts[i]) as real
        invariant forall i :: b <= i < |limits| ==> buckets[i] == r.counts[i] as real
        invariant forall i :: b <= i < |limits| ==> other.buckets[i] == q.counts[i] as real
        modifies buckets
      {
        buckets[b] := buckets[b] + other.buckets[b];
      }
    }

    /** ResultExactly says what this is, also where the source divides by zero. */
    method Percentile(p: real) returns (r: Double)
      requires Valid()
      ensures r == Result(limits, Summarize(limits, samples), p)
    {
      ghost var counts := Summarize(limits, samples).counts;
      var threshold := Threshold(num, p);
      var total := 0.0;
      for b := 0 to |limits|
        invariant total == Prefix(counts, b) as real
        invariant FirstFrom(counts, threshold, b) == FirstFrom(counts, threshold, 0)
      {
        total := total + buckets[b];
        if total >= threshold {
          assert b == FirstFrom(counts, threshold, 0);
          r := Scaled(b, threshold, total, counts);
          if Below(r, min) { r := Finite(min); }
          if Above(r, max) { r := Finite(max); }
          return;
        }
      }
      r := Finite(max);
    }

    /** Scale linearly within bucket b, where the running sum is `total`. */
    method Scaled(b: nat, threshold: real, total: real, ghost counts: seq<nat>) returns (r: Double)
      requires IsTable(limits) && b < |limits| == |counts| == buckets.Length
      requires buckets[b] == counts[b] as real && total == Prefix(counts, b + 1) as real
      ensures r == Percentiles.Scaled(limits, counts, b, threshold)
    {
      var left := if b == 0 then 0.0 else limits[b - 1];
      var right := limits[b];
      var leftSum := total - buckets[b];
      assert leftSum == Prefix(counts, b) as real;
      assert total - leftSum == counts[b] as real;
      var pos := Quotient(threshold - leftSum, total - leftSum);
      r := Along(left, right - left, pos);
    }

    /** The argument that StandardDeviation passes to sqrt; 0 for an empty histogram. */
    method VarianceOfSamples() returns (variance: real)
      requires Valid()
      ensures variance >= 0.0
      ensures samples == [] ==> variance == 0.0
      ensures samples != [] ==> variance == Deviation(samples, SumOf(samples) / |samples| as real) / |samples| as real
    {
      SummaryBounds(limits, samples);
      SummarySums(limits, samples);
      if num == 0.0 {
        return 0.0;
      }
      SampleVariance(samples);
      variance := Variance(num, sum, sumSquares);
    }
  }
}
