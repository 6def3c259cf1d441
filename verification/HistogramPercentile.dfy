/**
  Histogram::Percentile of bench/util/histogram.cc: when it divides by zero, how near it
  is to the exact rank statistic, and that it grows with the percentage.
*/
module Percentiles {
  import opened Summaries

  // ----- The computation on a summary -----

  /** counts[0] + ... + counts[b - 1] */
  function Prefix(counts: seq<nat>, b: nat): nat
    requires b <= |counts|
  {
    if b == 0 then 0 else Prefix(counts, b - 1) + counts[b - 1]
  }

  /** The first bucket from b on at which the running sum reaches t, or none. */
  function FirstFrom(counts: seq<nat>, t: real, b: nat): (c: nat)
    requires b <= |counts|
    ensures b <= c <= |counts|
    decreases |counts| - b
  {
    if b == |counts| then b
    else if Prefix(counts, b + 1) as real >= t then b
    else FirstFrom(counts, t, b + 1)
  }

  function Threshold(num: real, p: real): real {
    num * (p / 100.0)
  }

  /** Would the interpolation divide by the count of an empty bucket? */
  predicate DividesByZero(counts: seq<nat>, t: real) {
    var b := FirstFrom(counts, t, 0);
    b < |counts| && counts[b] == 0
  }

  function Left(limits: seq<real>, b: nat): real
    requires b < |limits|
  {
    if b == 0 then 0.0 else limits[b - 1]
  }

  /** Linear scaling within bucket b. */
  function Interpolate(limits: seq<real>, counts: seq<nat>, b: nat, t: real): real
    requires b < |limits| == |counts| && counts[b] != 0
  {
    Left(limits, b) + (limits[b] - Left(limits, b)) * ((t - Prefix(counts, b) as real) / counts[b] as real)
  }

  function Clamp(r: real, lo: real, hi: real): real {
    var r' := if r < lo then lo else r;
    if r' > hi then hi else r'
  }

  function Percentile(limits: seq<real>, r: Summary, p: real): real
    requires |limits| == |r.counts| && !DividesByZero(r.counts, Threshold(r.num as real, p))
  {
    var t := Threshold(r.num as real, p);
    var b := FirstFrom(r.counts, t, 0);
    if b == |limits| then r.max else Clamp(Interpolate(limits, r.counts, b, t), r.min, r.max)
  }

  /** A double, as far as rounding is not the point: IEEE 754 has a result for a division
      by zero as well. */
  datatype Double = Finite(value: real) | NegInf | PosInf | NotANumber

  function Quotient(x: real, y: real): Double {
    if y != 0.0 then Finite(x / y)
    else if x < 0.0 then NegInf
    else if x > 0.0 then PosInf
    else NotANumber
  }

  /** left + width * pos */
  function Along(left: real, width: real, pos: Double): Double
    requires width > 0.0
  {
    if pos.Finite? then Finite(left + width * pos.value) else pos
  }

  predicate Below(d: Double, x: real) {
    d.NegInf? || (d.Finite? && d.value < x)
  }

  predicate Above(d: Double, x: real) {
    d.PosInf? || (d.Finite? && d.value > x)
  }

  function ClampDouble(d: Double, lo: real, hi: real): Double {
    var d' := if Below(d, lo) then Finite(lo) else d;
    if Above(d', hi) then Finite(hi) else d'
  }

  /** Linear scaling within bucket b, also when it is empty. */
  function Scaled(limits: seq<real>, counts: seq<nat>, b: nat, t: real): Double
    requires IsTable(limits) && b < |limits| == |counts|
  {
    Along(Left(limits, b), limits[b] - Left(limits, b), Quotient(t - Prefix(counts, b) as real, counts[b] as real))
  }

  /** What the source returns, for every summary and every threshold. */
  function ResultAt(limits: seq<real>, r: Summary, t: real): Double
    requires IsTable(limits) && |limits| == |r.counts|
  {
    var b := FirstFrom(r.counts, t, 0);
    if b == |limits| then Finite(r.max) else ClampDouble(Scaled(limits, r.counts, b, t), r.min, r.max)
  }

  function Result(limits: seq<real>, r: Summary, p: real): Double
    requires IsTable(limits) && |limits| == |r.counts|
  {
    ResultAt(limits, r, Threshold(r.num as real, p))
  }

  // ----- When it divides by zero -----

  lemma {:induction false} FirstMeaning(counts: seq<nat>, t: real, b: nat)
    requires b <= |counts|
    ensures var c := FirstFrom(counts, t, b);
            && (forall i :: b < i <= c ==> Prefix(counts, i) as real < t)
            && (c < |counts| ==> Prefix(counts, c + 1) as real >= t)
    decreases |counts| - b
  {
    if b < |counts| && (Prefix(counts, b + 1) as real) < t {
      FirstMeaning(counts, t, b + 1);
    }
  }

  lemma {:induction false} PrefixGrows(counts: seq<nat>, a: nat, b: nat)
    requires a <= b <= |counts|
    ensures Prefix(counts, a) <= Prefix(counts, b)
  {
    if a < b {
      PrefixGrows(counts, a, b - 1);
    }
  }

  /** A division by zero happens exactly when the threshold is not positive and the first
      bucket is empty: an empty histogram, or a percentage of at most zero. */
  lemma DividesByZeroExactly(counts: seq<nat>, t: real)
    requires |counts| > 0
    ensures DividesByZero(counts, t) <==> t <= 0.0 && counts[0] == 0
  {
    FirstMeaning(counts, t, 0);
    var b := FirstFrom(counts, t, 0);
    assert Prefix(counts, 1) == Prefix(counts, 0) + counts[0];
    if 0 < b < |counts| {
      assert Prefix(counts, b) as real < t <= Prefix(counts, b + 1) as real;
    }
  }

  lemma {:induction false} ScaledMeaning(limits: seq<real>, counts: seq<nat>, b: nat, t: real)
    requires IsTable(limits) && b < |limits| == |counts|
    ensures counts[b] != 0 ==> Scaled(limits, counts, b, t) == Finite(Interpolate(limits, counts, b, t))
    ensures counts[b] == 0 && t < Prefix(counts, b) as real ==> Scaled(limits, counts, b, t).NegInf?
    ensures counts[b] == 0 && t == Prefix(counts, b) as real ==> Scaled(limits, counts, b, t).NotANumber?
  {
  }

  lemma EmptyFirstBucket(limits: seq<real>, r: Summary, t: real)
    requires IsTable(limits) && |limits| == |r.counts| && DividesByZero(r.counts, t)
    ensures t <= 0.0 && r.counts[0] == 0
    ensures t < 0.0 && r.min <= r.max ==> ResultAt(limits, r, t) == Finite(r.min)
    ensures t == 0.0 ==> ResultAt(limits, r, t).NotANumber?
  {
    DividesByZeroExactly(r.counts, t);
    assert FirstFrom(r.counts, t, 0) == 0 by {
      assert Prefix(r.counts, 1) == Prefix(r.counts, 0) + r.counts[0];
    }
    ScaledMeaning(limits, r.counts, 0, t);
  }

  lemma NumberOtherwise(limits: seq<real>, r: Summary, t: real)
    requires IsTable(limits) && |limits| == |r.counts| && !DividesByZero(r.counts, t)
    ensures var b := FirstFrom(r.counts, t, 0);
            ResultAt(limits, r, t) ==
              Finite(if b == |limits| then r.max else Clamp(Interpolate(limits, r.counts, b, t), r.min, r.max))
  {
    var b := FirstFrom(r.counts, t, 0);
    if b < |limits| {
      ScaledMeaning(limits, r.counts, b, t);
    }
  }

  /** What comes out in every case.  Without a division by zero it is the percentile; a
      negative threshold over an empty first bucket is clamped to the smallest sample; and
      the result is no number exactly when the threshold is zero and the first bucket is
      empty, which is 0/0. */
  lemma ResultExactly(limits: seq<real>, s: seq<real>, p: real)
    requires IsTable(limits)
    ensures var r, t := Summarize(limits, s), Threshold(|s| as real, p);
            && r.num == |s|
            && (!DividesByZero(r.counts, t) ==> Result(limits, r, p) == Finite(Percentile(limits, r, p)))
            && (DividesByZero(r.counts, t) && t < 0.0 ==> Result(limits, r, p) == Finite(r.min))
            && (Result(limits, r, p).NotANumber? <==> t == 0.0 && r.counts[0] == 0)
  {
    var r, t := Summarize(limits, s), Threshold(|s| as real, p);
    SummaryBounds(limits, s);
    assert s != [] ==> s[0] in s;
    DividesByZeroExactly(r.counts, t);
    if DividesByZero(r.counts, t) {
      EmptyFirstBucket(limits, r, t);
    } else {
      NumberOtherwise(limits, r, t);
    }
  }

  /** An empty histogram gives 0/0 for every p; ToString asks it for its median. */
  lemma EmptyIsNotANumber(limits: seq<real>, p: real)
    requires IsTable(limits)
    ensures DividesByZero(Summarize(limits, []).counts, Threshold(0.0, p))
    ensures Result(limits, Summarize(limits, []), p).NotANumber?
  {
    DividesByZeroExactly(Summarize(limits, []).counts, Threshold(0.0, p));
    ResultExactly(limits, [], p);
  }

  /** With samples, whatever number comes out lies between the smallest and the largest, and
      only p == 0 over an empty first bucket gives none. */
  lemma ResultInRange(limits: seq<real>, s: seq<real>, p: real)
    requires IsTable(limits) && s != []
    ensures var r := Summarize(limits, s);
            if p == 0.0 && r.counts[0] == 0 then Result(limits, r, p).NotANumber?
            else Result(limits, r, p).Finite? && r.min <= Result(limits, r, p).value <= r.max
  {
    var r, t := Summarize(limits, s), Threshold(|s| as real, p);
    ResultExactly(limits, s, p);
    SummaryBounds(limits, s);
    assert s[0] in s;
    DividesByZeroExactly(r.counts, t);
    assert t == 0.0 <==> p == 0.0;
    if !DividesByZero(r.counts, t) {
      PercentileInRange(limits, s, p);
    }
  }

  // ----- Accuracy -----

  lemma Fraction(w: real, x: real, y: real)
    requires w >= 0.0 && y > 0.0 && 0.0 < x <= y
    ensures 0.0 <= w * (x / y) <= w
  {
    var q := x / y;
    assert q * y == x;
    assert 0.0 <= q <= 1.0;
    assert w * q <= w * 1.0;
  }

  lemma InterpolateBounds(limits: seq<real>, counts: seq<nat>, b: nat, t: real)
    requires b < |limits| == |counts| && Left(limits, b) <= limits[b]
    requires Prefix(counts, b) as real < t <= Prefix(counts, b + 1) as real
    ensures counts[b] != 0
    ensures Left(limits, b) <= Interpolate(limits, counts, b, t) <= limits[b]
  {
    var w, x := limits[b] - Left(limits, b), t - Prefix(counts, b) as real;
    Fraction(w, x, counts[b] as real);
    var f := w * (x / counts[b] as real);
    assert 0.0 <= f <= w;
    assert Interpolate(limits, counts, b, t) == Left(limits, b) + f;
  }

  /** For a positive threshold the interpolation stays in the span of its bucket. */
  lemma InterpolateInSpan(limits: seq<real>, counts: seq<nat>, t: real)
    requires IsTable(limits) && |counts| == |limits| && t > 0.0
    ensures var b := FirstFrom(counts, t, 0);
            b < |limits| ==>
              && Prefix(counts, b) as real < t <= Prefix(counts, b + 1) as real
              && counts[b] != 0
              && Left(limits, b) <= Interpolate(limits, counts, b, t) <= limits[b]
  {
    var b := FirstFrom(counts, t, 0);
    FirstMeaning(counts, t, 0);
    if b < |limits| {
      InterpolateBounds(limits, counts, b, t);
    }
  }

  /** How many samples lie below x, at most at x, and in buckets below b. */
  function CountLess(s: seq<real>, x: real): nat {
    if s == [] then 0 else CountLess(s[..|s| - 1], x) + if s[|s| - 1] < x then 1 else 0
  }

  function CountLeq(s: seq<real>, x: real): nat {
    if s == [] then 0 else CountLeq(s[..|s| - 1], x) + if s[|s| - 1] <= x then 1 else 0
  }

  function CountBelow(limits: seq<real>, s: seq<real>, b: nat): nat
    requires |limits| > 0
  {
    if s == [] then 0
    else CountBelow(limits, s[..|s| - 1], b) + if BucketOf(limits, s[|s| - 1]) < b then 1 else 0
  }

  lemma {:induction false} PrefixUpdate(counts: seq<nat>, i: nat, b: nat)
    requires i < |counts| && b <= |counts|
    ensures Prefix(counts[i := counts[i] + 1], b) == Prefix(counts, b) + if i < b then 1 else 0
    decreases b
  {
    if b > 0 {
      PrefixUpdate(counts, i, b - 1);
    }
  }

  lemma {:induction false} PrefixOfZeros(counts: seq<nat>, b: nat)
    requires b <= |counts| && forall i :: 0 <= i < |counts| ==> counts[i] == 0
    ensures Prefix(counts, b) == 0
  {
    if b > 0 {
      PrefixOfZeros(counts, b - 1);
    }
  }

  /** The running sum of the buckets counts samples. */
  lemma {:induction false} PrefixCounts(limits: seq<real>, s: seq<real>, b: nat)
    requires |limits| > 0 && b <= |limits|
    ensures Prefix(Summarize(limits, s).counts, b) == CountBelow(limits, s, b)
  {
    if s == [] {
      PrefixOfZeros(Empty(limits).counts, b);
    } else {
      var q, x := s[..|s| - 1], s[|s| - 1];
      PrefixCounts(limits, q, b);
      SummarizeAdd(limits, q, x);
      assert s == q + [x];
      PrefixUpdate(Summarize(limits, q).counts, BucketOf(limits, x), b);
    }
  }

  lemma {:induction false} CountsCompare(limits: seq<real>, s: seq<real>, x: real)
    requires IsTable(limits)
    ensures CountBelow(limits, s, BucketOf(limits, x)) <= CountLess(s, x)
    ensures CountLeq(s, x) <= CountBelow(limits, s, BucketOf(limits, x) + 1)
  {
    if s != [] {
      var y := s[|s| - 1];
      CountsCompare(limits, s[..|s| - 1], x);
      if y <= x { BucketMonotone(limits, y, x); } else { BucketMonotone(limits, x, y); }
    }
  }

  /** x is the exact statistic of rank t: fewer than t samples lie below it, at least t do not lie above. */
  ghost predicate HasRank(s: seq<real>, x: real, t: real) {
    x in s && CountLess(s, x) as real < t <= CountLeq(s, x) as real
  }

  /** x is the exact p-th percentile of the samples: less than p percent of them lie below it,
      at least p percent do not lie above. */
  ghost predicate IsPercentile(s: seq<real>, x: real, p: real) {
    x in s && 100.0 * CountLess(s, x) as real < p * |s| as real <= 100.0 * CountLeq(s, x) as real
  }

  lemma ThresholdMeaning(num: real, p: real)
    ensures 100.0 * Threshold(num, p) == p * num
  {
    assert p / 100.0 * 100.0 == p;
  }

  /** The threshold of the source is the rank of the percentile. */
  lemma PercentileHasRank(s: seq<real>, x: real, p: real)
    ensures IsPercentile(s, x, p) <==> HasRank(s, x, Threshold(|s| as real, p))
  {
    ThresholdMeaning(|s| as real, p);
    Hundredfold(CountLess(s, x) as real, CountLeq(s, x) as real, Threshold(|s| as real, p));
  }

  lemma Hundredfold(a: real, b: real, t: real)
    ensures a < t <= b <==> 100.0 * a < 100.0 * t <= 100.0 * b
  {
  }

  /** The bucket that Percentile finds holds the sample of that rank. */
  lemma RankBucket(limits: seq<real>, s: seq<real>, x: real, t: real)
    requires IsTable(limits) && HasRank(s, x, t)
    ensures FirstFrom(Summarize(limits, s).counts, t, 0) == BucketOf(limits, x)
  {
    var counts, b := Summarize(limits, s).counts, BucketOf(limits, x);
    BucketMeaning(limits, x);
    CountsCompare(limits, s, x);
    PrefixCounts(limits, s, b);
    PrefixCounts(limits, s, b + 1);
    FirstMeaning(counts, t, 0);
    var c := FirstFrom(counts, t, 0);
    if c < b {
      PrefixGrows(counts, c + 1, b);
    }
  }

  /** The largest sample below x, if there is one. */
  lemma {:induction false} LargestBelow(s: seq<real>, x: real) returns (y: real)
    requires CountLess(s, x) > 0
    ensures y in s && y < x && CountLeq(s, y) == CountLess(s, x) && CountLess(s, y) < CountLess(s, x)
  {
    var q, z := s[..|s| - 1], s[|s| - 1];
    if CountLess(q, x) == 0 {
      NoneBelow(q, x, z);
      y := z;
    } else {
      y := LargestBelow(q, x);
      if y < z < x {
        SameCounts(q, x, y, z);
        y := z;
      }
    }
    assert s == q + [z];
  }

  /** Nothing lies between y and x, so counting up to z in between gives the same. */
  lemma SameCounts(s: seq<real>, x: real, y: real, z: real)
    requires y < z < x && CountLeq(s, y) == CountLess(s, x)
    ensures CountLess(s, z) == CountLeq(s, z) == CountLess(s, x)
  {
    CountsOrdered(s, y, z);
    CountsOrdered(s, z, x);
  }

  lemma {:induction false} CountsOrdered(s: seq<real>, x: real, y: real)
    requires x < y
    ensures CountLess(s, x) <= CountLeq(s, x) <= CountLess(s, y) <= CountLeq(s, y)
  {
    if s != [] {
      CountsOrdered(s[..|s| - 1], x, y);
    }
  }

  lemma NoneBelow(s: seq<real>, x: real, z: real)
    requires CountLess(s, x) == 0
    ensures z < x ==> CountLess(s, z) == CountLeq(s, z) == 0
  {
    if z < x {
      CountsOrdered(s, z, x);
    }
  }

  /** Every rank is taken by some sample. */
  lemma RankExists(s: seq<real>, t: real) returns (x: real)
    requires 0.0 < t <= |s| as real
    ensures HasRank(s, x, t)
  {
    var top := Largest(s);
    x := RankBelow(s, t, top);
  }

  /** Every percentage has its exact percentile. */
  lemma PercentileExists(s: seq<real>, p: real) returns (x: real)
    requires s != [] && 0.0 < p <= 100.0
    ensures IsPercentile(s, x, p)
  {
    ThresholdGrows(|s| as real, p, p);
    x := RankExists(s, Threshold(|s| as real, p));
    PercentileHasRank(s, x, p);
  }

  lemma {:induction false} Largest(s: seq<real>) returns (x: real)
    requires s != []
    ensures x in s && CountLeq(s, x) == |s|
  {
    var q, z := s[..|s| - 1], s[|s| - 1];
    assert s == q + [z];
    if q == [] {
      x := z;
    } else {
      x := Largest(q);
      if x < z {
        CountsOrdered(q, x, z);
        CountLeqBound(q, z);
        x := z;
      }
    }
  }

  lemma {:induction false} CountLeqBound(s: seq<real>, x: real)
    ensures CountLeq(s, x) <= |s|
  {
    if s != [] {
      CountLeqBound(s[..|s| - 1], x);
    }
  }

  lemma {:induction false} RankBelow(s: seq<real>, t: real, x: real) returns (y: real)
    requires 0.0 < t && x in s && t <= CountLeq(s, x) as real
    ensures HasRank(s, y, t)
    decreases CountLess(s, x)
  {
    if (CountLess(s, x) as real) < t {
      y := x;
    } else {
      var z := LargestBelow(s, x);
      y := RankBelow(s, t, z);
    }
  }

  // ----- The main results -----

  lemma ThresholdGrows(num: real, p: real, q: real)
    requires num > 0.0 && p <= q
    ensures Threshold(num, p) <= Threshold(num, q)
    ensures p > 0.0 ==> Threshold(num, p) > 0.0
    ensures p <= 0.0 ==> Threshold(num, p) <= 0.0
    ensures p <= 100.0 ==> Threshold(num, p) <= num
  {
    var a, b := p / 100.0, q / 100.0;
    assert a <= b;
    assert num * a <= num * b;
    assert a > 0.0 ==> num * a > 0.0;
    assert a <= 0.0 ==> num * a <= 0.0;
    assert a <= 1.0 ==> num * a <= num * 1.0;
  }

  /** The result always lies between the smallest and the largest sample. */
  lemma PercentileInRange(limits: seq<real>, s: seq<real>, p: real)
    requires IsTable(limits) && s != []
    requires !DividesByZero(Summarize(limits, s).counts, Threshold(Summarize(limits, s).num as real, p))
    ensures var r := Summarize(limits, s);
            r.min <= Percentile(limits, r, p) <= r.max
  {
    SummaryBounds(limits, s);
    assert s[0] in s;
  }

  /** For samples in the range of the table and 0 < p <= 100: no division by zero, and the
      result lies in the closed span of the bucket that holds the exact percentile x, so
      that its error is at most that bucket's width. */
  lemma PercentileAccuracy(limits: seq<real>, s: seq<real>, p: real, x: real)
    requires IsTable(limits) && 0.0 < p <= 100.0
    requires forall i :: 0 <= i < |s| ==> 0.0 <= s[i] < limits[|limits| - 1]
    requires IsPercentile(s, x, p)
    ensures var r, b := Summarize(limits, s), BucketOf(limits, x);
            && b < |limits|
            && r.num == |s|
            && !DividesByZero(r.counts, Threshold(r.num as real, p))
            && var left := if b == 0 then 0.0 else limits[b - 1];
            && left <= x <= limits[b]
            && left <= Percentile(limits, r, p) <= limits[b]
            && x - (limits[b] - left) <= Percentile(limits, r, p) <= x + (limits[b] - left)
  {
    var r, b := Summarize(limits, s), BucketOf(limits, x);
    var t := Threshold(|s| as real, p);
    SummaryBounds(limits, s);
    ThresholdGrows(|s| as real, p, p);
    DividesByZeroExactly(r.counts, t);
    BucketMeaning(limits, x);
    PercentileHasRank(s, x, p);
    RankBucket(limits, s, x, t);
    InterpolateInSpan(limits, r.counts, t);
    ClampInSpan(Interpolate(limits, r.counts, b, t), r.min, r.max, Left(limits, b), limits[b], x);
  }

  /** Within a bucket the value moves in proportion to the threshold, from the left limit at
      the running sum before the bucket to the right limit at the running sum after it. */
  lemma {:induction false} InterpolateIsLinear(limits: seq<real>, counts: seq<nat>, b: nat, t: real)
    requires b < |limits| == |counts| && counts[b] != 0
    ensures var left := if b == 0 then 0.0 else limits[b - 1];
            && (Interpolate(limits, counts, b, t) - left) * counts[b] as real
               == (limits[b] - left) * (t - Prefix(counts, b) as real)
            && Interpolate(limits, counts, b, Prefix(counts, b) as real) == left
            && Interpolate(limits, counts, b, Prefix(counts, b + 1) as real) == limits[b]
  {
    var w, y := limits[b] - Left(limits, b), counts[b] as real;
    OnLine(w, t - Prefix(counts, b) as real, y);
    OnLine(w, 0.0, y);
    OnLine(w, y, y);
    assert Prefix(counts, b + 1) as real - Prefix(counts, b) as real == y;
  }

  lemma OnLine(w: real, x: real, y: real)
    requires y != 0.0
    ensures w * (x / y) * y == w * x
    ensures x == 0.0 ==> w * (x / y) == 0.0
    ensures x == y ==> w * (x / y) == w
  {
    assert x / y * y == x;
    assert w * (x / y) * y == w * (x / y * y);
  }

  /** The result exactly: on the line through the bucket of the exact percentile, at p percent
      of the samples, brought into [min_, max_]. */
  lemma PercentileOnLine(limits: seq<real>, s: seq<real>, p: real, x: real, t: real)
    requires IsTable(limits) && 0.0 < p <= 100.0 && IsPercentile(s, x, p) && 100.0 * t == p * |s| as real
    ensures var r, b := Summarize(limits, s), BucketOf(limits, x);
            && b < |limits| && r.counts[b] != 0
            && r.num == |s| && !DividesByZero(r.counts, Threshold(r.num as real, p))
            && var i := Interpolate(limits, r.counts, b, t);
            Percentile(limits, r, p) == if i < r.min then r.min else if i > r.max then r.max else i
  {
    var r, b := Summarize(limits, s), BucketOf(limits, x);
    ThresholdMeaning(|s| as real, p);
    assert t == Threshold(|s| as real, p);
    BucketOfPercentile(limits, s, p, x);
    SummaryBounds(limits, s);
    ClampIsNearest(Interpolate(limits, r.counts, b, t), r.min, r.max, x);
  }

  lemma ClampIsNearest(i: real, lo: real, hi: real, x: real)
    requires lo <= x <= hi
    ensures Clamp(i, lo, hi) == if i < lo then lo else if i > hi then hi else i
  {
  }

  lemma BucketOfPercentile(limits: seq<real>, s: seq<real>, p: real, x: real)
    requires IsTable(limits) && 0.0 < p <= 100.0 && IsPercentile(s, x, p)
    ensures var counts, b := Summarize(limits, s).counts, BucketOf(limits, x);
            && FirstFrom(counts, Threshold(|s| as real, p), 0) == b < |limits|
            && counts[b] != 0
            && !DividesByZero(counts, Threshold(|s| as real, p))
  {
    var t := Threshold(|s| as real, p);
    ThresholdGrows(|s| as real, p, p);
    DividesByZeroExactly(Summarize(limits, s).counts, t);
    BucketMeaning(limits, x);
    PercentileHasRank(s, x, p);
    RankBucket(limits, s, x, t);
  }

  lemma ClampInSpan(i: real, lo: real, hi: real, left: real, right: real, x: real)
    requires left <= i <= right && left <= x <= right && lo <= x <= hi
    ensures left <= Clamp(i, lo, hi) <= right
  {
  }

  lemma {:induction false} CountAll(limits: seq<real>, s: seq<real>)
    requires |limits| > 0
    ensures CountBelow(limits, s, |limits|) == |s|
  {
    if s != [] {
      CountAll(limits, s[..|s| - 1]);
      BucketMeaning(limits, s[|s| - 1]);
    }
  }

  /** The buckets add up to num_. */
  lemma BucketsSumToNum(limits: seq<real>, s: seq<real>)
    requires |limits| > 0
    ensures Prefix(Summarize(limits, s).counts, |limits|) == Summarize(limits, s).num == |s|
  {
    PrefixCounts(limits, s, |limits|);
    CountAll(limits, s);
    SummaryBounds(limits, s);
  }

  /** The result grows with the percentage. */
  lemma PercentileMonotone(limits: seq<real>, s: seq<real>, p: real, q: real)
    requires IsTable(limits) && s != [] && 0.0 < p <= q
    ensures var r := Summarize(limits, s);
            && !DividesByZero(r.counts, Threshold(r.num as real, p))
            && !DividesByZero(r.counts, Threshold(r.num as real, q))
            && Percentile(limits, r, p) <= Percentile(limits, r, q)
  {
    var r := Summarize(limits, s);
    SummaryBounds(limits, s);
    var t, u := Threshold(r.num as real, p), Threshold(r.num as real, q);
    ThresholdGrows(r.num as real, p, q);
    ThresholdGrows(r.num as real, q, q);
    DividesByZeroExactly(r.counts, t);
    DividesByZeroExactly(r.counts, u);
    PercentileInRange(limits, s, p);
    if FirstFrom(r.counts, u, 0) < |limits| {
      InterpolateGrows(limits, r.counts, t, u);
    } else {
      FirstGrows(r.counts, t, u);
    }
  }

  lemma FirstGrows(counts: seq<nat>, t: real, u: real)
    requires t <= u
    ensures FirstFrom(counts, t, 0) <= FirstFrom(counts, u, 0)
  {
    FirstMeaning(counts, t, 0);
    FirstMeaning(counts, u, 0);
  }

  lemma InterpolateGrows(limits: seq<real>, counts: seq<nat>, t: real, u: real)
    requires IsTable(limits) && |counts| == |limits| && 0.0 < t <= u && FirstFrom(counts, u, 0) < |limits|
    ensures var b, c := FirstFrom(counts, t, 0), FirstFrom(counts, u, 0);
            && b < |limits| && counts[b] != 0 && counts[c] != 0
            && Interpolate(limits, counts, b, t) <= Interpolate(limits, counts, c, u)
  {
    var b, c := FirstFrom(counts, t, 0), FirstFrom(counts, u, 0);
    FirstGrows(counts, t, u);
    InterpolateInSpan(limits, counts, t);
    InterpolateInSpan(limits, counts, u);
    if b == c {
      SameBucketGrows(limits, counts, b, t, u);
    }
  }

  lemma SameBucketGrows(limits: seq<real>, counts: seq<nat>, b: nat, t: real, u: real)
    requires b < |limits| == |counts| && counts[b] != 0 && t <= u && Left(limits, b) <= limits[b]
    ensures Interpolate(limits, counts, b, t) <= Interpolate(limits, counts, b, u)
  {
    var w, y := limits[b] - Left(limits, b), counts[b] as real;
    FractionGrows(w, t - Prefix(counts, b) as real, u - Prefix(counts, b) as real, y);
  }

  lemma FractionGrows(w: real, x: real, z: real, y: real)
    requires w >= 0.0 && y > 0.0 && x <= z
    ensures w * (x / y) <= w * (z / y)
  {
    assert x / y <= z / y;
  }
}
