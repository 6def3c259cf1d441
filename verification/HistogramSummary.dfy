/**
  What the fields of bench/util/histogram.cc mean, over real numbers.

  They summarise the samples added so far.  Summaries form a commutative monoid, so the
  fields depend only on the multiset of samples, whatever the tree of merges.
*/
module Summaries {

  // ----- Bucket limits -----

  function Pow10(k: nat): real {
    if k == 0 then 1.0 else 10.0 * Pow10(k - 1)
  }

  /** The pattern of one decade of kBucketLimit. */
  function Mantissas(): seq<real> {
    [1.0, 1.2, 1.4, 1.6, 1.8, 2.0, 2.5, 3.0, 3.5, 4.0, 4.5, 5.0, 6.0, 7.0, 8.0, 9.0]
  }

  function Scale(s: seq<real>, u: real): seq<real> {
    if s == [] then [] else Scale(s[..|s| - 1], u) + [s[|s| - 1] * u]
  }

  /** One decade, from u to 9u. */
  function Decade(u: real): seq<real> {
    Scale(Mantissas(), u)
  }

  /** The decades from 10^j on. */
  function Decades(j: nat, n: nat): seq<real>
    decreases n
  {
    if n == 0 then [] else Decade(Pow10(j)) + Decades(j + 1, n - 1)
  }

  /** The shape of kBucketLimit: 1 to 9, n decades from 10 on, and a last limit. */
  function LimitTable(n: nat, last: nat): seq<real> {
    [1.0, 2.0, 3.0, 4.0, 5.0, 6.0, 7.0, 8.0, 9.0] + Decades(1, n) + [Pow10(last)]
  }

  /** kBucketLimit itself: nine decades, up to 9e9, and 1e200. */
  function BucketLimits(): seq<real> {
    LimitTable(9, 200)
  }

  ghost predicate Increasing(s: seq<real>) {
    forall i, j :: 0 <= i < j < |s| ==> s[i] < s[j]
  }

  /** What the algorithms need of a table of limits. */
  ghost predicate IsTable(limits: seq<real>) {
    |limits| > 0 && Increasing(limits) && limits[0] > 0.0
  }

  ghost predicate Within(s: seq<real>, lo: real, hi: real) {
    forall i :: 0 <= i < |s| ==> lo <= s[i] < hi
  }

  lemma IncreasingConcat(a: seq<real>, b: seq<real>, lo: real, mid: real, hi: real)
    requires Increasing(a) && Increasing(b) && Within(a, lo, mid) && Within(b, mid, hi) && lo <= mid <= hi
    ensures Increasing(a + b) && Within(a + b, lo, hi)
  {
  }

  lemma {:induction false} Pow10Grows(j: nat, k: nat)
    requires j <= k
    ensures 1.0 <= Pow10(j) <= Pow10(k)
  {
    if k > 0 {
      Pow10Grows(if j == 0 then 0 else j - 1, k - 1);
    }
  }

  lemma DecadeIncreasing(u: real)
    requires u > 0.0
    ensures |Decade(u)| == 16 && Increasing(Decade(u)) && Within(Decade(u), u, 10.0 * u)
  {
    ScaleAt(Mantissas(), u);
    var m := Mantissas();
    forall i, j | 0 <= i < j < 16 ensures Decade(u)[i] < Decade(u)[j] {
      ProductGrows(m[i], m[j], u);
    }
    forall i | 0 <= i < 16 ensures u <= Decade(u)[i] < 10.0 * u {
      ProductGrows(1.0, m[i], u);
      ProductGrows(m[i], 10.0, u);
    }
  }

  lemma ProductGrows(a: real, b: real, u: real)
    requires u > 0.0 && a <= b
    ensures a * u <= b * u && (a < b ==> a * u < b * u)
  {
  }

  lemma {:induction false} ScaleAt(s: seq<real>, u: real)
    ensures |Scale(s, u)| == |s| && forall i :: 0 <= i < |s| ==> Scale(s, u)[i] == s[i] * u
  {
    if s != [] {
      ScaleAt(s[..|s| - 1], u);
    }
  }

  lemma {:induction false} DecadesIncreasing(j: nat, n: nat)
    ensures |Decades(j, n)| == 16 * n && Increasing(Decades(j, n))
    ensures Within(Decades(j, n), Pow10(j), Pow10(j + n))
    decreases n
  {
    if n > 0 {
      DecadesIncreasing(j + 1, n - 1);
      Pow10Grows(j, j + 1);
      Pow10Grows(j + 1, j + n);
      DecadeIncreasing(Pow10(j));
      IncreasingConcat(Decade(Pow10(j)), Decades(j + 1, n - 1), Pow10(j), Pow10(j + 1), Pow10(j + n));
    }
  }

  lemma TableIsOrdered(n: nat, last: nat)
    requires n < last
    ensures |LimitTable(n, last)| == 16 * n + 10 && IsTable(LimitTable(n, last))
  {
    var units := [1.0, 2.0, 3.0, 4.0, 5.0, 6.0, 7.0, 8.0, 9.0];
    DecadesIncreasing(1, n);
    Pow10Grows(1, n + 1);
    Pow10Grows(n + 1, last);
    assert Pow10(1) == 10.0;
    IncreasingConcat(units, Decades(1, n), 1.0, Pow10(1), Pow10(n + 1));
    IncreasingConcat(units + Decades(1, n), [Pow10(last)], 1.0, Pow10(n + 1), Pow10(last) + 1.0);
  }

  lemma DecadeTenfold(u: real)
    ensures |Decade(u)| == |Decade(10.0 * u)| == 16
    ensures forall i :: 0 <= i < 16 ==> Decade(10.0 * u)[i] == 10.0 * Decade(u)[i]
  {
    ScaleAt(Mantissas(), u);
    ScaleAt(Mantissas(), 10.0 * u);
    forall i | 0 <= i < 16 ensures Decade(10.0 * u)[i] == 10.0 * Decade(u)[i] {
      Tenfold(Mantissas()[i], u);
    }
  }

  lemma Tenfold(m: real, u: real)
    ensures m * (10.0 * u) == 10.0 * (m * u)
  {
  }

  lemma {:induction false} DecadesTenfold(j: nat, n: nat)
    ensures |Decades(j, n)| == 16 * n
    ensures forall i :: 0 <= i && i + 16 < 16 * n ==> Decades(j, n)[i + 16] == 10.0 * Decades(j, n)[i]
    decreases n
  {
    if n > 0 {
      DecadesTenfold(j + 1, n - 1);
      DecadeTenfold(Pow10(j));
      var tail := Decades(j + 1, n - 1);
      forall i | 0 <= i && i + 16 < 16 * n ensures Decades(j, n)[i + 16] == 10.0 * Decades(j, n)[i] {
        assert Decades(j, n)[i + 16] == tail[i];
        if i < 16 {
          assert tail[i] == Decade(Pow10(j + 1))[i] && Decades(j, n)[i] == Decade(Pow10(j))[i];
        } else {
          assert Decades(j, n)[i] == tail[i - 16];
        }
      }
    }
  }

  /** The limits one by one: 1 to 9, one decade from 10 to 90, every later limit ten times the
      one sixteen places before it, and the last one. */
  lemma TableValues(n: nat, last: nat)
    requires n > 0
    ensures |LimitTable(n, last)| == 16 * n + 10
    ensures LimitTable(n, last)[..9] == [1.0, 2.0, 3.0, 4.0, 5.0, 6.0, 7.0, 8.0, 9.0]
    ensures LimitTable(n, last)[9..25] ==
              [10.0, 12.0, 14.0, 16.0, 18.0, 20.0, 25.0, 30.0, 35.0, 40.0, 45.0, 50.0, 60.0, 70.0, 80.0, 90.0]
    ensures forall i :: 9 <= i < 16 * n - 7 ==> LimitTable(n, last)[i + 16] == 10.0 * LimitTable(n, last)[i]
    ensures LimitTable(n, last)[16 * n + 9] == Pow10(last)
  {
    var t, ds := LimitTable(n, last), Decades(1, n);
    DecadesTenfold(1, n);
    assert t[9..25] == ds[..16];
    FirstDecade(n);
    forall i | 9 <= i < 16 * n - 7 ensures t[i + 16] == 10.0 * t[i] {
      assert t[i + 16] == ds[i - 9 + 16] && t[i] == ds[i - 9];
    }
  }

  lemma FirstDecade(n: nat)
    requires n > 0 && |Decades(1, n)| == 16 * n
    ensures Decades(1, n)[..16] ==
              [10.0, 12.0, 14.0, 16.0, 18.0, 20.0, 25.0, 30.0, 35.0, 40.0, 45.0, 50.0, 60.0, 70.0, 80.0, 90.0]
  {
    ScaleAt(Mantissas(), Pow10(1));
    assert Pow10(1) == 10.0 * Pow10(0);
    assert Decades(1, n)[..16] == Decade(Pow10(1));
  }

  // ----- Summaries of samples -----

  /** The first bucket whose limit exceeds x, or the last one. */
  function BucketFrom(limits: seq<real>, b: nat, x: real): nat
    requires b < |limits|
    decreases |limits| - b
  {
    if b < |limits| - 1 && limits[b] <= x then BucketFrom(limits, b + 1, x) else b
  }

  function BucketOf(limits: seq<real>, x: real): nat
    requires |limits| > 0
  {
    BucketFrom(limits, 0, x)
  }

  lemma {:induction false} BucketFromMeaning(limits: seq<real>, b: nat, x: real)
    requires b < |limits|
    ensures var c := BucketFrom(limits, b, x);
            && b <= c < |limits|
            && (forall i :: b <= i < c ==> limits[i] <= x)
            && (c < |limits| - 1 ==> x < limits[c])
    decreases |limits| - b
  {
    if b < |limits| - 1 && limits[b] <= x {
      BucketFromMeaning(limits, b + 1, x);
    }
  }

  /** A sample in the range of the table lies in the span of its bucket. */
  lemma BucketMeaning(limits: seq<real>, x: real)
    requires |limits| > 0
    ensures var b := BucketOf(limits, x);
            && b < |limits|
            && (b > 0 ==> limits[b - 1] <= x)
            && (x < limits[|limits| - 1] ==> x < limits[b])
  {
    BucketFromMeaning(limits, 0, x);
  }

  lemma BucketMonotone(limits: seq<real>, x: real, y: real)
    requires IsTable(limits) && x <= y
    ensures BucketOf(limits, x) <= BucketOf(limits, y)
  {
    BucketFromMeaning(limits, 0, x);
    BucketFromMeaning(limits, 0, y);
  }

  /** What the fields hold: the counts are the buckets_. */
  datatype Summary = Summary(min: real, max: real, num: nat, sum: real, sumSquares: real, counts: seq<nat>)

  function RealMin(a: real, b: real): real {
    if a < b then a else b
  }

  function RealMax(a: real, b: real): real {
    if a > b then a else b
  }

  function Empty(limits: seq<real>): Summary
    requires |limits| > 0
  {
    Summary(limits[|limits| - 1], 0.0, 0, 0.0, 0.0, seq(|limits|, i => 0))
  }

  function Single(limits: seq<real>, x: real): Summary
    requires |limits| > 0
  {
    Summary(RealMin(limits[|limits| - 1], x), RealMax(0.0, x), 1, x, x * x,
            seq(|limits|, i => if i == BucketOf(limits, x) then 1 else 0))
  }

  function Combine(a: Summary, b: Summary): Summary
    requires |a.counts| == |b.counts|
  {
    Summary(RealMin(a.min, b.min), RealMax(a.max, b.max), a.num + b.num, a.sum + b.sum, a.sumSquares + b.sumSquares,
            seq(|a.counts|, i requires 0 <= i < |a.counts| => a.counts[i] + b.counts[i]))
  }

  /** The summary of a sequence of samples. */
  function Summarize(limits: seq<real>, s: seq<real>): (r: Summary)
    requires |limits| > 0
    ensures |r.counts| == |limits| && r.min <= limits[|limits| - 1] && r.max >= 0.0
  {
    if s == [] then Empty(limits)
    else Combine(Summarize(limits, s[..|s| - 1]), Single(limits, s[|s| - 1]))
  }

  /** What Add does to the fields. */
  function Added(limits: seq<real>, r: Summary, x: real): Summary
    requires |limits| > 0 && BucketOf(limits, x) < |r.counts|
  {
    var b := BucketOf(limits, x);
    Summary(RealMin(r.min, x), RealMax(r.max, x), r.num + 1, r.sum + x, r.sumSquares + x * x,
            r.counts[b := r.counts[b] + 1])
  }

  lemma SummarizeAdd(limits: seq<real>, s: seq<real>, x: real)
    requires |limits| > 0
    ensures BucketOf(limits, x) < |limits|
    ensures Summarize(limits, s + [x]) == Added(limits, Summarize(limits, s), x)
  {
    var r := Summarize(limits, s);
    CombineSingle(limits, r, x);
    assert Summarize(limits, s + [x]) == Combine(r, Single(limits, x)) by {
      assert (s + [x])[..|s|] == s;
    }
  }

  lemma CombineSingle(limits: seq<real>, r: Summary, x: real)
    requires |limits| > 0 && |r.counts| == |limits| && r.min <= limits[|limits| - 1] && r.max >= 0.0
    ensures BucketOf(limits, x) < |limits| && Combine(r, Single(limits, x)) == Added(limits, r, x)
  {
    BucketMeaning(limits, x);
    var b, c := BucketOf(limits, x), Combine(r, Single(limits, x)).counts;
    forall i | 0 <= i < |limits| ensures c[i] == r.counts[b := r.counts[b] + 1][i] {
      assert Single(limits, x).counts[i] == if i == b then 1 else 0;
    }
    assert c == r.counts[b := r.counts[b] + 1];
  }

  lemma CombineCommutes(a: Summary, b: Summary)
    requires |a.counts| == |b.counts|
    ensures Combine(a, b) == Combine(b, a)
  {
    assert Combine(a, b).counts == Combine(b, a).counts;
  }

  lemma CombineAssociates(a: Summary, b: Summary, c: Summary)
    requires |a.counts| == |b.counts| == |c.counts|
    ensures Combine(Combine(a, b), c) == Combine(a, Combine(b, c))
  {
    assert Combine(Combine(a, b), c).counts == Combine(a, Combine(b, c)).counts;
  }

  lemma CombineEmpty(limits: seq<real>, a: Summary)
    requires |limits| > 0 && |a.counts| == |limits| && a.min <= limits[|limits| - 1] && a.max >= 0.0
    ensures Combine(a, Empty(limits)) == a
  {
    assert Combine(a, Empty(limits)).counts == a.counts;
  }

  /** Merge is the summary of all the samples together. */
  lemma {:induction false} SummarizeConcat(limits: seq<real>, s: seq<real>, t: seq<real>)
    requires |limits| > 0
    ensures Summarize(limits, s + t) == Combine(Summarize(limits, s), Summarize(limits, t))
    decreases |t|
  {
    if t == [] {
      assert s + t == s;
      CombineEmpty(limits, Summarize(limits, s));
    } else {
      var k := |t| - 1;
      assert (s + t)[..|s + t| - 1] == s + t[..k];
      SummarizeConcat(limits, s, t[..k]);
      CombineAssociates(Summarize(limits, s), Summarize(limits, t[..k]), Single(limits, t[k]));
    }
  }

  /** The summary depends only on which samples there are, not on their order. */
  lemma {:induction false} SummarizePermutation(limits: seq<real>, s: seq<real>, t: seq<real>)
    requires |limits| > 0 && multiset(s) == multiset(t)
    ensures Summarize(limits, s) == Summarize(limits, t)
    decreases |s|
  {
    assert |s| == |multiset(s)| == |multiset(t)| == |t|;
    if s != [] {
      var k := |s| - 1;
      var x := s[k];
      assert s == s[..k] + [x];
      assert x in multiset(t);
      var i :| 0 <= i < |t| && t[i] == x;
      var before, after := t[..i], t[i + 1..];
      SplitAt(t, i);
      assert multiset(s) == multiset(s[..k]) + multiset{x};
      assert multiset(t) == multiset(before + after) + multiset{x};
      MultisetCancel(multiset(s[..k]), multiset(before + after), x);
      SummarizePermutation(limits, s[..k], before + after);
      MoveToEnd(limits, before, x, after);
    }
  }

  lemma SplitAt(t: seq<real>, i: nat)
    requires i < |t|
    ensures t == t[..i] + [t[i]] + t[i + 1..]
  {
  }

  lemma MultisetCancel(a: multiset<real>, b: multiset<real>, x: real)
    requires a + multiset{x} == b + multiset{x}
    ensures a == b
  {
    assert a == (a + multiset{x}) - multiset{x};
    assert b == (b + multiset{x}) - multiset{x};
  }

  lemma MoveToEnd(limits: seq<real>, before: seq<real>, x: real, after: seq<real>)
    requires |limits| > 0
    ensures Summarize(limits, before + [x] + after) == Combine(Summarize(limits, before + after), Single(limits, x))
  {
    var b, a, e := Summarize(limits, before), Summarize(limits, after), Single(limits, x);
    SummarizeConcat(limits, before + [x], after);
    SummarizeConcat(limits, before, after);
    assert (before + [x])[..|before|] == before;
    assert Summarize(limits, before + [x]) == Combine(b, e);
    CombineAssociates(b, e, a);
    CombineCommutes(e, a);
    CombineAssociates(b, a, e);
  }

  // ----- Any tree of Clear, Add and Merge -----

  /** How a histogram can be built. */
  datatype Build = Cleared | AddedTo(base: Build, x: real) | Merged(left: Build, right: Build)

  function Samples(t: Build): seq<real> {
    match t
    case Cleared => []
    case AddedTo(base, x) => Samples(base) + [x]
    case Merged(left, right) => Samples(left) + Samples(right)
  }

  /** The fields that building by `t` leaves. */
  function Fields(limits: seq<real>, t: Build): (r: Summary)
    requires |limits| > 0
    ensures |r.counts| == |limits|
  {
    match t
    case Cleared => Empty(limits)
    case AddedTo(base, x) => BucketMeaning(limits, x); Added(limits, Fields(limits, base), x)
    case Merged(left, right) => Combine(Fields(limits, left), Fields(limits, right))
  }

  lemma {:induction false} FieldsAreSummary(limits: seq<real>, t: Build)
    requires |limits| > 0
    ensures Fields(limits, t) == Summarize(limits, Samples(t))
  {
    match t
    case Cleared =>
    case AddedTo(base, x) =>
      FieldsAreSummary(limits, base);
      SummarizeAdd(limits, Samples(base), x);
    case Merged(left, right) =>
      FieldsAreSummary(limits, left);
      FieldsAreSummary(limits, right);
      SummarizeConcat(limits, Samples(left), Samples(right));
  }

  /** However the same samples are spread over histograms and merged, the fields agree. */
  lemma BuildOrderIrrelevant(limits: seq<real>, t: Build, u: Build)
    requires |limits| > 0 && multiset(Samples(t)) == multiset(Samples(u))
    ensures Fields(limits, t) == Fields(limits, u)
  {
    FieldsAreSummary(limits, t);
    FieldsAreSummary(limits, u);
    SummarizePermutation(limits, Samples(t), Samples(u));
  }

  // ----- What the summary says about the samples -----

  /** num_ counts the samples; min_ and max_ bound every one of them. */
  lemma {:induction false} SummaryBounds(limits: seq<real>, s: seq<real>)
    requires |limits| > 0
    ensures Summarize(limits, s).num == |s|
    ensures forall i :: 0 <= i < |s| ==> Summarize(limits, s).min <= s[i] <= Summarize(limits, s).max
  {
    if s != [] {
      var k := |s| - 1;
      SummaryBounds(limits, s[..k]);
      SummarizeAdd(limits, s[..k], s[k]);
      assert s == s[..k] + [s[k]];
      forall i | 0 <= i < |s| ensures Summarize(limits, s).min <= s[i] <= Summarize(limits, s).max {
        if i < k { assert s[..k][i] == s[i]; }
      }
    }
  }

  /** min_ is the smallest of the samples and the last limit, max_ the largest of the samples
      and zero; when all samples lie in the table's range, both are samples. */
  lemma SummaryExtremes(limits: seq<real>, s: seq<real>)
    requires |limits| > 0
    ensures var r, last := Summarize(limits, s), limits[|limits| - 1];
            && r.min <= last && (r.min == last || r.min in s)
            && r.max >= 0.0 && (r.max == 0.0 || r.max in s)
    ensures s != [] && (forall i :: 0 <= i < |s| ==> 0.0 <= s[i] <= limits[|limits| - 1]) ==>
              Summarize(limits, s).min in s && Summarize(limits, s).max in s
  {
    ExtremesAreMet(limits, s);
    SummaryBounds(limits, s);
    assert s != [] ==> s[0] in s;
  }

  lemma {:induction false} ExtremesAreMet(limits: seq<real>, s: seq<real>)
    requires |limits| > 0
    ensures Summarize(limits, s).min == limits[|limits| - 1] || Summarize(limits, s).min in s
    ensures Summarize(limits, s).max == 0.0 || Summarize(limits, s).max in s
  {
    if s != [] {
      var k := |s| - 1;
      ExtremesAreMet(limits, s[..k]);
      SummarizeAdd(limits, s[..k], s[k]);
      assert s == s[..k] + [s[k]];
    }
  }

  /** The sum of the squared distances of the samples from m. */
  function Deviation(s: seq<real>, m: real): real {
    if s == [] then 0.0 else Deviation(s[..|s| - 1], m) + (s[|s| - 1] - m) * (s[|s| - 1] - m)
  }

  /** The same sum, from the fields. */
  function Expanded(n: real, sum: real, squares: real, m: real): real {
    squares - 2.0 * m * sum + n * m * m
  }

  lemma ExpandedAdd(d: real, n: real, sum: real, squares: real, m: real, x: real, d': real, n': real, sum': real, squares': real)
    requires d == Expanded(n, sum, squares, m) && d >= 0.0
    requires n' == n + 1.0 && sum' == sum + x && squares' == squares + x * x && d' == d + (x - m) * (x - m)
    ensures d' == Expanded(n', sum', squares', m) && d' >= 0.0
  {
    assert (x - m) * (x - m) == x * x - 2.0 * m * x + m * m;
    assert 2.0 * m * sum' == 2.0 * m * sum + 2.0 * m * x;
    assert n' * m * m == n * m * m + m * m;
    SquareNonNegative(x - m);
  }

  lemma SquareNonNegative(y: real)
    ensures y * y >= 0.0
  {
  }

  function SumOf(s: seq<real>): real {
    if s == [] then 0.0 else SumOf(s[..|s| - 1]) + s[|s| - 1]
  }

  function SquaresOf(s: seq<real>): real {
    if s == [] then 0.0 else SquaresOf(s[..|s| - 1]) + s[|s| - 1] * s[|s| - 1]
  }

  /** sum_ and sum_squares_ are the sums they are named after. */
  lemma {:induction false} SummarySums(limits: seq<real>, s: seq<real>)
    requires |limits| > 0
    ensures Summarize(limits, s).sum == SumOf(s) && Summarize(limits, s).sumSquares == SquaresOf(s)
  {
    if s != [] {
      SummarySums(limits, s[..|s| - 1]);
    }
  }

  lemma {:induction false} DeviationExpands(s: seq<real>, m: real)
    ensures Deviation(s, m) == Expanded(|s| as real, SumOf(s), SquaresOf(s), m)
    ensures Deviation(s, m) >= 0.0
  {
    if s != [] {
      var q, x := s[..|s| - 1], s[|s| - 1];
      DeviationExpands(q, m);
      ExpandedAdd(Deviation(q, m), |q| as real, SumOf(q), SquaresOf(q), m, x,
                  Deviation(s, m), |s| as real, SumOf(s), SquaresOf(s));
    }
  }

  /** The argument of the square root in StandardDeviation. */
  function Variance(n: real, sum: real, squares: real): real
    requires n != 0.0
  {
    (squares * n - sum * sum) / (n * n)
  }

  /** It is the mean squared distance from the mean, hence never negative: for every
      sequence of samples, sum_squares_ * num_ >= sum_ * sum_. */
  lemma SampleVariance(s: seq<real>)
    requires s != []
    ensures Variance(|s| as real, SumOf(s), SquaresOf(s)) == Deviation(s, SumOf(s) / |s| as real) / |s| as real
    ensures Variance(|s| as real, SumOf(s), SquaresOf(s)) >= 0.0
    ensures SquaresOf(s) * |s| as real >= SumOf(s) * SumOf(s)
  {
    var n := |s| as real;
    DeviationExpands(s, SumOf(s) / n);
    VarianceAlgebra(n, SumOf(s), SquaresOf(s), SumOf(s) / n, Deviation(s, SumOf(s) / n));
  }

  lemma VarianceAlgebra(n: real, sum: real, squares: real, m: real, d: real)
    requires n >= 1.0 && m == sum / n && d == Expanded(n, sum, squares, m) && d >= 0.0
    ensures Variance(n, sum, squares) == d / n >= 0.0 && squares * n >= sum * sum
  {
    assert n * m == sum;
    assert n * m * m == sum * m;
    assert d == squares - m * sum;
    assert d * n == squares * n - sum * sum by {
      assert m * sum * n == sum * (n * m);
    }
    DivideTwice(d, n);
  }

  lemma DivideTwice(d: real, n: real)
    requires n >= 1.0 && d >= 0.0
    ensures (d * n) / (n * n) == d / n >= 0.0 && d * n >= 0.0
  {
    var q := d / n;
    assert q * n == d;
    assert d * n == q * (n * n);
  }
}
