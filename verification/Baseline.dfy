/**
  Anomaly detection by median and MAD: the baseline does not depend on the order of its sample, and
  arbitrary values cannot move it far while they are fewer than half. Real arithmetic; rounding is not
  modelled.
  */
module Baseline {
  import opened Common
  import opened Sequences

  datatype Number = Finite(value: real) | NotFinite
  datatype Summary = Summary(median: real, scale: real, points: nat)
  datatype Sensitivity = High | Medium | Low
  datatype Verdict = Verdict(anomalous: bool, z: real, score: real)

  const MIN_BASELINE_POINTS := 30
  const MAD_TO_SIGMA := 1.4826
  const RELATIVE_SCALE_FLOOR := 0.05
  const ABSOLUTE_SCALE_FLOOR := 0.000000001

  predicate AtMost(a: real, b: real) {
    a <= b
  }

  function FiniteOnes(values: seq<Number>): seq<real> {
    if values == [] then []
    else
      var last := values[|values|-1];
      FiniteOnes(values[..|values|-1]) + if last.Finite? then [last.value] else []
  }

  function Median(sorted: seq<real>): real
    requires sorted != []
  {
    var mid := |sorted| / 2;
    if |sorted| % 2 == 1 then sorted[mid] else (sorted[mid-1] + sorted[mid]) / 2.0
  }

  function Deviations(values: seq<real>, centre: real): seq<real> {
    if values == [] then []
    else Deviations(values[..|values|-1], centre) + [AbsReal(values[|values|-1] - centre)]
  }

  lemma {:induction false} DeviationsLength(values: seq<real>, centre: real)
    ensures |Deviations(values, centre)| == |values|
  {
    if values != [] { DeviationsLength(values[..|values|-1], centre); }
  }

  lemma SortLength(values: seq<real>)
    ensures |Sort(values, AtMost)| == |values|
  {
    Rearranged(values, Sort(values, AtMost));
  }

  /** The median absolute deviation of a sorted sample. */
  function Mad(sorted: seq<real>): real
    requires sorted != []
  {
    var deviations := Deviations(sorted, Median(sorted));
    DeviationsLength(sorted, Median(sorted));
    SortLength(deviations);
    Median(Sort(deviations, AtMost))
  }

  function ScaleOf(median: real, mad: real): real {
    MaxReal(MaxReal(MAD_TO_SIGMA * mad, RELATIVE_SCALE_FLOOR * AbsReal(median)), ABSOLUTE_SCALE_FLOOR)
  }

  /** `None` while there is not enough history. */
  function ComputeBaseline(values: seq<Number>): Option<Summary> {
    var finite := FiniteOnes(values);
    if |finite| < MIN_BASELINE_POINTS then None
    else
      var sorted := Sort(finite, AtMost);
      SortLength(finite);
      var median := Median(sorted);
      Some(Summary(median, ScaleOf(median, Mad(sorted)), |finite|))
  }

  function Threshold(sensitivity: Sensitivity): real {
    match sensitivity case High => 3.0 case Medium => 4.5 case Low => 6.0
  }

  function Assess(value: real, baseline: Summary, sensitivity: Sensitivity): Verdict
    requires baseline.scale > 0.0
  {
    var z := (value - baseline.median) / baseline.scale;
    var threshold := Threshold(sensitivity);
    var magnitude := AbsReal(z);
    assert magnitude + threshold > 0.0;
    Verdict(magnitude >= threshold, z, magnitude / (magnitude + threshold))
  }

  // ---- Order does not matter -------------------------------------------------------------------

  lemma AtMostIsOrder()
    ensures TotalPreorder(AtMost)
  {
  }

  lemma LeastFirst(a: seq<real>, x: real)
    requires SortedBy(a, AtMost) && x in a
    ensures a[0] <= x
  {
    var k :| 0 <= k < |a| && a[k] == x;
    assert k > 0 ==> AtMost(a[0], a[k]);
  }

  lemma TailsMatch(a: seq<real>, b: seq<real>)
    requires a != [] && b != [] && a[0] == b[0] && multiset(a) == multiset(b)
    ensures multiset(a[1..]) == multiset(b[1..])
  {
    MultisetOfTail(a);
    MultisetOfTail(b);
    assert multiset(a[1..]) == multiset(a) - multiset{a[0]};
    assert multiset(b[1..]) == multiset(b) - multiset{b[0]};
  }

  lemma {:induction false} SortedIsUnique(a: seq<real>, b: seq<real>)
    requires multiset(a) == multiset(b) && SortedBy(a, AtMost) && SortedBy(b, AtMost)
    ensures a == b
  {
    Rearranged(a, b);
    if a != [] {
      assert b[0] in a && a[0] in b;
      LeastFirst(a, b[0]);
      LeastFirst(b, a[0]);
      assert a == [a[0]] + a[1..] && b == [b[0]] + b[1..];
      TailsMatch(a, b);
      SortedIsUnique(a[1..], b[1..]);
    }
  }

  lemma SortForgetsOrder(a: seq<real>, b: seq<real>)
    requires multiset(a) == multiset(b)
    ensures Sort(a, AtMost) == Sort(b, AtMost)
  {
    AtMostIsOrder();
    SortSorts(a, AtMost);
    SortSorts(b, AtMost);
    SortedIsUnique(Sort(a, AtMost), Sort(b, AtMost));
  }

  lemma {:induction false} FiniteOnesAdd(a: seq<Number>, b: seq<Number>)
    ensures FiniteOnes(a + b) == FiniteOnes(a) + FiniteOnes(b)
  {
    if b == [] {
      assert a + b == a;
    } else {
      var m := |b| - 1;
      assert (a + b)[..|a + b| - 1] == a + b[..m];
      FiniteOnesAdd(a, b[..m]);
    }
  }

  lemma FiniteOne(x: Number)
    ensures FiniteOnes([x]) == if x.Finite? then [x.value] else []
  {
    assert [x][..0] == [];
  }

  lemma FiniteOnesAround(left: seq<Number>, x: Number, right: seq<Number>)
    ensures multiset(FiniteOnes(left + [x] + right))
         == multiset(FiniteOnes(left + right)) + multiset(if x.Finite? then [x.value] else [])
  {
    FiniteOne(x);
    FiniteOnesAdd(left + [x], right);
    FiniteOnesAdd(left, [x]);
    FiniteOnesAdd(left, right);
  }

  lemma {:induction false} FiniteOnesForgetOrder(a: seq<Number>, b: seq<Number>)
    requires multiset(a) == multiset(b)
    ensures multiset(FiniteOnes(a)) == multiset(FiniteOnes(b))
  {
    if a == [] {
      Rearranged(a, b);
    } else {
      var left, right := TakeOut(a, b);
      FiniteOnesForgetOrder(a[1..], left + right);
      FiniteOnesAround([], a[0], a[1..]);
      FiniteOnesAround(left, a[0], right);
      assert a == [] + [a[0]] + a[1..] && [] + a[1..] == a[1..];
    }
  }

  /** The baseline is the same whatever the order of the sample. */
  lemma BaselineForgetsOrder(a: seq<Number>, b: seq<Number>)
    requires multiset(a) == multiset(b)
    ensures ComputeBaseline(a) == ComputeBaseline(b)
  {
    FiniteOnesForgetOrder(a, b);
    Rearranged(FiniteOnes(a), FiniteOnes(b));
    SortForgetsOrder(FiniteOnes(a), FiniteOnes(b));
  }

  // ---- Breakdown -------------------------------------------------------------------------------

  /** How many values lie outside [lo, hi]. */
  function Outside(values: seq<real>, lo: real, hi: real): nat {
    if values == [] then 0
    else
      var last := values[|values|-1];
      Outside(values[..|values|-1], lo, hi) + if lo <= last <= hi then 0 else 1
  }

  lemma {:induction false} OutsideAdd(a: seq<real>, b: seq<real>, lo: real, hi: real)
    ensures Outside(a + b, lo, hi) == Outside(a, lo, hi) + Outside(b, lo, hi)
  {
    if b == [] {
      assert a + b == a;
    } else {
      var m := |b| - 1;
      assert (a + b)[..|a + b| - 1] == a + b[..m];
      OutsideAdd(a, b[..m], lo, hi);
    }
  }

  lemma OutsideAround(left: seq<real>, x: real, right: seq<real>, lo: real, hi: real)
    ensures Outside(left + [x] + right, lo, hi) == Outside(left + right, lo, hi) + if lo <= x <= hi then 0 else 1
  {
    OutsideAdd(left + [x], right, lo, hi);
    OutsideAdd(left, [x], lo, hi);
    OutsideAdd(left, right, lo, hi);
    assert [x][..0] == [];
  }

  lemma {:induction false} OutsideForgetsOrder(a: seq<real>, b: seq<real>, lo: real, hi: real)
    requires multiset(a) == multiset(b)
    ensures Outside(a, lo, hi) == Outside(b, lo, hi)
  {
    if a == [] {
      Rearranged(a, b);
    } else {
      var left, right := TakeOut(a, b);
      OutsideForgetsOrder(a[1..], left + right, lo, hi);
      OutsideAround([], a[0], a[1..], lo, hi);
      OutsideAround(left, a[0], right, lo, hi);
      assert a == [] + [a[0]] + a[1..] && [] + a[1..] == a[1..];
    }
  }

  lemma {:induction false} AllOutside(values: seq<real>, lo: real, hi: real)
    requires forall k :: 0 <= k < |values| ==> !(lo <= values[k] <= hi)
    ensures Outside(values, lo, hi) == |values|
  {
    if values != [] { AllOutside(values[..|values|-1], lo, hi); }
  }

  /** A sorted sample with a value above `hi` has everything from there on outside. */
  lemma TailOutside(sorted: seq<real>, k: nat, lo: real, hi: real)
    requires SortedBy(sorted, AtMost) && k < |sorted| && sorted[k] > hi
    ensures Outside(sorted, lo, hi) >= |sorted| - k
  {
    var tail := sorted[k..];
    forall i | 0 <= i < |tail| ensures !(lo <= tail[i] <= hi) {
      assert i > 0 ==> AtMost(sorted[k], sorted[k + i]);
    }
    AllOutside(tail, lo, hi);
    OutsideAdd(sorted[..k], sorted[k..], lo, hi);
    assert sorted == sorted[..k] + sorted[k..];
  }

  /** And one with a value below `lo` everything up to there. */
  lemma HeadOutside(sorted: seq<real>, k: nat, lo: real, hi: real)
    requires SortedBy(sorted, AtMost) && k < |sorted| && sorted[k] < lo
    ensures Outside(sorted, lo, hi) >= k + 1
  {
    var head := sorted[..k+1];
    forall i | 0 <= i < |head| ensures !(lo <= head[i] <= hi) {
      assert i < k ==> AtMost(sorted[i], sorted[k]);
    }
    AllOutside(head, lo, hi);
    OutsideAdd(sorted[..k+1], sorted[k+1..], lo, hi);
    assert sorted == sorted[..k+1] + sorted[k+1..];
  }

  lemma MiddleIsInside(sorted: seq<real>, k: nat, lo: real, hi: real)
    requires SortedBy(sorted, AtMost) && k < |sorted| && 2 * Outside(sorted, lo, hi) < |sorted|
    requires |sorted| <= 2 * (k + 1) && 2 * k <= |sorted|
    ensures lo <= sorted[k] <= hi
  {
    if sorted[k] > hi { TailOutside(sorted, k, lo, hi); }
    if sorted[k] < lo { HeadOutside(sorted, k, lo, hi); }
  }

  /** While fewer than half of a sample is outside a range, its median is inside it. */
  lemma MedianIsInside(values: seq<real>, lo: real, hi: real)
    requires values != [] && 2 * Outside(values, lo, hi) < |values|
    ensures |Sort(values, AtMost)| == |values| && lo <= Median(Sort(values, AtMost)) <= hi
  {
    var sorted := Sort(values, AtMost);
    SortLength(values);
    AtMostIsOrder();
    SortSorts(values, AtMost);
    OutsideForgetsOrder(values, sorted, lo, hi);
    var mid := |sorted| / 2;
    MiddleIsInside(sorted, mid, lo, hi);
    if |sorted| % 2 == 0 { MiddleIsInside(sorted, mid - 1, lo, hi); }
  }

  function Negated(values: seq<real>): seq<real> {
    if values == [] then [] else Negated(values[..|values|-1]) + [-values[|values|-1]]
  }

  lemma {:induction false} NegatedAt(values: seq<real>)
    ensures |Negated(values)| == |values|
    ensures forall k :: 0 <= k < |values| ==> Negated(values)[k] == -values[k]
  {
    if values != [] { NegatedAt(values[..|values|-1]); }
  }

  lemma CountMore(front: seq<real>, last: real, x: real)
    ensures multiset(front + [last])[x] == multiset(front)[x] + if last == x then 1 else 0
  {
  }

  lemma NegatedMore(front: seq<real>, last: real)
    ensures Negated(front + [last]) == Negated(front) + [-last]
  {
    assert (front + [last])[..|front|] == front;
  }

  lemma {:induction false} NegatedCount(values: seq<real>, x: real)
    ensures multiset(Negated(values))[x] == multiset(values)[-x]
  {
    if values != [] {
      var front, last := values[..|values|-1], values[|values|-1];
      assert values == front + [last];
      NegatedCount(front, x);
      NegatedMore(front, last);
      CountMore(Negated(front), -last, x);
      CountMore(front, last, -x);
    }
  }

  lemma NegatedForgetsOrder(a: seq<real>, b: seq<real>)
    requires multiset(a) == multiset(b)
    ensures multiset(Negated(a)) == multiset(Negated(b))
  {
    forall x ensures multiset(Negated(a))[x] == multiset(Negated(b))[x] {
      NegatedCount(a, x);
      NegatedCount(b, x);
    }
  }

  /** Sorting the negated sample turns the sorted one round. */
  lemma SortedMirror(values: seq<real>)
    ensures Sort(Negated(values), AtMost) == Negated(Reversed(Sort(values, AtMost)))
  {
    var sorted := Sort(values, AtMost);
    var turned := Negated(Reversed(sorted));
    AtMostIsOrder();
    SortSorts(values, AtMost);
    SortSorts(Negated(values), AtMost);
    ReversedCounts(sorted);
    NegatedAt(Reversed(sorted));
    Rearranged(values, sorted);
    NegatedForgetsOrder(values, Reversed(sorted));
    forall i, j | 0 <= i < j < |turned| ensures AtMost(turned[i], turned[j]) {
      assert AtMost(sorted[|sorted|-1-j], sorted[|sorted|-1-i]);
    }
    SortedIsUnique(Sort(Negated(values), AtMost), turned);
  }

  lemma MirroredMedian(s: seq<real>, t: seq<real>)
    requires s != [] && |t| == |s| && forall k :: 0 <= k < |s| ==> t[k] == -s[|s|-1-k]
    ensures Median(t) == -Median(s)
  {
    var n, mid := |s|, |s| / 2;
    if n % 2 == 1 {
      assert n - 1 - mid == mid;
    } else {
      assert n - 1 - mid == mid - 1;
      assert t[mid-1] == -s[mid] && t[mid] == -s[mid-1];
    }
  }

  /** The median has no side: that of the negated sample is the negated median, for even and odd sizes alike. */
  lemma MedianMirrors(values: seq<real>)
    requires values != []
    ensures |Sort(values, AtMost)| == |values| == |Sort(Negated(values), AtMost)|
    ensures Median(Sort(Negated(values), AtMost)) == -Median(Sort(values, AtMost))
  {
    SortLength(values);
    SortedMirror(values);
    var sorted := Sort(values, AtMost);
    NegatedAt(Reversed(sorted));
    MirroredMedian(sorted, Negated(Reversed(sorted)));
  }

  lemma {:induction false} FewerDeviate(values: seq<real>, lo: real, hi: real, centre: real)
    requires lo <= centre <= hi
    ensures Outside(Deviations(values, centre), 0.0, hi - lo) <= Outside(values, lo, hi)
  {
    if values != [] {
      var m := |values| - 1;
      FewerDeviate(values[..m], lo, hi, centre);
      var front := Deviations(values[..m], centre);
      assert (front + [AbsReal(values[m] - centre)])[..|front|] == front;
    }
  }

  /** While fewer than half of the values are outside a range, the MAD is at most the range's width. */
  lemma MadIsBounded(sample: seq<real>, lo: real, hi: real)
    requires sample != [] && 2 * Outside(sample, lo, hi) < |sample|
    requires lo <= Median(sample) <= hi
    ensures 0.0 <= Mad(sample) <= hi - lo
  {
    DeviationsLength(sample, Median(sample));
    FewerDeviate(sample, lo, hi, Median(sample));
    MedianIsInside(Deviations(sample, Median(sample)), 0.0, hi - lo);
  }

  /** The largest scale a baseline within [lo, hi] can have. */
  function WidestScale(lo: real, hi: real): real {
    MaxReal(MaxReal(MAD_TO_SIGMA * (hi - lo), RELATIVE_SCALE_FLOOR * MaxReal(AbsReal(lo), AbsReal(hi))),
            ABSOLUTE_SCALE_FLOOR)
  }

  lemma ScaleIsBounded(median: real, mad: real, lo: real, hi: real)
    requires lo <= median <= hi && 0.0 <= mad <= hi - lo
    ensures 0.0 < ScaleOf(median, mad) <= WidestScale(lo, hi)
  {
    assert AbsReal(median) <= MaxReal(AbsReal(lo), AbsReal(hi));
    assert MAD_TO_SIGMA * mad <= MAD_TO_SIGMA * (hi - lo);
    assert RELATIVE_SCALE_FLOOR * AbsReal(median) <= RELATIVE_SCALE_FLOOR * MaxReal(AbsReal(lo), AbsReal(hi));
  }

  /**
    Fewer than half of the sample may be anything at all: the baseline still lies within the range of
    the others, and its scale within what that range allows.
    */
  lemma BaselineWithstandsOutliers(values: seq<Number>, lo: real, hi: real)
    requires 2 * Outside(FiniteOnes(values), lo, hi) < |FiniteOnes(values)|
    ensures var b := ComputeBaseline(values);
            b.Some? ==> lo <= b.value.median <= hi && 0.0 < b.value.scale <= WidestScale(lo, hi)
  {
    var finite := FiniteOnes(values);
    var sorted := Sort(finite, AtMost);
    OutsideForgetsOrder(finite, sorted, lo, hi);
    MedianIsInside(finite, lo, hi);
    MadIsBounded(sorted, lo, hi);
    ScaleIsBounded(Median(sorted), Mad(sorted), lo, hi);
  }

  lemma Ratio(a: real, b: real, c: real)
    requires b > 0.0
    ensures a / b >= c <==> a >= c * b
    ensures a / b <= c <==> a <= c * b
  {
    var q := a / b;
    assert q * b == a;
    Ordered(q, c, b);
    Ordered(c, q, b);
  }

  lemma Ordered(p: real, q: real, b: real)
    requires b > 0.0
    ensures p >= q <==> p * b >= q * b
  {
    assert p * b - q * b == (p - q) * b;
    if p >= q { assert (p - q) * b >= 0.0; } else { assert (q - p) * b > 0.0; }
  }

  lemma FarIsAnomalous(value: real, baseline: Summary, sensitivity: Sensitivity)
    requires baseline.scale > 0.0
    ensures Assess(value, baseline, sensitivity).anomalous <==>
              AbsReal(value - baseline.median) >= Threshold(sensitivity) * baseline.scale
  {
    var d, t := value - baseline.median, Threshold(sensitivity);
    Ratio(d, baseline.scale, t);
    Ratio(d, baseline.scale, -t);
    assert -t * baseline.scale == -(t * baseline.scale);
    Ratio(d, baseline.scale, 0.0);
  }

  /** So a value far enough outside that range is still flagged. */
  lemma FarValuesAreFlagged(values: seq<Number>, lo: real, hi: real, value: real, sensitivity: Sensitivity)
    requires 2 * Outside(FiniteOnes(values), lo, hi) < |FiniteOnes(values)|
    requires value >= hi + Threshold(sensitivity) * WidestScale(lo, hi)
             || value <= lo - Threshold(sensitivity) * WidestScale(lo, hi)
    ensures var b := ComputeBaseline(values);
            b.Some? ==> b.value.scale > 0.0 && Assess(value, b.value, sensitivity).anomalous
  {
    BaselineWithstandsOutliers(values, lo, hi);
    var b := ComputeBaseline(values);
    if b.Some? {
      FarIsAnomalous(value, b.value, sensitivity);
      Ordered(WidestScale(lo, hi), b.value.scale, Threshold(sensitivity));
    }
  }

  /** The score is one half exactly at the threshold: it reaches it exactly when the value is anomalous. */
  lemma ScoreTellsAnomaly(value: real, baseline: Summary, sensitivity: Sensitivity)
    requires baseline.scale > 0.0
    ensures var v := Assess(value, baseline, sensitivity);
            (v.anomalous <==> v.score >= 0.5) && 0.0 <= v.score < 1.0
  {
    var m, t := AbsReal((value - baseline.median) / baseline.scale), Threshold(sensitivity);
    Ratio(m, m + t, 0.5);
    Ratio(m, m + t, 0.0);
    Ratio(m, m + t, 1.0);
  }

  /**
    A deviation of less than a twentieth of the median is never an anomaly, however flat the series, nor is one
    of less than the threshold's number of twentieths.
    */
  lemma SmallDeviationsPass(values: seq<Number>, value: real, sensitivity: Sensitivity)
    ensures var b := ComputeBaseline(values);
            b.Some? ==>
              && b.value.scale > 0.0
              && (AbsReal(value - b.value.median) < Threshold(sensitivity) * (0.05 * AbsReal(b.value.median)) ==>
                    !Assess(value, b.value, sensitivity).anomalous)
              && (20.0 * AbsReal(value - b.value.median) < AbsReal(b.value.median) ==>
                    !Assess(value, b.value, sensitivity).anomalous)
  {
    var b := ComputeBaseline(values);
    if b.Some? {
      var twentieth := 0.05 * AbsReal(b.value.median);
      FarIsAnomalous(value, b.value, sensitivity);
      Ordered(b.value.scale, twentieth, Threshold(sensitivity));
      assert twentieth >= 0.0 && Threshold(sensitivity) >= 1.0;
      Ordered(Threshold(sensitivity), 1.0, twentieth + 1.0);
    }
  }

  /** How far each sensitivity lets a value go; what a less sensitive rule flags, a more sensitive one flags too. */
  lemma SensitivitiesFlag(value: real, baseline: Summary)
    requires baseline.scale > 0.0
    ensures var d := AbsReal(value - baseline.median);
            && (Assess(value, baseline, High).anomalous <==> d >= 3.0 * baseline.scale)
            && (Assess(value, baseline, Medium).anomalous <==> d >= 4.5 * baseline.scale)
            && (Assess(value, baseline, Low).anomalous <==> d >= 6.0 * baseline.scale)
    ensures Assess(value, baseline, Low).anomalous ==> Assess(value, baseline, Medium).anomalous
    ensures Assess(value, baseline, Medium).anomalous ==> Assess(value, baseline, High).anomalous
  {
    FarIsAnomalous(value, baseline, High);
    FarIsAnomalous(value, baseline, Medium);
    FarIsAnomalous(value, baseline, Low);
  }

  /** The detector learns until it has thirty finite points, and then has their median. */
  lemma LearnsFromThirty(values: seq<Number>)
    ensures ComputeBaseline(values).Some? <==> |FiniteOnes(values)| >= 30
    ensures ComputeBaseline(values).Some? ==>
              |Sort(FiniteOnes(values), AtMost)| >= 30
              && ComputeBaseline(values).value.median == Median(Sort(FiniteOnes(values), AtMost))
              && ComputeBaseline(values).value.points == |FiniteOnes(values)|
  {
    SortLength(FiniteOnes(values));
  }

  // ---- The sample ------------------------------------------------------------------------------

  const DAY_MS := 24 * 60 * 60 * 1000
  const RECENT_WINDOW_MS := 6 * 60 * 60 * 1000
  const SEASONAL_DAYS := 7
  const SEASONAL_HALF_WIDTH_MS := 30 * 60 * 1000

  /** `to` is exclusive. */
  datatype Range = Range(from: int, to: int)

  function Guard(durationSec: int): int {
    durationSec * 1000 + 10 * 60 * 1000
  }

  ghost predicate Covers(ranges: seq<Range>, t: int) {
    exists k :: 0 <= k < |ranges| && ranges[k].from <= t < ranges[k].to
  }

  /**
    The recent past before the stretch under evaluation, or the same time of day on one of the first `days`
    days before.
    */
  ghost predicate InSample(now: int, durationSec: int, days: int, t: int) {
    || now - RECENT_WINDOW_MS <= t < now - durationSec * 1000 - 10 * 60 * 1000
    || exists day :: 1 <= day <= days && SameTimeOn(now, day, t)
  }

  ghost predicate SameTimeOn(now: int, day: int, t: int) {
    -SEASONAL_HALF_WIDTH_MS <= t - (now - day * DAY_MS) < SEASONAL_HALF_WIDTH_MS
  }

  /** The ranges hold exactly the sample's instants, and none is empty. */
  method BaselineRanges(now: int, durationSec: int) returns (ranges: seq<Range>)
    ensures forall t :: Covers(ranges, t) <==> InSample(now, durationSec, SEASONAL_DAYS, t)
    ensures forall k :: 0 <= k < |ranges| ==> ranges[k].from < ranges[k].to
  {
    var recent := Range(now - RECENT_WINDOW_MS, now - Guard(durationSec));
    ranges := [];
    CoversOneMore(ranges, recent);
    if recent.to > recent.from { ranges := ranges + [recent]; }
    for day := 1 to SEASONAL_DAYS + 1
      invariant forall t :: Covers(ranges, t) <==> InSample(now, durationSec, day - 1, t)
      invariant forall k :: 0 <= k < |ranges| ==> ranges[k].from < ranges[k].to
    {
      var centre := now - day * DAY_MS;
      var range := Range(centre - SEASONAL_HALF_WIDTH_MS, centre + SEASONAL_HALF_WIDTH_MS);
      CoversOneMore(ranges, range);
      SampleOneMore(now, durationSec, day);
      ranges := ranges + [range];
    }
  }

  lemma SampleOneMore(now: int, durationSec: int, day: int)
    requires 1 <= day
    ensures forall t ::
              InSample(now, durationSec, day, t) <==> InSample(now, durationSec, day - 1, t) || SameTimeOn(now, day, t)
  {
    forall t
      ensures InSample(now, durationSec, day, t) <==> InSample(now, durationSec, day - 1, t) || SameTimeOn(now, day, t)
    {
      if SameTimeOn(now, day, t) { assert InSample(now, durationSec, day, t); }
    }
  }

  lemma CoversOneMore(ranges: seq<Range>, range: Range)
    ensures forall t :: Covers(ranges + [range], t) <==> Covers(ranges, t) || range.from <= t < range.to
  {
    forall t ensures Covers(ranges + [range], t) <==> Covers(ranges, t) || range.from <= t < range.to {
      if Covers(ranges, t) {
        var k :| 0 <= k < |ranges| && ranges[k].from <= t < ranges[k].to;
        assert (ranges + [range])[k] == ranges[k];
      }
      if range.from <= t < range.to { assert (ranges + [range])[|ranges|] == range; }
    }
  }

  /**
    An anomaly under way, with ten minutes of margin, stays out of its own baseline exactly when the duration
    asked for is at most 23 hours and 20 minutes: a longer one reaches yesterday's time of day.
    */
  lemma OngoingIsExcluded(now: int, durationSec: int)
    ensures (forall t :: now - durationSec * 1000 - 600_000 <= t <= now ==>
               !InSample(now, durationSec, SEASONAL_DAYS, t))
            <==> durationSec <= 23 * 3600 + 20 * 60
  {
    if Guard(durationSec) > DAY_MS - SEASONAL_HALF_WIDTH_MS {
      var t := now - DAY_MS + SEASONAL_HALF_WIDTH_MS - 1;
      assert SameTimeOn(now, 1, t);
      assert InSample(now, durationSec, SEASONAL_DAYS, t);
    }
  }
}
