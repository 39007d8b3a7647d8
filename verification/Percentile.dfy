/** The interpolated percentile that components 6, 7 and 8 each define. */
module Percentile {
  import opened Ordering
  import opened RealArithmetic

  datatype Outcome = NoValues | BadQuantile | At(value: real)

  predicate AtMost(a: real, b: real) { a <= b }

  function Sorted(values: seq<real>): (r: seq<real>)
    ensures multiset(r) == multiset(values) && |r| == |values|
    ensures forall i, j :: 0 <= i <= j < |r| ==> r[i] <= r[j]
  {
    SortOrders(values, AtMost);
    var r := SortBy(values, AtMost);
    assert forall i, j :: 0 <= i < j < |r| ==> AtMost(r[i], r[j]);
    r
  }

  /** Position `position` of a list, read off the straight line between neighbours. */
  function Interpolate(ordered: seq<real>, position: real): real
    requires 0.0 <= position <= (|ordered| - 1) as real
  {
    var lower := position.Floor;
    var upper := if lower as real == position then lower else lower + 1;
    if lower == upper then ordered[lower]
    else
      var fraction := position - lower as real;
      Line(ordered[lower], ordered[upper], fraction)
  }

  function Line(low: real, high: real, fraction: real): real {
    low + fraction * (high - low)
  }

  /** The percentile of an already sorted list. */
  function AtQuantile(ordered: seq<real>, quantile: real): real
    requires |ordered| > 0 && 0.0 <= quantile <= 1.0
  {
    if |ordered| == 1 then ordered[0] else Interpolate(ordered, Position(quantile, |ordered|))
  }

  function Position(quantile: real, n: nat): (position: real)
    requires 0.0 <= quantile <= 1.0 && n > 0
    ensures 0.0 <= position <= (n - 1) as real
  {
    PositionInRange(quantile, n);
    quantile * (n - 1) as real
  }

  lemma PositionRises(p: real, q: real, n: nat)
    requires 0.0 <= p <= q <= 1.0 && n > 0
    ensures Position(p, n) <= Position(q, n)
  {
    NonNegativeProduct(q - p, (n - 1) as real);
  }

  function Quantile(values: seq<real>, quantile: real): (r: Outcome)
    ensures r.NoValues? <==> values == []
    ensures r.BadQuantile? <==> values != [] && (quantile < 0.0 || quantile > 1.0)
  {
    if |values| == 0 then NoValues
    else if !(0.0 <= quantile <= 1.0) then BadQuantile
    else At(AtQuantile(Sorted(values), quantile))
  }

  lemma PositionInRange(quantile: real, n: nat)
    requires 0.0 <= quantile <= 1.0 && n > 0
    ensures 0.0 <= quantile * (n - 1) as real <= (n - 1) as real
  {
    var last := (n - 1) as real;
    NonNegativeProduct(quantile, last);
    NonNegativeProduct(1.0 - quantile, last);
  }

  // ----- One stretch of the line ----------------------------------------------

  predicate Rising(ordered: seq<real>) {
    forall i, j :: 0 <= i <= j < |ordered| ==> ordered[i] <= ordered[j]
  }

  lemma LineRises(low: real, high: real, f: real, g: real)
    requires low <= high && f <= g
    ensures Line(low, high, f) <= Line(low, high, g)
    ensures Line(low, high, 0.0) == low && Line(low, high, 1.0) == high
  {
    NonNegativeProduct(g - f, high - low);
  }

  /** The interpolated value lies between its two neighbours. */
  lemma NeighboursBound(ordered: seq<real>, position: real)
    requires 0.0 <= position <= (|ordered| - 1) as real && Rising(ordered)
    ensures
      var k := position.Floor;
      && 0 <= k < |ordered| && ordered[k] <= Interpolate(ordered, position)
      && (k + 1 < |ordered| ==> Interpolate(ordered, position) <= ordered[k + 1])
      && (k as real == position ==> Interpolate(ordered, position) == ordered[k])
  {
    var k := position.Floor;
    if k as real != position {
      LineRises(ordered[k], ordered[k + 1], 0.0, position - k as real);
      LineRises(ordered[k], ordered[k + 1], position - k as real, 1.0);
    }
  }

  lemma InterpolationRises(ordered: seq<real>, p: real, q: real)
    requires 0.0 <= p <= q <= (|ordered| - 1) as real && Rising(ordered)
    ensures Interpolate(ordered, p) <= Interpolate(ordered, q)
  {
    var i, j := p.Floor, q.Floor;
    NeighboursBound(ordered, p);
    NeighboursBound(ordered, q);
    if i < j {
      assert ordered[i + 1] <= ordered[j];
    } else if p != i as real && q != i as real {
      LineRises(ordered[i], ordered[i + 1], p - i as real, q - i as real);
    }
  }

  /** Percentiles of a sorted list rise with the quantile, from its first element
      to its last. */
  lemma SortedRises(ordered: seq<real>, p: real, q: real)
    requires |ordered| > 0 && Rising(ordered) && 0.0 <= p <= q <= 1.0
    ensures AtQuantile(ordered, p) <= AtQuantile(ordered, q)
  {
    if |ordered| > 1 {
      PositionRises(p, q, |ordered|);
      InterpolationRises(ordered, Position(p, |ordered|), Position(q, |ordered|));
    }
  }

  lemma SortedEnds(ordered: seq<real>)
    requires |ordered| > 0 && Rising(ordered)
    ensures AtQuantile(ordered, 0.0) == ordered[0]
    ensures AtQuantile(ordered, 1.0) == ordered[|ordered| - 1]
  {
    if |ordered| > 1 {
      NeighboursBound(ordered, 0.0);
      NeighboursBound(ordered, (|ordered| - 1) as real);
    }
  }

  // ----- Properties of the percentile -----------------------------------------

  /** Sorting as a permutation: the ends of the sorted list are the extremes. */
  lemma SortedExtremes(values: seq<real>)
    requires values != []
    ensures
      var r := Sorted(values);
      Rising(r) && r[0] in values && r[|r| - 1] in values && forall v :: v in values ==> r[0] <= v <= r[|r| - 1]
  {
    var r := Sorted(values);
    assert r[0] in multiset(values) && r[|r| - 1] in multiset(values);
    forall v | v in values
      ensures r[0] <= v <= r[|r| - 1]
    {
      assert v in multiset(r);
      var k :| 0 <= k < |r| && r[k] == v;
    }
  }

  /** Quantile 0 is the minimum and quantile 1 the maximum. */
  lemma ReachesEnds(values: seq<real>)
    requires values != []
    ensures
      var low, high := Quantile(values, 0.0).value, Quantile(values, 1.0).value;
      low in values && high in values && forall v :: v in values ==> low <= v <= high
  {
    SortedExtremes(values);
    SortedEnds(Sorted(values));
  }

  /** It never falls as the quantile grows, within a stretch or across stretches. */
  lemma RisesWithQuantile(values: seq<real>, p: real, q: real)
    requires values != [] && 0.0 <= p <= q <= 1.0
    ensures Quantile(values, p).value <= Quantile(values, q).value
  {
    SortedExtremes(values);
    SortedRises(Sorted(values), p, q);
  }

  /** It never leaves the range of the values. */
  lemma StaysInRange(values: seq<real>, quantile: real, low: real, high: real)
    requires values != [] && 0.0 <= quantile <= 1.0
    requires forall v :: v in values ==> low <= v <= high
    ensures low <= Quantile(values, quantile).value <= high
  {
    ReachesEnds(values);
    RisesWithQuantile(values, 0.0, quantile);
    RisesWithQuantile(values, quantile, 1.0);
  }

  /** The order of the observations does not matter. */
  lemma IgnoresOrder(values: seq<real>, permuted: seq<real>, quantile: real)
    requires multiset(values) == multiset(permuted)
    ensures Quantile(values, quantile) == Quantile(permuted, quantile)
  {
    SameLength(values, permuted);
    SortedIgnoresOrder(values, permuted);
  }

  lemma SortedIgnoresOrder(values: seq<real>, permuted: seq<real>)
    requires multiset(values) == multiset(permuted)
    ensures Sorted(values) == Sorted(permuted)
  {
    RealsAreOrdered(values);
    SortIgnoresOrder(values, permuted, AtMost);
  }

  lemma RealsAreOrdered(values: seq<real>)
    ensures TotalOrder(AtMost) && Separates(AtMost, values)
  {}

  /** `v` is the element at a whole position, or lies on the line between the neighbours
      of a position between two. */
  predicate ReadAt(ordered: seq<real>, position: real, v: real) {
    var k := position.Floor;
    && 0 <= k < |ordered|
    && (position == k as real ==> v == ordered[k])
    && (position != k as real ==>
          && k + 1 < |ordered|
          && v == ordered[k] + (position - k as real) * (ordered[k + 1] - ordered[k]))
  }

  /** The answer itself: in any ascending arrangement, what is read at position
      `quantile * (n - 1)`. */
  lemma AnswerIsReadAt(values: seq<real>, ordered: seq<real>, quantile: real, position: real)
    requires multiset(ordered) == multiset(values) && values != [] && 0.0 <= quantile <= 1.0
    requires forall i, j :: 0 <= i < j < |ordered| ==> ordered[i] <= ordered[j]
    requires position == quantile * (|values| - 1) as real
    ensures Quantile(values, quantile).At? && ReadAt(ordered, position, Quantile(values, quantile).value)
  {
    assert Sorted(values) == ordered by {
      SortedIgnoresOrder(values, ordered);
      AlreadySorted(ordered);
    }
    AnswerAtPosition(values, ordered, quantile, position);
  }

  lemma AlreadySorted(ordered: seq<real>)
    requires forall i, j :: 0 <= i < j < |ordered| ==> ordered[i] <= ordered[j]
    ensures Sorted(ordered) == ordered
  {
    RealsAreOrdered(ordered);
    assert SortedBy(ordered, AtMost);
    SortOrders(ordered, AtMost);
    SortedIsUnique(ordered, Sorted(ordered), AtMost);
  }

  lemma AnswerAtPosition(values: seq<real>, ordered: seq<real>, quantile: real, position: real)
    requires values != [] && ordered == Sorted(values) && 0.0 <= quantile <= 1.0
    requires position == quantile * (|values| - 1) as real
    ensures ReadAt(ordered, position, AtQuantile(ordered, quantile))
  {
    assert position == Position(quantile, |ordered|);
    ReadAtPosition(ordered, quantile, position);
  }

  lemma ReadAtPosition(ordered: seq<real>, quantile: real, position: real)
    requires ordered != [] && 0.0 <= quantile <= 1.0 && position == Position(quantile, |ordered|)
    ensures ReadAt(ordered, position, AtQuantile(ordered, quantile))
  {
    if |ordered| > 1 && position != position.Floor as real {
      OnStretch(ordered, position.Floor, position);
    }
  }

  // ----- What lies between --------------------------------------------------------

  function NotAbove(values: seq<real>, v: real): nat {
    if values == [] then 0 else (if values[0] <= v then 1 else 0) + NotAbove(values[1..], v)
  }

  function NotBelow(values: seq<real>, v: real): nat {
    if values == [] then 0 else (if values[0] >= v then 1 else 0) + NotBelow(values[1..], v)
  }

  /** The percentile has its rank among the values: with k the whole part of its
      position, at least k + 1 values are not above it, and at least n - k not below it,
      one fewer if the position lies between two values. */
  lemma HasItsRank(values: seq<real>, quantile: real, position: real)
    requires values != [] && 0.0 <= quantile <= 1.0 && position == quantile * (|values| - 1) as real
    ensures
      var v, k := Quantile(values, quantile).value, position.Floor;
      && NotAbove(values, v) >= k + 1
      && NotBelow(values, v) >= |values| - k - (if position == k as real then 0 else 1)
  {
    assert position == Position(quantile, |values|);
    RankAtPosition(values, quantile, position);
  }

  lemma RankAtPosition(values: seq<real>, quantile: real, position: real)
    requires values != [] && 0.0 <= quantile <= 1.0 && position == Position(quantile, |values|)
    ensures
      var v, k := Quantile(values, quantile).value, position.Floor;
      && NotAbove(values, v) >= k + 1
      && NotBelow(values, v) >= |values| - k - (if position == k as real then 0 else 1)
  {
    var ordered, k := Sorted(values), position.Floor;
    var above := if position == k as real then k else k + 1;
    assert Rising(ordered);
    NeighboursBound(ordered, position);
    var v := AtQuantile(ordered, quantile);
    NotAboveAtLeast(ordered, v, k + 1);
    NotBelowAtLeast(ordered, v, above);
    CountsIgnoreOrder(ordered, values, v);
  }

  lemma {:induction false} NotAboveAtLeast(values: seq<real>, v: real, n: nat)
    requires n <= |values| && forall i :: 0 <= i < n ==> values[i] <= v
    ensures NotAbove(values, v) >= n
  {
    if n > 0 { NotAboveAtLeast(values[1..], v, n - 1); }
  }

  lemma {:induction false} NotBelowAtLeast(values: seq<real>, v: real, n: nat)
    requires n <= |values| && forall i :: n <= i < |values| ==> values[i] >= v
    ensures NotBelow(values, v) >= |values| - n
  {
    if values != [] { NotBelowAtLeast(values[1..], v, if n > 0 then n - 1 else 0); }
  }

  lemma {:induction false} CountsWithout(values: seq<real>, v: real, i: nat)
    requires i < |values|
    ensures
      var rest := values[..i] + values[i + 1..];
      && NotAbove(values, v) == NotAbove(rest, v) + (if values[i] <= v then 1 else 0)
      && NotBelow(values, v) == NotBelow(rest, v) + (if values[i] >= v then 1 else 0)
  {
    var rest := values[..i] + values[i + 1..];
    if i == 0 {
      assert rest == values[1..];
    } else {
      CountsWithout(values[1..], v, i - 1);
      assert rest[1..] == values[1..][..i - 1] + values[1..][i..];
    }
  }

  lemma {:induction false} CountsIgnoreOrder(values: seq<real>, permuted: seq<real>, v: real)
    requires multiset(values) == multiset(permuted)
    ensures NotAbove(values, v) == NotAbove(permuted, v) && NotBelow(values, v) == NotBelow(permuted, v)
  {
    SameLength(values, permuted);
    if values != [] {
      HeadAndTail(values);
      assert values[0] in multiset(permuted);
      var i :| 0 <= i < |permuted| && permuted[i] == values[0];
      var rest := permuted[..i] + permuted[i + 1..];
      assert permuted == permuted[..i] + ([permuted[i]] + permuted[i + 1..]);
      assert multiset(rest) == multiset(values[1..]);
      CountsWithout(permuted, v, i);
      CountsIgnoreOrder(values[1..], rest, v);
    }
  }

  /** Between two neighbouring values the percentile moves along a straight line. */
  lemma StraightBetweenNeighbours(ordered: seq<real>, k: nat, a: real, b: real, t: real)
    requires k + 1 < |ordered| && k as real <= a <= b <= (k + 1) as real && 0.0 <= t <= 1.0
    ensures
      var between := Line(a, b, t);
      && a <= between <= b
      && Interpolate(ordered, between)
         == Interpolate(ordered, a) + t * (Interpolate(ordered, b) - Interpolate(ordered, a))
  {
    LineRises(a, b, 0.0, t);
    LineRises(a, b, t, 1.0);
    var between := Line(a, b, t);
    OnStretch(ordered, k, a);
    OnStretch(ordered, k, b);
    OnStretch(ordered, k, between);
    Affine(ordered[k], ordered[k + 1] - ordered[k], a - k as real, b - k as real, t);
  }

  lemma OnStretch(ordered: seq<real>, k: nat, p: real)
    requires k + 1 < |ordered| && k as real <= p <= (k + 1) as real
    ensures Interpolate(ordered, p) == ordered[k] + (p - k as real) * (ordered[k + 1] - ordered[k])
  {
    assert p.Floor == k || p == (k + 1) as real;
  }

  lemma Affine(low: real, gap: real, f: real, g: real, t: real)
    ensures low + (f + t * (g - f)) * gap == (low + f * gap) + t * ((low + g * gap) - (low + f * gap))
  {
    assert (f + t * (g - f)) * gap == f * gap + t * (g * gap) - t * (f * gap);
  }

  // ----- The reported tails -----------------------------------------------------

  datatype Distribution = Distribution(count: nat, p50: Outcome, p85: Outcome, p95: Outcome)

  datatype Durations = NegativeDuration | Summary(distribution: Distribution)

  /** Component 8's `duration_distribution`, without the mean. */
  function DurationDistribution(hours: seq<real>): Durations {
    if exists h :: h in hours && h < 0.0 then NegativeDuration
    else Summary(Distribution(|hours|, Quantile(hours, 0.50), Quantile(hours, 0.85), Quantile(hours, 0.95)))
  }

  /** The summary never fails on a quantile, it holds the percentiles it names, and these are
      ordered and not negative. */
  lemma TailsAreOrdered(hours: seq<real>)
    ensures DurationDistribution(hours).NegativeDuration? <==> exists h :: h in hours && h < 0.0
    ensures DurationDistribution(hours).Summary? ==>
              var d := DurationDistribution(hours).distribution;
              if hours == [] then d == Distribution(0, NoValues, NoValues, NoValues)
              else
                && d.count == |hours| && d.p50.At? && d.p85.At? && d.p95.At?
                && d.p50 == Quantile(hours, 0.5) && d.p85 == Quantile(hours, 0.85) && d.p95 == Quantile(hours, 0.95)
                && 0.0 <= d.p50.value <= d.p85.value <= d.p95.value
  {
    if hours != [] && !exists h :: h in hours && h < 0.0 {
      RisesWithQuantile(hours, 0.50, 0.85);
      RisesWithQuantile(hours, 0.85, 0.95);
      var high := Quantile(hours, 1.0).value;
      ReachesEnds(hours);
      StaysInRange(hours, 0.50, 0.0, high);
    }
  }

  /** Component 6 reports p50, p95 and p99 of the same latencies. */
  lemma LatencyTailsAreOrdered(latencies: seq<real>)
    requires latencies != []
    ensures Quantile(latencies, 0.50).At? && Quantile(latencies, 0.95).At? && Quantile(latencies, 0.99).At?
    ensures Quantile(latencies, 0.50).value <= Quantile(latencies, 0.95).value <= Quantile(latencies, 0.99).value
  {
    RisesWithQuantile(latencies, 0.50, 0.95);
    RisesWithQuantile(latencies, 0.95, 0.99);
  }
}
