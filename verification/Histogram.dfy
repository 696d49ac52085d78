/** app/metrics.py and app/metrics_summary.py: the request-duration histogram as it is stored, as it is
    rendered, and the quantile that is read back from its buckets. */
module Histogram {
  import opened Results
  import opened Sequences

  // ---------- stored and rendered buckets ----------

  const DURATION_BUCKETS: seq<real> :=
    [0.005, 0.01, 0.025, 0.05, 0.1, 0.25, 0.5, 1.0, 2.5, 5.0, 10.0, 30.0, 60.0]

  ghost predicate Increasing(bounds: seq<real>) {
    forall i, j | 0 <= i < j < |bounds| :: bounds[i] < bounds[j]
  }

  /** The observations not above a bound: what a histogram bucket is meant to show. */
  ghost function CountUpTo(observations: seq<real>, bound: real): nat {
    if observations == [] then 0
    else CountUpTo(observations[1..], bound) + if observations[0] <= bound then 1 else 0
  }

  ghost function Total(observations: seq<real>): real {
    if observations == [] then 0.0
    else Total(observations[1..]) + if observations[0] > 0.0 then observations[0] else 0.0
  }

  /** Every observation counts once, and adds what it is above zero to the sum. */
  lemma {:induction false} ObservationsAdd(a: seq<real>, b: seq<real>, bound: real)
    ensures CountUpTo(a + b, bound) == CountUpTo(a, bound) + CountUpTo(b, bound)
    ensures Total(a + b) == Total(a) + Total(b)
  {
    if a == [] {
      assert a + b == b;
    } else {
      assert (a + b)[1..] == a[1..] + b;
      ObservationsAdd(a[1..], b, bound);
    }
  }

  lemma OneObservation(o: real, bound: real)
    ensures CountUpTo([o], bound) == 1 <==> o <= bound
    ensures CountUpTo([o], bound) <= 1 && Total([o]) == if o > 0.0 then o else 0.0
  {
    assert [o][1..] == [];
  }

  /** The entry of _HTTP_REQUEST_DURATION for one method and route. */
  class DurationEntry {
    const bounds: seq<real>
    var count: nat
    var sum: real
    var buckets: array<nat>
    ghost var observations: seq<real>

    ghost predicate Valid()
      reads this, buckets
    {
      && buckets.Length == |bounds|
      && count == |observations|
      && sum == Total(observations)
      && forall i | 0 <= i < buckets.Length :: buckets[i] == CountUpTo(observations, bounds[i])
    }

    constructor (bounds: seq<real>)
      ensures Valid() && observations == [] && this.bounds == bounds && fresh(buckets)
    {
      this.bounds := bounds;
      count, sum, observations := 0, 0.0, [];
      buckets := new nat[|bounds|](_ => 0);
    }

    /** The duration part of observe_http_request: every bucket whose bound is large enough is incremented, so
        the stored buckets are already cumulative. */
    method Observe(seconds: real)
      requires Valid()
      modifies this, buckets
      ensures Valid() && buckets == old(buckets)
      ensures observations == [seconds] + old(observations)
    {
      count := count + 1;
      sum := sum + if seconds > 0.0 then seconds else 0.0;
      ghost var before := observations;
      observations := [seconds] + before;
      assert observations[1..] == before;
      for i := 0 to buckets.Length
        invariant buckets == old(buckets) && observations == [seconds] + before
        invariant count == old(count) + 1 && sum == Total(observations)
        invariant forall j | 0 <= j < i :: buckets[j] == CountUpTo(observations, bounds[j])
        invariant forall j | i <= j < buckets.Length :: buckets[j] == CountUpTo(before, bounds[j])
      {
        if seconds <= bounds[i] {
          buckets[i] := buckets[i] + 1;
        }
      }
    }

    /** The bucket lines of _render_request_metrics, which add up the stored buckets once more. */
    method RenderBuckets() returns (rendered: seq<nat>)
      requires Valid()
      ensures rendered == Rendered(observations, bounds)
    {
      rendered := [];
      var cumulative := 0;
      for i := 0 to buckets.Length
        invariant |rendered| == i
        invariant cumulative == SumOfCounts(observations, bounds, i)
        invariant forall j | 0 <= j < i :: rendered[j] == SumOfCounts(observations, bounds, j + 1)
      {
        cumulative := cumulative + buckets[i];
        rendered := rendered + [cumulative];
      }
    }
  }

  /** The sum of the true counts of the first n buckets. */
  ghost function SumOfCounts(observations: seq<real>, bounds: seq<real>, n: nat): nat
    requires n <= |bounds|
  {
    if n == 0 then 0 else SumOfCounts(observations, bounds, n - 1) + CountUpTo(observations, bounds[n - 1])
  }

  ghost function Rendered(observations: seq<real>, bounds: seq<real>): (r: seq<nat>)
    ensures |r| == |bounds|
  {
    seq(|bounds|, k requires 0 <= k < |bounds| => SumOfCounts(observations, bounds, k + 1))
  }

  lemma {:induction false} SumGrows(observations: seq<real>, bounds: seq<real>, i: nat, j: nat)
    requires i <= j <= |bounds|
    ensures SumOfCounts(observations, bounds, i) <= SumOfCounts(observations, bounds, j)
    decreases j - i
  {
    if i < j { SumGrows(observations, bounds, i, j - 1); }
  }

  /** Rendered buckets never decrease in their bound. */
  lemma RenderedNondecreasing(observations: seq<real>, bounds: seq<real>)
    ensures var r := Rendered(observations, bounds); forall i, j | 0 <= i <= j < |r| :: r[i] <= r[j]
  {
    forall i: nat, j: nat | i <= j < |bounds|
      ensures Rendered(observations, bounds)[i] <= Rendered(observations, bounds)[j]
    {
      SumGrows(observations, bounds, i + 1, j + 1);
    }
  }

  lemma {:induction false} CountGrows(observations: seq<real>, low: real, high: real)
    requires low <= high
    ensures CountUpTo(observations, low) <= CountUpTo(observations, high)
  {
    if observations != [] { CountGrows(observations[1..], low, high); }
  }

  lemma {:induction false} CountIsZero(observations: seq<real>, bound: real)
    ensures CountUpTo(observations, bound) == 0 <==> forall o | o in observations :: o > bound
  {
    if observations != [] {
      var first, rest := observations[0], observations[1..];
      CountIsZero(rest, bound);
      assert observations == [first] + rest;
      assert forall o :: o in observations <==> o == first || o in rest;
      assert first in observations;
    }
  }

  lemma {:induction false} NothingBelow(observations: seq<real>, bounds: seq<real>, n: nat)
    requires Increasing(bounds) && 0 < n <= |bounds|
    ensures SumOfCounts(observations, bounds, n) == 0 <==> CountUpTo(observations, bounds[n - 1]) == 0
  {
    if n > 1 {
      NothingBelow(observations, bounds, n - 1);
      CountGrows(observations, bounds[n - 2], bounds[n - 1]);
    }
  }

  /** A rendered bucket shows the number of observations up to its bound exactly when every observation is above
      the bound before it. */
  lemma RenderedIsTheCountIff(observations: seq<real>, bounds: seq<real>, k: nat)
    requires Increasing(bounds) && k < |bounds|
    ensures Rendered(observations, bounds)[k] == CountUpTo(observations, bounds[k])
       <==> (k > 0 ==> forall o | o in observations :: o > bounds[k - 1])
  {
    if k > 0 {
      NothingBelow(observations, bounds, k);
      CountIsZero(observations, bounds[k - 1]);
    } else {
      assert SumOfCounts(observations, bounds, 0) == 0;
    }
  }

  /** The whole rendered histogram is right exactly when no observation is within the last bound but one. */
  lemma HistogramIsTrueIff(observations: seq<real>, bounds: seq<real>)
    requires Increasing(bounds) && |bounds| > 1
    ensures (forall k | 0 <= k < |bounds| :: Rendered(observations, bounds)[k] == CountUpTo(observations, bounds[k]))
       <==> (forall o | o in observations :: o > bounds[|bounds| - 2])
  {
    forall k: nat | k < |bounds|
      ensures Rendered(observations, bounds)[k] == CountUpTo(observations, bounds[k])
         <==> (k > 0 ==> forall o | o in observations :: o > bounds[k - 1])
    {
      RenderedIsTheCountIff(observations, bounds, k);
    }
    var last := |bounds| - 1;
    assert Rendered(observations, bounds)[last] == CountUpTo(observations, bounds[last])
      <==> forall o | o in observations :: o > bounds[last - 1];
  }

  // ---------- the quantile ----------

  /** A bucket bound: float(le), or math.inf for "+Inf". */
  datatype Bound = Finite(value: real) | Infinite {
    predicate AtMost(other: Bound) {
      other.Infinite? || (Finite? && value <= other.value)
    }
  }

  datatype Bucket = Bucket(upper: Bound, count: real)

  predicate SortedByUpper(buckets: seq<Bucket>) {
    forall i, j | 0 <= i < j < |buckets| :: buckets[i].upper.AtMost(buckets[j].upper)
  }

  /** Finite bounds are at least zero. */
  predicate NonNegative(buckets: seq<Bucket>) {
    forall b | b in buckets && b.upper.Finite? :: b.upper.value >= 0.0
  }

  /** b goes behind the buckets whose bound is not larger. */
  function Insert(b: Bucket, sorted: seq<Bucket>): seq<Bucket> {
    if sorted == [] then [b]
    else if sorted[0].upper.AtMost(b.upper) then [sorted[0]] + Insert(b, sorted[1..])
    else [b] + sorted
  }

  /** buckets.sort(key=upper). */
  function Sort(buckets: seq<Bucket>): seq<Bucket> {
    if buckets == [] then [] else Insert(Last(buckets), Sort(Init(buckets)))
  }

  lemma {:induction false} InsertKeeps(b: Bucket, sorted: seq<Bucket>)
    ensures multiset(Insert(b, sorted)) == multiset(sorted) + multiset{b}
  {
    if sorted != [] {
      assert sorted == [sorted[0]] + sorted[1..];
      if sorted[0].upper.AtMost(b.upper) { InsertKeeps(b, sorted[1..]); }
    }
  }

  lemma {:induction false} InsertSorts(b: Bucket, sorted: seq<Bucket>)
    requires SortedByUpper(sorted)
    ensures SortedByUpper(Insert(b, sorted))
  {
    if sorted != [] && sorted[0].upper.AtMost(b.upper) {
      InsertSorts(b, sorted[1..]);
      var r := Insert(b, sorted[1..]);
      forall x | x in r ensures sorted[0].upper.AtMost(x.upper) {
        InsertKeeps(b, sorted[1..]);
        assert x in multiset(r);
        assert x == b || x in sorted[1..];
      }
    }
  }

  lemma {:induction false} SortSorts(buckets: seq<Bucket>)
    ensures SortedByUpper(Sort(buckets)) && multiset(Sort(buckets)) == multiset(buckets)
  {
    if buckets != [] {
      SortSorts(Init(buckets));
      InsertSorts(Last(buckets), Sort(Init(buckets)));
      InsertKeeps(Last(buckets), Sort(Init(buckets)));
      InitLast(buckets);
    }
  }

  /** The largest finite bound before bucket i, or zero. */
  function UpperBefore(buckets: seq<Bucket>, i: nat): real
    requires i <= |buckets|
  {
    if i == 0 then 0.0
    else match buckets[i - 1].upper
      case Finite(u) => u
      case Infinite => UpperBefore(buckets, i - 1)
  }

  function CountBefore(buckets: seq<Bucket>, i: nat): real
    requires i <= |buckets|
  {
    if i == 0 then 0.0 else buckets[i - 1].count
  }

  /** The first bucket at or after i whose count reaches the target. */
  function Reaching(buckets: seq<Bucket>, target: real, i: nat): (r: nat)
    requires i <= |buckets|
    ensures i <= r <= |buckets|
    ensures forall j | i <= j < r :: buckets[j].count < target
    ensures r < |buckets| ==> buckets[r].count >= target
    decreases |buckets| - i
  {
    if i < |buckets| && buckets[i].count < target then Reaching(buckets, target, i + 1) else i
  }

  /** The point a share part/whole of the way from low to high. */
  function Along(low: real, high: real, part: real, whole: real): real
    requires whole > 0.0
  {
    low + (high - low) * (part / whole)
  }

  /** The value found in bucket i. */
  function Interpolated(buckets: seq<Bucket>, target: real, i: nat): real
    requires i < |buckets|
  {
    var low, before := UpperBefore(buckets, i), CountBefore(buckets, i);
    match buckets[i].upper
    case Infinite => low
    case Finite(high) =>
      if buckets[i].count - before <= 0.0 then high else Along(low, high, target - before, buckets[i].count - before)
  }

  function ValueAt(buckets: seq<Bucket>, target: real): Option<real> {
    var i := Reaching(buckets, target, 0);
    if i < |buckets| then Some(Interpolated(buckets, target, i)) else None
  }

  function Target(total: real, q: real): real {
    total * q
  }

  function Quantile(buckets: seq<Bucket>, q: real): Option<real> {
    if buckets == [] || Last(buckets).count <= 0.0 then None else ValueAt(buckets, Target(Last(buckets).count, q))
  }

  /** The loop over the sorted buckets. */
  method FindValue(buckets: seq<Bucket>, target: real) returns (r: Option<real>)
    ensures r == ValueAt(buckets, target)
  {
    var previousUpper, previousCount := 0.0, 0.0;
    for i := 0 to |buckets|
      invariant previousUpper == UpperBefore(buckets, i) && previousCount == CountBefore(buckets, i)
      invariant Reaching(buckets, target, i) == Reaching(buckets, target, 0)
    {
      var Bucket(upper, count) := buckets[i];
      if count >= target {
        if upper.Infinite? {
          return Some(previousUpper);
        }
        var bucketCount := count - previousCount;
        if bucketCount <= 0.0 {
          return Some(upper.value);
        }
        return Some(Along(previousUpper, upper.value, target - previousCount, bucketCount));
      }
      previousUpper := if upper.Infinite? then previousUpper else upper.value;
      previousCount := count;
    }
    return None;
  }

  lemma {:induction false} UpperBeforeBounds(buckets: seq<Bucket>, i: nat)
    requires SortedByUpper(buckets) && NonNegative(buckets) && i <= |buckets|
    ensures UpperBefore(buckets, i) >= 0.0
    ensures forall j | i <= j < |buckets| && buckets[j].upper.Finite? ::
              UpperBefore(buckets, i) <= buckets[j].upper.value
    ensures forall j | 0 <= j < i && buckets[j].upper.Finite? :: buckets[j].upper.value <= UpperBefore(buckets, i)
    ensures var low := UpperBefore(buckets, i);
            low == 0.0 || exists j :: 0 <= j < i && buckets[j].upper == Finite(low)
  {
    if i > 0 {
      UpperBeforeBounds(buckets, i - 1);
      assert buckets[i - 1] in buckets;
      assert i > 1 ==> forall j | 0 <= j < i - 1 :: buckets[j].upper.AtMost(buckets[i - 1].upper);
    }
  }

  /** v lies between low and high, as far along as part is along whole. */
  ghost predicate OnLine(low: real, high: real, part: real, whole: real, v: real) {
    low <= v <= high && whole * (v - low) == part * (high - low)
  }

  lemma AlongBetween(low: real, high: real, part: real, whole: real)
    requires low <= high && 0.0 <= part <= whole && whole > 0.0
    ensures OnLine(low, high, part, whole, Along(low, high, part, whole))
  {
    var t := part / whole;
    Share(part, whole);
    Within(high - low, t);
    Rearrange(whole, high - low, t);
  }

  lemma Share(part: real, whole: real)
    requires 0.0 <= part <= whole && whole > 0.0
    ensures 0.0 <= part / whole <= 1.0 && (part / whole) * whole == part
  {
  }

  lemma Within(width: real, t: real)
    requires 0.0 <= width && 0.0 <= t <= 1.0
    ensures 0.0 <= width * t <= width
  {
  }

  lemma Rearrange(c: real, w: real, t: real)
    ensures c * (w * t) == (t * c) * w
  {
  }

  /** The largest finite bound, or zero. */
  function LastFinite(buckets: seq<Bucket>): real {
    UpperBefore(buckets, |buckets|)
  }

  lemma {:induction false} UpperBeforeInfinite(buckets: seq<Bucket>, i: nat, n: nat)
    requires SortedByUpper(buckets) && i <= n <= |buckets| && (i < n ==> buckets[i].upper.Infinite?)
    ensures UpperBefore(buckets, i) == UpperBefore(buckets, n)
    decreases n - i
  {
    if i + 1 < n {
      assert buckets[i].upper.AtMost(buckets[i + 1].upper);
      UpperBeforeInfinite(buckets, i + 1, n);
    }
  }

  /** For 0 <= q <= 1 and a positive total a value is found, in the first bucket whose count reaches the target:
      between its lower and upper bound, and where the interpolated count is the target; in a bucket without an
      upper bound it is the largest finite bound. */
  lemma {:induction false} QuantileInItsBucket(buckets: seq<Bucket>, q: real)
    requires SortedByUpper(buckets) && NonNegative(buckets)
    requires buckets != [] && Last(buckets).count > 0.0 && 0.0 <= q <= 1.0
    ensures Quantile(buckets, q).Some?
    ensures Brackets(buckets, Target(Last(buckets).count, q), Quantile(buckets, q).value)
  {
    TargetMonotone(Last(buckets).count, q, q);
    ValueInItsBucket(buckets, Target(Last(buckets).count, q));
  }

  ghost predicate Brackets(buckets: seq<Bucket>, target: real, v: real) {
    var i := Reaching(buckets, target, 0);
    i < |buckets| && InBucket(buckets, target, i, v)
  }

  lemma {:induction false} ValueInItsBucket(buckets: seq<Bucket>, target: real)
    requires SortedByUpper(buckets) && NonNegative(buckets)
    requires buckets != [] && 0.0 <= target <= Last(buckets).count
    ensures ValueAt(buckets, target).Some? && Brackets(buckets, target, ValueAt(buckets, target).value)
    ensures ValueAt(buckets, target).value == Interpolated(buckets, target, Reaching(buckets, target, 0))
  {
    var i := Reaching(buckets, target, 0);
    assert i < |buckets|;
    InterpolatedInBucket(buckets, target, i);
  }

  ghost predicate InBucket(buckets: seq<Bucket>, target: real, i: nat, v: real)
    requires i < |buckets|
  {
    var low, before := UpperBefore(buckets, i), CountBefore(buckets, i);
    match buckets[i].upper
    case Infinite => v == LastFinite(buckets)
    case Finite(high) =>
      if buckets[i].count - before <= 0.0 then low <= v && v == high
      else OnLine(low, high, target - before, buckets[i].count - before, v)
  }

  lemma LowerBound(buckets: seq<Bucket>, i: nat)
    requires SortedByUpper(buckets) && NonNegative(buckets) && i < |buckets|
    ensures 0.0 <= UpperBefore(buckets, i)
    ensures buckets[i].upper.Finite? ==> UpperBefore(buckets, i) <= buckets[i].upper.value
  {
  }

  lemma {:induction false} InterpolatedInBucket(buckets: seq<Bucket>, target: real, i: nat)
    requires SortedByUpper(buckets) && NonNegative(buckets)
    requires target >= 0.0 && i == Reaching(buckets, target, 0) < |buckets|
    ensures InBucket(buckets, target, i, Interpolated(buckets, target, i))
    ensures buckets[i].upper.Finite? ==>
              UpperBefore(buckets, i) <= Interpolated(buckets, target, i) <= buckets[i].upper.value
  {
    var before := CountBefore(buckets, i);
    LowerBound(buckets, i);
    if buckets[i].upper.Infinite? {
      UpperBeforeInfinite(buckets, i, |buckets|);
    } else if buckets[i].count - before > 0.0 {
      AlongBetween(UpperBefore(buckets, i), buckets[i].upper.value, target - before, buckets[i].count - before);
    }
  }

  lemma SortedRows(rows: seq<Bucket>)
    requires NonNegative(rows)
    ensures SortedByUpper(Sort(rows)) && NonNegative(Sort(rows))
  {
    SortSorts(rows);
    forall b | b in Sort(rows) ensures b in rows {
      assert b in multiset(Sort(rows));
    }
  }

  /** histogram_quantile on the bucket rows. */
  method HistogramQuantile(rows: seq<Bucket>, q: real) returns (r: Option<real>)
    ensures r == Quantile(Sort(rows), q)
    ensures var buckets := Sort(rows);
            if buckets == [] || Last(buckets).count <= 0.0 then r == None
            else NonNegative(rows) && 0.0 <= q <= 1.0 ==>
                   r.Some? && Brackets(buckets, Target(Last(buckets).count, q), r.value)
  {
    var buckets := Sort(rows);
    if buckets == [] {
      return None;
    }
    var total := Last(buckets).count;
    if total <= 0.0 {
      return None;
    }
    r := FindValue(buckets, Target(total, q));
    if NonNegative(rows) && 0.0 <= q <= 1.0 {
      SortedRows(rows);
      QuantileInItsBucket(buckets, q);
    }
  }

  /** The quantile never falls when q grows; the counts need not even be nondecreasing. */
  lemma {:induction false} QuantileMonotone(buckets: seq<Bucket>, q1: real, q2: real)
    requires SortedByUpper(buckets) && NonNegative(buckets)
    requires buckets != [] && Last(buckets).count > 0.0 && 0.0 <= q1 <= q2 <= 1.0
    ensures Quantile(buckets, q1).Some? && Quantile(buckets, q2).Some?
    ensures Quantile(buckets, q1).value <= Quantile(buckets, q2).value
  {
    var total := Last(buckets).count;
    TargetMonotone(total, q1, q2);
    ValueMonotone(buckets, Target(total, q1), Target(total, q2));
  }

  lemma TargetMonotone(total: real, q1: real, q2: real)
    requires total > 0.0 && 0.0 <= q1 <= q2 <= 1.0
    ensures 0.0 <= Target(total, q1) <= Target(total, q2) <= total
  {
  }

  lemma ValueMonotone(buckets: seq<Bucket>, target1: real, target2: real)
    requires SortedByUpper(buckets) && NonNegative(buckets)
    requires buckets != [] && 0.0 <= target1 <= target2 <= Last(buckets).count
    ensures ValueAt(buckets, target1).Some? && ValueAt(buckets, target2).Some?
    ensures ValueAt(buckets, target1).value <= ValueAt(buckets, target2).value
  {
    ValueInItsBucket(buckets, target1);
    ValueInItsBucket(buckets, target2);
    var i, j := Reaching(buckets, target1, 0), Reaching(buckets, target2, 0);
    if i == j {
      SameBucketMonotone(buckets, target1, target2, i);
    } else {
      LaterBucketMonotone(buckets, target1, target2, i, j);
    }
  }

  lemma SameBucketMonotone(buckets: seq<Bucket>, target1: real, target2: real, i: nat)
    requires SortedByUpper(buckets) && NonNegative(buckets)
    requires target1 <= target2 && i < |buckets|
    ensures Interpolated(buckets, target1, i) <= Interpolated(buckets, target2, i)
  {
  }

  lemma Grows(width: real, s: real, t: real)
    requires 0.0 <= width && s <= t
    ensures width * s <= width * t
  {
  }

  lemma LaterBucketMonotone(buckets: seq<Bucket>, target1: real, target2: real, i: nat, j: nat)
    requires SortedByUpper(buckets) && NonNegative(buckets) && 0.0 <= target1 && 0.0 <= target2
    requires i == Reaching(buckets, target1, 0) && j == Reaching(buckets, target2, 0) && i < j < |buckets|
    ensures Interpolated(buckets, target1, i) <= Interpolated(buckets, target2, j)
  {
    InterpolatedInBucket(buckets, target1, i);
    InterpolatedInBucket(buckets, target2, j);
    UpperBeforeBounds(buckets, j);
    assert buckets[i].upper.AtMost(buckets[j].upper);
    UpperBeforeBounds(buckets, |buckets|);
  }

  lemma DurationBucketsIncrease()
    ensures Increasing(DURATION_BUCKETS)
  {
  }

  function Rows(bounds: seq<real>, counts: seq<nat>): seq<Bucket>
    requires |bounds| == |counts|
  {
    seq(|bounds|, i requires 0 <= i < |bounds| => Bucket(Finite(bounds[i]), counts[i] as real))
  }

  /** What the buckets are meant to show. */
  ghost function TrueCounts(observations: seq<real>, bounds: seq<real>): (r: seq<nat>)
    ensures |r| == |bounds|
  {
    seq(|bounds|, k requires 0 <= k < |bounds| => CountUpTo(observations, bounds[k]))
  }

  const TWO_REQUESTS := [0.005, 60.0]

  lemma TwoRequestCounts(k: nat)
    requires k < 13
    ensures CountUpTo(TWO_REQUESTS, DURATION_BUCKETS[k]) == if k < 12 then 1 else 2
  {
    assert TWO_REQUESTS[1..] == [60.0];
  }

  lemma {:induction false} TwoRequestSums(n: nat)
    requires n <= 13
    ensures SumOfCounts(TWO_REQUESTS, DURATION_BUCKETS, n) == if n <= 12 then n else 14
  {
    if n > 0 {
      TwoRequestSums(n - 1);
      TwoRequestCounts(n - 1);
    }
  }

  /** Two requests of 5 ms and 60 s: the true counts put the median at 5 ms, the rendered ones at half a
      second. */
  lemma RenderedMedianIsOff()
    ensures Quantile(Rows(DURATION_BUCKETS, TrueCounts(TWO_REQUESTS, DURATION_BUCKETS)), 0.5) == Some(0.005)
    ensures Quantile(Rows(DURATION_BUCKETS, Rendered(TWO_REQUESTS, DURATION_BUCKETS)), 0.5) == Some(0.5)
  {
    var shown := Rows(DURATION_BUCKETS, TrueCounts(TWO_REQUESTS, DURATION_BUCKETS));
    TwoRequestCounts(0);
    TwoRequestCounts(12);
    assert Last(shown).count == 2.0 && shown[0].count == 1.0;
    assert ValueAt(shown, 1.0) == Some(0.005);
    var rows := Rows(DURATION_BUCKETS, Rendered(TWO_REQUESTS, DURATION_BUCKETS));
    forall k: nat | k < 13 ensures rows[k].count == if k < 12 then (k + 1) as real else 14.0 {
      TwoRequestSums(k + 1);
    }
    assert rows[6].count == 7.0 && rows[5].count == 6.0;
    assert Reaching(rows, 7.0, 0) == 6;
    assert UpperBefore(rows, 6) == 0.25;
    assert ValueAt(rows, 7.0) == Some(0.5);
  }
}
