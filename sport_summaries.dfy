/** Per-sport summaries over a list of activities, field totals, and
    first/last non-null lookups. */
module SportSummaries {
  import opened Wrappers
  import opened Activities

  /** The raw activity fields that are totalled with a 0 default. */
  datatype RawField = ElevationGainField | DistanceField | DurationField

  /** The value of a totalled field, 0 when the record lacks it. */
  function FieldValue(a: Activity, f: RawField): real
  {
    match f
    case ElevationGainField => ElevationGain(a)
    case DistanceField => Distance(a)
    case DurationField => a.duration
  }

  /** The total of a field over `acts`, added up from the front starting at 0. */
  function SummarizeField(acts: seq<Activity>, f: RawField): real
  {
    if |acts| == 0 then 0.0
    else SummarizeField(acts[..|acts| - 1], f) + FieldValue(acts[|acts| - 1], f)
  }

  /** Totals split over a concatenation. */
  lemma {:induction false} SummarizeFieldAppend(xs: seq<Activity>, ys: seq<Activity>, f: RawField)
    ensures SummarizeField(xs + ys, f) == SummarizeField(xs, f) + SummarizeField(ys, f)
    decreases |ys|
  {
    if |ys| > 0 {
      var ys' := ys[..|ys| - 1];
      assert (xs + ys)[..|xs + ys| - 1] == xs + ys';
      SummarizeFieldAppend(xs, ys', f);
    } else {
      assert xs + ys == xs;
    }
  }

  /** The averaged quantities of a sport summary. */
  datatype Metric = DistanceMetric | DurationMetric | HeartRateMetric

  /** What an activity adds to a metric's sum, when its value passes the truthiness
      test (present, not null and not zero); nothing otherwise. */
  function Contribution(a: Activity, m: Metric): (c: Option<real>)
    ensures c.Some? ==> c.value != 0.0
  {
    match m
    case DistanceMetric =>
      if a.distance.Some? && a.distance.value != 0.0 then Some(a.distance.value) else None
    case DurationMetric =>
      if a.duration != 0.0 then Some(a.duration) else None
    case HeartRateMetric =>
      if a.averageHR.Num? && a.averageHR.x != 0.0 then Some(a.averageHR.x) else None
  }

  /** The sum of the contributions of `acts` to `m`. */
  function ContributedSum(acts: seq<Activity>, m: Metric): real
  {
    if |acts| == 0 then 0.0
    else ContributedSum(acts[..|acts| - 1], m) + Contribution(acts[|acts| - 1], m).GetOr(0.0)
  }

  /** The number of activities of `acts` that contribute to `m`. */
  function ContributorCount(acts: seq<Activity>, m: Metric): (n: nat)
    ensures n <= |acts|
    ensures n == 0 ==> ContributedSum(acts, m) == 0.0
  {
    if |acts| == 0 then 0
    else ContributorCount(acts[..|acts| - 1], m) + (if Contribution(acts[|acts| - 1], m).Some? then 1 else 0)
  }

  /** An average with a zero fallback when nothing contributed. */
  function Average(sum: real, n: nat): real
  {
    if n > 0 then sum / n as real else 0.0
  }

  /** `n` copies of `bound` added up. */
  function Scaled(bound: real, n: nat): real
  {
    if n == 0 then 0.0 else Scaled(bound, n - 1) + bound
  }

  lemma {:induction false} ScaledIsProduct(bound: real, n: nat)
    ensures Scaled(bound, n) == bound * n as real
  {
    if n > 0 {
      ScaledIsProduct(bound, n - 1);
      assert bound * n as real == bound * (n - 1) as real + bound;
    }
  }

  /** A sum of contributions that each lie in `[0, bound]` is at most `bound` per contributor. */
  lemma {:induction false} ContributedSumBounded(acts: seq<Activity>, m: Metric, bound: real)
    requires forall a :: a in acts && Contribution(a, m).Some? ==> 0.0 <= Contribution(a, m).value <= bound
    ensures 0.0 <= ContributedSum(acts, m) <= Scaled(bound, ContributorCount(acts, m))
  {
    if |acts| > 0 {
      var init, last := acts[..|acts| - 1], acts[|acts| - 1];
      assert forall a :: a in init ==> a in acts;
      ContributedSumBounded(init, m, bound);
      if Contribution(last, m).Some? {
        assert last in acts;
      }
    }
  }

  /** The average of contributions that lie in `[0, bound]` lies in `[0, bound]` too. */
  lemma AverageBounded(acts: seq<Activity>, m: Metric, bound: real)
    requires 0.0 <= bound
    requires forall a :: a in acts && Contribution(a, m).Some? ==> 0.0 <= Contribution(a, m).value <= bound
    ensures 0.0 <= Average(ContributedSum(acts, m), ContributorCount(acts, m)) <= bound
  {
    var sum, n := ContributedSum(acts, m), ContributorCount(acts, m);
    ContributedSumBounded(acts, m, bound);
    ScaledIsProduct(bound, n);
    AverageWithin(sum, n, bound);
  }

  /** An average of `n` values in `[0, bound]` lies in `[0, bound]`. */
  lemma AverageWithin(sum: real, n: nat, bound: real)
    requires 0.0 <= bound
    requires 0.0 <= sum <= bound * n as real
    ensures 0.0 <= Average(sum, n) <= bound
  {
    if n > 0 {
      var r := n as real;
      assert sum / r <= (bound * r) / r;
    }
  }

  /** The summary of one sport's activities. */
  datatype SportStats = SportStats(
    distance: real,
    duration: real,
    elevationGain: real,
    count: nat,
    avgHr: real,
    avgDistance: real,
    avgDuration: real)

  /** The summary of a non-empty list of activities: the count, the sums of the
      contributed distances and durations, the total elevation gain, and the mean
      heart rate, distance and duration over the activities that contributed each. */
  function StatsOf(acts: seq<Activity>): SportStats
  {
    SportStats(
      ContributedSum(acts, DistanceMetric),
      ContributedSum(acts, DurationMetric),
      SummarizeField(acts, ElevationGainField),
      |acts|,
      Average(ContributedSum(acts, HeartRateMetric), ContributorCount(acts, HeartRateMetric)),
      Average(ContributedSum(acts, DistanceMetric), ContributorCount(acts, DistanceMetric)),
      Average(ContributedSum(acts, DurationMetric), ContributorCount(acts, DurationMetric)))
  }

  /** `sport_summary`: no summary of an empty list, otherwise `StatsOf`. */
  function SummaryOf(acts: seq<Activity>): Option<SportStats>
  {
    if |acts| == 0 then None else Some(StatsOf(acts))
  }

  /** Summarises a sport's activities in one loop; there is no summary of an empty list. */
  method SportSummary(acts: seq<Activity>) returns (r: Option<SportStats>)
    ensures r.None? <==> |acts| == 0
    ensures r.Some? ==> r.value == StatsOf(acts)
  {
    var count := |acts|;
    if count == 0 {
      return None;
    }
    var distance, duration, elevationGain := 0.0, 0.0, 0.0;
    var avgHrSum := 0.0;
    var durationActCount, distanceActCount, hrActCount := 0, 0, 0;
    var i := 0;
    while i < |acts|
      invariant 0 <= i <= |acts|
      invariant distance == ContributedSum(acts[..i], DistanceMetric)
      invariant distanceActCount == ContributorCount(acts[..i], DistanceMetric)
      invariant duration == ContributedSum(acts[..i], DurationMetric)
      invariant durationActCount == ContributorCount(acts[..i], DurationMetric)
      invariant avgHrSum == ContributedSum(acts[..i], HeartRateMetric)
      invariant hrActCount == ContributorCount(acts[..i], HeartRateMetric)
      invariant elevationGain == SummarizeField(acts[..i], ElevationGainField)
    {
      var act := acts[i];
      assert acts[..i + 1][..i] == acts[..i];
      if act.distance.Some? && act.distance.value != 0.0 {
        distance := distance + act.distance.value;
        distanceActCount := distanceActCount + 1;
      }
      if act.duration != 0.0 {
        duration := duration + act.duration;
        durationActCount := durationActCount + 1;
      }
      if act.averageHR.Num? && act.averageHR.x != 0.0 {
        hrActCount := hrActCount + 1;
        avgHrSum := avgHrSum + act.averageHR.x;
      }
      elevationGain := elevationGain + ElevationGain(act);
      i := i + 1;
    }
    assert acts[..i] == acts;
    var avgHr := if hrActCount > 0 then avgHrSum / hrActCount as real else 0.0;
    var avgDistance := if distanceActCount > 0 then distance / distanceActCount as real else 0.0;
    var avgDuration := if durationActCount > 0 then duration / durationActCount as real else 0.0;
    return Some(SportStats(distance, duration, elevationGain, count, avgHr, avgDistance, avgDuration));
  }

  /** A record whose `field` lookup raised. */
  datatype LookupError = KeyError(field: string)

  /** Every one of the rows at positions in `[lo, hi)` has `field`, and it is null there. */
  ghost predicate NullBetween(rows: seq<map<string, Option<real>>>, field: string, lo: int, hi: int)
    requires 0 <= lo && hi <= |rows|
  {
    forall j :: lo <= j < hi ==> field in rows[j] && rows[j][field].None?
  }

  /** The first non-null value of `field`, scanning from the front; looking up a
      record that lacks the field raises. */
  method FindFirst(rows: seq<map<string, Option<real>>>, field: string)
    returns (r: Result<Option<real>, LookupError>)
    ensures r.Ok? && r.value.Some? ==>
      exists i :: 0 <= i < |rows| && NullBetween(rows, field, 0, i) && field in rows[i] && rows[i][field] == r.value
    ensures r == Ok(None) ==> NullBetween(rows, field, 0, |rows|)
    ensures r.Err? ==> r.error == KeyError(field)
    ensures r.Err? ==> exists i :: 0 <= i < |rows| && NullBetween(rows, field, 0, i) && field !in rows[i]
  {
    var i := 0;
    while i < |rows|
      invariant 0 <= i <= |rows|
      invariant NullBetween(rows, field, 0, i)
    {
      if field !in rows[i] {
        return Err(KeyError(field));
      }
      if rows[i][field].Some? {
        return Ok(rows[i][field]);
      }
      i := i + 1;
    }
    return Ok(None);
  }

  /** The last non-null value of `field`, scanning from the back; looking up a
      record that lacks the field raises. */
  method FindLast(rows: seq<map<string, Option<real>>>, field: string)
    returns (r: Result<Option<real>, LookupError>)
    ensures r.Ok? && r.value.Some? ==>
      exists i :: 0 <= i < |rows| && NullBetween(rows, field, i + 1, |rows|) && field in rows[i] && rows[i][field] == r.value
    ensures r == Ok(None) ==> NullBetween(rows, field, 0, |rows|)
    ensures r.Err? ==> r.error == KeyError(field)
    ensures r.Err? ==> exists i :: 0 <= i < |rows| && NullBetween(rows, field, i + 1, |rows|) && field !in rows[i]
  {
    var i := |rows|;
    while i > 0
      invariant 0 <= i <= |rows|
      invariant NullBetween(rows, field, i, |rows|)
    {
      i := i - 1;
      if field !in rows[i] {
        return Err(KeyError(field));
      }
      if rows[i][field].Some? {
        return Ok(rows[i][field]);
      }
    }
    return Ok(None);
  }
}
