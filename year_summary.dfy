/** What the script writes after the pass over the year: the per-sport summaries,
    the sorted time-of-day list, the three sport rankings, the active-day counts and
    the yearly totals; and the choice of the year itself. */
module YearSummary {
  import opened Wrappers
  import opened Activities
  import opened SportSummaries
  import opened SortedLists
  import opened Aggregation

  // ----- The year -----

  /** By (`todayYear`, `todayMonth`) the July of `y` has begun. */
  predicate JulyBegun(y: int, todayYear: int, todayMonth: Month)
  {
    y < todayYear || (y == todayYear && todayMonth >= 7)
  }

  /** The year given on the command line; without one, the latest year whose
      second half has begun. */
  function ChooseYear(arg: Option<int>, todayYear: int, todayMonth: Month): (y: int)
    ensures arg.Some? ==> y == arg.value
    ensures arg.None? ==> JulyBegun(y, todayYear, todayMonth) && !JulyBegun(y + 1, todayYear, todayMonth)
  {
    if arg.Some? then arg.value
    else if todayMonth > 6 then todayYear
    else todayYear - 1
  }

  // ----- Per-sport summaries -----

  /** The summary of every sport's list of activities. */
  function Summaries(grouped: map<string, seq<Activity>>): map<string, Option<SportStats>>
  {
    map s | s in grouped :: SummaryOf(grouped[s])
  }

  /** After the pass, there is a summary exactly for each sport that has activities,
      and it summarises that sport's activities. */
  lemma SummariesOfPass(acts: seq<Activity>, grouped: map<string, seq<Activity>>, order: seq<string>)
    requires GroupsDescribe(acts, grouped, order)
    ensures forall s :: s in Summaries(grouped) <==> |OfSport(acts, s)| > 0
    ensures forall s :: s in Summaries(grouped) ==> Summaries(grouped)[s] == Some(StatsOf(OfSport(acts, s)))
  {
  }

  /** The summed activity counts of the summaries of `order`'s sports. */
  function SummedCounts(sums: map<string, Option<SportStats>>, order: seq<string>): nat
    requires forall s :: s in order ==> s in sums
  {
    if |order| == 0 then 0
    else
      var last := sums[order[|order| - 1]];
      SummedCounts(sums, order[..|order| - 1]) + (if last.Some? then last.value.count else 0)
  }

  lemma {:induction false} SummedCountsAreLengths(grouped: map<string, seq<Activity>>, order: seq<string>)
    requires forall s :: s in order ==> s in grouped
    ensures SummedCounts(Summaries(grouped), order) == SumLengths(grouped, order)
  {
    if |order| > 0 {
      SummedCountsAreLengths(grouped, order[..|order| - 1]);
    }
  }

  /** The sport counts add up to the activities that have a sport, which are at most all of them. */
  lemma SportCountsAddUp(acts: seq<Activity>, grouped: map<string, seq<Activity>>, order: seq<string>)
    requires GroupsDescribe(acts, grouped, order)
    ensures SummedCounts(Summaries(grouped), order) == KnownCount(acts) <= |acts|
  {
    SummedCountsAreLengths(grouped, order);
  }

  // ----- Rankings -----

  /** The summary fields the sports are ranked by. */
  datatype RankField = ByDuration | ByDistance | ByElevationGain

  function RankKey(f: RankField): string
  {
    match f
    case ByDuration => "duration"
    case ByDistance => "distance"
    case ByElevationGain => "elevation_gain"
  }

  function StatValue(st: SportStats, f: RankField): real
  {
    match f
    case ByDuration => st.duration
    case ByDistance => st.distance
    case ByElevationGain => st.elevationGain
  }

  /** A summary as the dictionary the script builds and sorts. */
  function SummaryRecord(st: SportStats): (r: map<string, real>)
    ensures forall f: RankField :: RankKey(f) in r && r[RankKey(f)] == StatValue(st, f)
  {
    map[
      "distance" := st.distance,
      "duration" := st.duration,
      "elevation_gain" := st.elevationGain,
      "count" := st.count as real,
      "avg_hr" := st.avgHr,
      "avg_distance" := st.avgDistance,
      "avg_duration" := st.avgDuration]
  }

  ghost predicate AllSummarised(sums: map<string, Option<SportStats>>)
  {
    forall s :: s in sums ==> sums[s].Some?
  }

  /** `names` lists every sport of `sums` once, in non-increasing order of `f`. */
  ghost predicate RankedBy(sums: map<string, Option<SportStats>>, names: seq<string>, f: RankField)
  {
    && AllSummarised(sums)
    && |names| == |sums|
    && (forall s :: s in names <==> s in sums)
    && (forall i, j :: 0 <= i < j < |names| ==> names[i] != names[j])
    && (forall i, j :: 0 <= i < j < |names| ==> StatValue(sums[names[i]].value, f) >= StatValue(sums[names[j]].value, f))
  }

  /** The summaries as the dictionary of dictionaries that is sorted. */
  function SummaryDict(sums: map<string, Option<SportStats>>): (d: map<string, Value>)
    requires AllSummarised(sums)
    ensures d.Keys == sums.Keys
  {
    map s | s in sums :: Record(SummaryRecord(sums[s].value))
  }

  /** The summary dictionary can be sorted by any ranking field, in the order of the sports. */
  lemma SummaryDictSortable(sums: map<string, Option<SportStats>>, order: seq<string>, f: RankField, d: map<string, Value>)
    requires IsKeyOrder(sums, order) && AllSummarised(sums) && d == SummaryDict(sums)
    ensures IsKeyOrder(d, order) && HasSortField(d, RankKey(f), "value")
  {
    forall k | k in d
      ensures RankKey(f) in DictToList(k, d[k], "value").fields
    {
      assert d[k] == Record(SummaryRecord(sums[k].value));
    }
  }

  /** The names of a sorted list of the summaries rank the sports. */
  lemma NamesRank(sums: map<string, Option<SportStats>>, d: map<string, Value>, list: seq<Tagged>, f: RankField, names: seq<string>)
    requires AllSummarised(sums) && d == SummaryDict(sums)
    requires SortedDesc(list, RankKey(f)) && |list| == |d|
    requires forall t :: t in list ==> t.name in d && t == DictToList(t.name, d[t.name], "value")
    requires forall k :: k in d ==> exists i :: 0 <= i < |list| && list[i].name == k
    requires forall i, j :: 0 <= i < j < |list| ==> list[i].name != list[j].name
    requires |names| == |list| && forall i :: 0 <= i < |list| ==> names[i] == list[i].name
    ensures RankedBy(sums, names, f)
  {
    forall i | 0 <= i < |list|
      ensures Key(list[i], RankKey(f)) == StatValue(sums[names[i]].value, f)
    {
      assert list[i] in list;
    }
    forall s | s in sums
      ensures s in names
    {
      var i :| 0 <= i < |list| && list[i].name == s;
      assert names[i] == s;
    }
    forall s | s in names
      ensures s in sums
    {
      var i :| 0 <= i < |names| && names[i] == s;
      assert list[i] in list;
    }
  }

  /** The names of the tagged entries, in order. */
  function NamesOf(list: seq<Tagged>): (names: seq<string>)
    ensures |names| == |list| && forall i :: 0 <= i < |list| ==> names[i] == list[i].name
  {
    seq(|list|, i requires 0 <= i < |list| => list[i].name)
  }

  /** The sport names by non-increasing `f`: the summaries, tagged and sorted, reduced to their names. */
  method RankSports(sums: map<string, Option<SportStats>>, order: seq<string>, f: RankField)
    returns (names: seq<string>)
    requires IsKeyOrder(sums, order) && AllSummarised(sums)
    ensures RankedBy(sums, names, f)
  {
    var d := SummaryDict(sums);
    SummaryDictSortable(sums, order, f, d);
    var list := BuildSortedList(d, order, RankKey(f), "value");
    names := NamesOf(list);
    NamesRank(sums, d, list, f, names);
  }

  // ----- Time of day -----

  /** `list` holds one `count` record per bucket of `perTod`, by non-increasing count. */
  ghost predicate TodListed(perTod: map<string, real>, list: seq<Tagged>)
  {
    && |list| == |perTod|
    && SortedDesc(list, "count")
    && (forall i, j :: 0 <= i < j < |list| ==> list[i].name != list[j].name)
    && (forall t :: t in list ==> t.name in perTod && t.fields == map["count" := perTod[t.name]])
    && (forall n :: n in perTod ==> exists i :: 0 <= i < |list| && list[i].name == n)
  }

  /** The time-of-day buckets, tagged and sorted by their counts. */
  method TimeOfDayList(perTod: map<string, real>, order: seq<string>) returns (list: seq<Tagged>)
    requires IsKeyOrder(perTod, order)
    ensures TodListed(perTod, list)
  {
    var d := map n | n in perTod :: Scalar(perTod[n]);
    assert d.Keys == perTod.Keys;
    list := BuildSortedList(d, order, "count", "count");
  }

  // ----- Active days and totals -----

  /** The number of active days of each month. */
  function ActiveDayCounts(activeDays: map<Month, set<int>>): map<Month, nat>
  {
    map m | m in activeDays :: |activeDays[m]|
  }

  /** The left fold `x + y` over the counts of the months `1..m`. */
  function DaysUpTo(counts: map<Month, nat>, m: int): nat
    requires 0 <= m <= 12
    requires forall k: Month :: k in counts
  {
    if m == 0 then 0 else DaysUpTo(counts, m - 1) + counts[m]
  }

  /** The yearly totals. */
  datatype Totals = Totals(elevationGain: real, distance: real, duration: real, count: nat, activeDays: nat)

  /** The totals of all activities of the year, whatever their sport. */
  function TotalsOf(acts: seq<Activity>, counts: map<Month, nat>): Totals
    requires forall k: Month :: k in counts
  {
    Totals(SummarizeField(acts, ElevationGainField), SummarizeField(acts, DistanceField),
           SummarizeField(acts, DurationField), |acts|, DaysUpTo(counts, 12))
  }

  // ----- Month sums -----

  /** What one activity adds to a quantity. */
  function AmountOfOne(a: Activity, q: Quantity): real
  {
    match q
    case Count => 1.0
    case Total(f) => FieldValue(a, f)
  }

  lemma AmountStep(ms: seq<Activity>, a: Activity, q: Quantity)
    ensures Amount(ms + [a], q) == Amount(ms, q) + AmountOfOne(a, q)
  {
    var ms' := ms + [a];
    assert ms'[..|ms'| - 1] == ms;
  }

  /** A quantity summed over the monthly counters of the months `1..m`. */
  function MonthlySum(monthly: map<Month, map<string, real>>, q: Quantity, m: int): real
    requires 0 <= m <= 12
    requires forall k: Month :: k in monthly
  {
    if m == 0 then 0.0 else MonthlySum(monthly, q, m - 1) + Counters.ValueOr0(monthly[m], EntryKey(q))
  }

  /** A quantity summed over the activities of each of the months `1..m`. */
  ghost function MonthSum(acts: seq<Activity>, q: Quantity, m: int): real
    requires 0 <= m <= 12
  {
    if m == 0 then 0.0 else MonthSum(acts, q, m - 1) + Amount(InMonth(acts, m), q)
  }

  lemma MonthlyIsMonthSum(acts: seq<Activity>, monthly: map<Month, map<string, real>>, q: Quantity, m: int)
    requires 0 <= m <= 12
    requires MonthlyDescribes(acts, monthly)
    ensures MonthlySum(monthly, q, m) == MonthSum(acts, q, m)
  {
    if m > 0 {
      MonthlyIsMonthSum(acts, monthly, q, m - 1);
    }
  }

  lemma InMonthStep(p: seq<Activity>, a: Activity, m: Month)
    ensures InMonth(p + [a], m) == InMonth(p, m) + (if a.month == m then [a] else [])
  {
    var p' := p + [a];
    assert p'[..|p'| - 1] == p;
  }

  lemma MonthSumStep(p: seq<Activity>, a: Activity, q: Quantity, m: int)
    requires 0 <= m <= 12
    ensures MonthSum(p + [a], q, m) == MonthSum(p, q, m) + (if a.month <= m then AmountOfOne(a, q) else 0.0)
  {
    if m > 0 {
      MonthSumStep(p, a, q, m - 1);
      AmountInMonthStep(p, a, q, m);
    }
  }

  lemma AmountInMonthStep(p: seq<Activity>, a: Activity, q: Quantity, m: Month)
    ensures Amount(InMonth(p + [a], m), q) == Amount(InMonth(p, m), q) + (if a.month == m then AmountOfOne(a, q) else 0.0)
  {
    InMonthStep(p, a, m);
    if a.month == m {
      AmountStep(InMonth(p, m), a, q);
    } else {
      assert InMonth(p + [a], m) == InMonth(p, m);
    }
  }

  lemma {:induction false} MonthSumIsAmount(p: seq<Activity>, q: Quantity)
    ensures MonthSum(p, q, 12) == Amount(p, q)
  {
    if |p| == 0 {
      ZeroMonthSum(p, q, 12);
    } else {
      var init, a := p[..|p| - 1], p[|p| - 1];
      assert init + [a] == p;
      MonthSumIsAmount(init, q);
      MonthSumStep(init, a, q, 12);
      AmountStep(init, a, q);
    }
  }

  lemma {:induction false} ZeroMonthSum(p: seq<Activity>, q: Quantity, m: int)
    requires |p| == 0 && 0 <= m <= 12
    ensures MonthSum(p, q, m) == 0.0
  {
    if m > 0 {
      ZeroMonthSum(p, q, m - 1);
    }
  }

  /** The monthly counters of the year add up, quantity by quantity, to the year's totals. */
  lemma MonthlyAddsUp(acts: seq<Activity>, monthly: map<Month, map<string, real>>, q: Quantity)
    requires MonthlyDescribes(acts, monthly)
    ensures MonthlySum(monthly, q, 12) == Amount(acts, q)
  {
    MonthlyIsMonthSum(acts, monthly, q, 12);
    MonthSumIsAmount(acts, q);
  }

  // ----- Active-day sums -----

  /** The active days of the months `1..m`. */
  ghost function DaySum(acts: seq<Activity>, m: int): nat
    requires 0 <= m <= 12
  {
    if m == 0 then 0 else DaySum(acts, m - 1) + |ActiveDays(acts, m)|
  }

  lemma ActiveDaysStepAt(p: seq<Activity>, a: Activity, m: Month)
    ensures ActiveDays(p + [a], m) == ActiveDays(p, m) + (if a.month == m then {a.day} else {})
  {
    var p' := p + [a];
    assert p'[..|p'| - 1] == p;
  }

  /** Adding one element grows a set by at most one. */
  lemma CardAddOne(s: set<int>, x: int)
    ensures |s| <= |s + {x}| <= |s| + 1
  {
    if x in s {
      assert s + {x} == s;
    }
  }

  /** One more activity adds at most one active day, in its own month. */
  lemma DaySumStep(p: seq<Activity>, a: Activity, m: int)
    requires 0 <= m <= 12
    ensures DaySum(p + [a], m) <= DaySum(p, m) + (if a.month <= m then 1 else 0)
    ensures DaySum(p, m) <= DaySum(p + [a], m)
  {
    if m > 0 {
      DaySumStep(p, a, m - 1);
      ActiveDaysStepAt(p, a, m);
      if a.month == m {
        CardAddOne(ActiveDays(p, m), a.day);
      } else {
        assert ActiveDays(p + [a], m) == ActiveDays(p, m);
      }
    }
  }

  lemma DaySumCovers(p: seq<Activity>, k: Month, m: int)
    requires k <= m <= 12
    ensures |ActiveDays(p, k)| <= DaySum(p, m)
  {
    if m > k {
      DaySumCovers(p, k, m - 1);
    }
  }

  /** There are no more active days than activities, and at least one when there is an activity. */
  lemma {:induction false} DaySumBounds(p: seq<Activity>)
    ensures DaySum(p, 12) <= |p|
    ensures |p| > 0 ==> DaySum(p, 12) > 0
  {
    DaySumAtMost(p);
    if |p| > 0 {
      var a := p[0];
      ActiveDaysMembers(p, a.month, a.day);
      DaySumCovers(p, a.month, 12);
    }
  }

  /** Each activity adds at most one active day. */
  lemma {:induction false} DaySumAtMost(p: seq<Activity>)
    ensures DaySum(p, 12) <= |p|
  {
    if |p| == 0 {
      ZeroDaySum(p, 12);
    } else {
      var init, a := p[..|p| - 1], p[|p| - 1];
      assert init + [a] == p;
      DaySumAtMost(init);
      DaySumStep(init, a, 12);
    }
  }

  lemma {:induction false} ZeroDaySum(p: seq<Activity>, m: int)
    requires |p| == 0 && 0 <= m <= 12
    ensures DaySum(p, m) == 0
  {
    if m > 0 {
      ZeroDaySum(p, m - 1);
    }
  }

  // ----- The whole summary -----

  /** The data written for the year, without the profile fields fetched from the service. */
  datatype YearData = YearData(
    year: int,
    sports: map<string, Option<SportStats>>,
    timeOfDay: seq<Tagged>,
    sportsByDuration: seq<string>,
    sportsByDistance: seq<string>,
    sportsByElevationGain: seq<string>,
    longest: ActivityDigest,
    activeDays: map<Month, nat>,
    monthly: map<Month, map<string, real>>,
    totals: Totals)

  /** `d` is the data of the year `year` with activities `acts`. */
  ghost predicate Summarises(year: int, acts: seq<Activity>, d: YearData)
  {
    && |acts| > 0
    && d.year == year
    && (forall s :: s in d.sports <==> |OfSport(acts, s)| > 0)
    && (forall s :: s in d.sports ==> d.sports[s] == Some(StatsOf(OfSport(acts, s))))
    && RankedBy(d.sports, d.sportsByDuration, ByDuration)
    && RankedBy(d.sports, d.sportsByDistance, ByDistance)
    && RankedBy(d.sports, d.sportsByElevationGain, ByElevationGain)
    && (forall t :: t in d.timeOfDay ==> TodCount(acts, t.name) > 0 && t.fields == map["count" := TodCount(acts, t.name) as real])
    && (forall n :: TodCount(acts, n) > 0 ==> exists i :: 0 <= i < |d.timeOfDay| && d.timeOfDay[i].name == n)
    && (forall i, j :: 0 <= i < j < |d.timeOfDay| ==> d.timeOfDay[i].name != d.timeOfDay[j].name)
    && SortedDesc(d.timeOfDay, "count")
    && d.longest == FilterActivity(acts[LongestIndex(acts)])
    && MonthlyDescribes(acts, d.monthly)
    && (forall m: Month :: m in d.activeDays && d.activeDays[m] == |ActiveDays(acts, m)|)
    && d.totals == TotalsOf(acts, d.activeDays)
  }

  /** The summaries after the pass, with the facts the rankings rely on. */
  lemma PassSummaries(acts: seq<Activity>, grouped: map<string, seq<Activity>>, order: seq<string>)
    requires GroupsDescribe(acts, grouped, order)
    ensures IsKeyOrder(Summaries(grouped), order) && AllSummarised(Summaries(grouped))
    ensures forall s :: s in Summaries(grouped) <==> |OfSport(acts, s)| > 0
    ensures forall s :: s in Summaries(grouped) ==> Summaries(grouped)[s] == Some(StatsOf(OfSport(acts, s)))
  {
    SummariesOfPass(acts, grouped, order);
  }

  /** The time-of-day list of the pass speaks of the activities' midpoints. */
  lemma PassTimeOfDay(acts: seq<Activity>, perTod: map<string, real>, order: seq<string>, list: seq<Tagged>)
    requires TodDescribes(acts, perTod, order)
    requires TodListed(perTod, list)
    ensures forall x :: x in list ==> TodCount(acts, x.name) > 0 && x.fields == map["count" := TodCount(acts, x.name) as real]
    ensures forall n :: TodCount(acts, n) > 0 ==> exists i :: 0 <= i < |list| && list[i].name == n
    ensures forall i, j :: 0 <= i < j < |list| ==> list[i].name != list[j].name
  {
  }

  /** The active-day counts of the pass count each month's days. */
  lemma PassActiveDays(acts: seq<Activity>, activeDays: map<Month, set<int>>)
    requires ActiveDaysDescribe(acts, activeDays)
    ensures forall m: Month :: m in ActiveDayCounts(activeDays) && ActiveDayCounts(activeDays)[m] == |ActiveDays(acts, m)|
  {
  }

  /** Aggregates the year's activities and derives everything written about them. */
  method SummariseYear(year: int, acts: seq<Activity>) returns (r: Result<YearData, AggregateError>)
    ensures r.Err? <==> |acts| == 0
    ensures r.Ok? ==> Summarises(year, acts, r.value)
  {
    var pass := AggregateActivities(acts);
    if pass.Err? {
      return Err(pass.error);
    }
    var t := pass.value;
    ghost var seed := FilterActivity(acts[0]);
    TallyOfGroups(seed, acts);
    TallyOfTod(seed, acts);
    TallyOfMonthly(seed, acts);
    TallyOfActiveDays(seed, acts);
    PassSummaries(acts, t.grouped, t.sportOrder);
    PassActiveDays(acts, t.activeDays);
    var summaries := Summaries(t.grouped);
    var timeOfDay := TimeOfDayList(t.perTod, t.todOrder);
    PassTimeOfDay(acts, t.perTod, t.todOrder, timeOfDay);
    var byDuration := RankSports(summaries, t.sportOrder, ByDuration);
    var byDistance := RankSports(summaries, t.sportOrder, ByDistance);
    var byElevationGain := RankSports(summaries, t.sportOrder, ByElevationGain);
    var activeDays := ActiveDayCounts(t.activeDays);
    var totals := TotalsOf(acts, activeDays);
    return Ok(YearData(year, summaries, timeOfDay, byDuration, byDistance, byElevationGain,
                       t.longest, activeDays, t.monthly, totals));
  }

  /** The monthly counters add up to the yearly totals. */
  lemma MonthlyMatchesTotals(acts: seq<Activity>, monthly: map<Month, map<string, real>>, counts: map<Month, nat>)
    requires MonthlyDescribes(acts, monthly)
    requires forall k: Month :: k in counts
    ensures MonthlySum(monthly, Count, 12) == TotalsOf(acts, counts).count as real
    ensures MonthlySum(monthly, Total(DistanceField), 12) == TotalsOf(acts, counts).distance
    ensures MonthlySum(monthly, Total(DurationField), 12) == TotalsOf(acts, counts).duration
    ensures MonthlySum(monthly, Total(ElevationGainField), 12) == TotalsOf(acts, counts).elevationGain
  {
    MonthlyAddsUp(acts, monthly, Count);
    MonthlyAddsUp(acts, monthly, Total(DistanceField));
    MonthlyAddsUp(acts, monthly, Total(DurationField));
    MonthlyAddsUp(acts, monthly, Total(ElevationGainField));
  }

  /** The yearly active-day total lies between one and the activity count. */
  lemma ActiveDaysMatchTotals(acts: seq<Activity>, counts: map<Month, nat>)
    requires |acts| > 0
    requires forall m: Month :: m in counts && counts[m] == |ActiveDays(acts, m)|
    ensures 0 < TotalsOf(acts, counts).activeDays <= TotalsOf(acts, counts).count
  {
    CountsAreDaySum(acts, counts, 12);
    DaySumBounds(acts);
  }

  /** Month counts that are the active-day counts add up to `DaySum`. */
  lemma CountsAreDaySum(acts: seq<Activity>, counts: map<Month, nat>, m: int)
    requires 0 <= m <= 12
    requires forall k: Month :: k in counts && counts[k] == |ActiveDays(acts, k)|
    ensures DaysUpTo(counts, m) == DaySum(acts, m)
  {
    if m > 0 {
      CountsAreDaySum(acts, counts, m - 1);
    }
  }
}
