/** The single pass over the date-sorted activities of the year that groups
    them by sport and fills the monthly, time-of-day and active-day counters. */
module Aggregation {
  import opened Wrappers
  import opened Activities
  import opened TimeOfDay
  import opened Counters
  import opened SportSummaries
  import opened SortedLists

  // ----- Reference definitions, each by recursion on the last activity -----

  /** The activities of `acts` that started in month `m`, in order. */
  function InMonth(acts: seq<Activity>, m: Month): (r: seq<Activity>)
    ensures |r| <= |acts|
  {
    if |acts| == 0 then []
    else
      var a := acts[|acts| - 1];
      InMonth(acts[..|acts| - 1], m) + (if a.month == m then [a] else [])
  }

  /** The activities of `acts` whose top-level sport is `s`, in order. */
  function OfSport(acts: seq<Activity>, s: string): (r: seq<Activity>)
    ensures |r| <= |acts|
  {
    if |acts| == 0 then []
    else
      var a := acts[|acts| - 1];
      OfSport(acts[..|acts| - 1], s) + (if FindActivityGroup(a) == Some(s) then [a] else [])
  }

  /** `InMonth` keeps exactly the activities of the month. */
  lemma {:induction false} InMonthMembers(acts: seq<Activity>, m: Month, a: Activity)
    ensures a in InMonth(acts, m) <==> a in acts && a.month == m
  {
    if |acts| > 0 {
      var init := acts[..|acts| - 1];
      InMonthMembers(init, m, a);
      assert acts == init + [acts[|acts| - 1]];
    }
  }

  /** `OfSport` keeps exactly the activities of the sport. */
  lemma {:induction false} OfSportMembers(acts: seq<Activity>, s: string, a: Activity)
    ensures a in OfSport(acts, s) <==> a in acts && FindActivityGroup(a) == Some(s)
  {
    if |acts| > 0 {
      var init := acts[..|acts| - 1];
      OfSportMembers(init, s, a);
      assert acts == init + [acts[|acts| - 1]];
    }
  }

  /** The number of activities of `acts` that have a top-level sport. */
  function KnownCount(acts: seq<Activity>): (n: nat)
    ensures n <= |acts|
  {
    if |acts| == 0 then 0
    else KnownCount(acts[..|acts| - 1]) + (if FindActivityGroup(acts[|acts| - 1]).Some? then 1 else 0)
  }

  /** The keys of `ks` in order of their first occurrence; `None` entries carry no key. */
  /** The keys of `ks` in the order of their first occurrence; a missing key adds none. */
  function FirstOrder(ks: seq<Option<string>>): seq<string>
  {
    if |ks| == 0 then []
    else
      var o := FirstOrder(ks[..|ks| - 1]);
      match ks[|ks| - 1]
      case None => o
      case Some(k) => if k in o then o else o + [k]
  }

  /** One more key read: `FirstOrder` unfolded at the end. */
  lemma FirstOrderStep(ks: seq<Option<string>>, k: Option<string>)
    ensures FirstOrder(ks + [k]) == match k
                                    case None => FirstOrder(ks)
                                    case Some(x) => if x in FirstOrder(ks) then FirstOrder(ks) else FirstOrder(ks) + [x]
  {
    assert (ks + [k])[..|ks|] == ks;
  }

  /** A key is listed exactly when it occurs. */
  lemma {:induction false} FirstOrderMembers(ks: seq<Option<string>>, x: string)
    ensures x in FirstOrder(ks) <==> Some(x) in ks
  {
    if |ks| > 0 {
      var init := ks[..|ks| - 1];
      FirstOrderMembers(init, x);
      assert ks == init + [ks[|ks| - 1]];
    }
  }

  /** Of two listed keys, the earlier one occurs before the later one first does. */
  lemma {:induction false} FirstOrderPrecedes(ks: seq<Option<string>>, i: int, j: int)
    requires 0 <= i < j < |FirstOrder(ks)|
    ensures exists k :: 0 <= k < |ks| && ks[k] == Some(FirstOrder(ks)[i]) &&
              forall l :: 0 <= l <= k ==> ks[l] != Some(FirstOrder(ks)[j])
  {
    var init := ks[..|ks| - 1];
    var o, o' := FirstOrder(init), FirstOrder(ks);
    assert ks == init + [ks[|ks| - 1]];
    if j < |o| {
      FirstOrderPrecedes(init, i, j);
      assert o'[i] == o[i] && o'[j] == o[j];
      var k :| 0 <= k < |init| && init[k] == Some(o[i]) && forall l :: 0 <= l <= k ==> init[l] != Some(o[j]);
      assert ks[k] == init[k];
      assert forall l :: 0 <= l <= k ==> ks[l] == init[l];
    } else {
      assert o'[i] == o[i] && o'[j] !in o;
      FirstOrderMembers(init, o[i]);
      FirstOrderMembers(init, o'[j]);
      var k :| 0 <= k < |init| && init[k] == Some(o[i]);
      assert ks[k] == init[k];
      assert forall l :: 0 <= l <= k ==> ks[l] == init[l];
    }
  }

  /** The top-level sport of each activity, in order. */
  function SportKeys(acts: seq<Activity>): (ks: seq<Option<string>>)
    ensures |ks| == |acts| && forall k :: 0 <= k < |acts| ==> ks[k] == FindActivityGroup(acts[k])
  {
    seq(|acts|, k requires 0 <= k < |acts| => FindActivityGroup(acts[k]))
  }

  /** The time-of-day bucket of each activity, in order. */
  function BucketKeys(acts: seq<Activity>): (ks: seq<Option<string>>)
    ensures |ks| == |acts| && forall k :: 0 <= k < |acts| ==> ks[k] == Some(BucketOf(acts[k]))
  {
    seq(|acts|, k requires 0 <= k < |acts| => Some(BucketOf(acts[k])))
  }

  /** An activity without a top-level sport leaves the count of activities with one short of all of them. */
  lemma {:induction false} UnknownSportSkipped(acts: seq<Activity>, i: int)
    requires 0 <= i < |acts| && FindActivityGroup(acts[i]).None?
    ensures KnownCount(acts) < |acts|
  {
    var init := acts[..|acts| - 1];
    if i < |acts| - 1 {
      assert init[i] == acts[i];
      UnknownSportSkipped(init, i);
    }
  }

  /** The time-of-day bucket of an activity's midpoint. */
  function BucketOf(a: Activity): string
  {
    BucketName(MidpointHour(a.startSecond, a.duration))
  }

  /** The number of activities of `acts` whose midpoint falls in bucket `name`. */
  function TodCount(acts: seq<Activity>, name: string): (n: nat)
    ensures n <= |acts|
  {
    if |acts| == 0 then 0
    else TodCount(acts[..|acts| - 1], name) + (if BucketOf(acts[|acts| - 1]) == name then 1 else 0)
  }

  /** The days of month `m` on which some activity of `acts` started. */
  function ActiveDays(acts: seq<Activity>, m: Month): set<int>
  {
    if |acts| == 0 then {}
    else
      var a := acts[|acts| - 1];
      ActiveDays(acts[..|acts| - 1], m) + (if a.month == m then {a.day} else {})
  }

  /** `ActiveDays` holds exactly the days on which an activity of the month started. */
  lemma {:induction false} ActiveDaysMembers(acts: seq<Activity>, m: Month, d: int)
    ensures d in ActiveDays(acts, m) <==> exists a :: a in acts && a.month == m && a.day == d
  {
    if |acts| > 0 {
      var init, last := acts[..|acts| - 1], acts[|acts| - 1];
      ActiveDaysMembers(init, m, d);
      assert acts == init + [last];
      assert forall b :: b in acts <==> b in init || b == last;
    }
  }

  /** The monthly quantities that are totalled. */
  datatype Quantity = Count | Total(field: RawField)

  /** The dictionary key a quantity is stored under. */
  function EntryKey(q: Quantity): string
  {
    match q
    case Count => "count"
    case Total(DurationField) => "duration"
    case Total(DistanceField) => "distance"
    case Total(ElevationGainField) => "elevation_gain"
  }

  /** A quantity over a list of activities. */
  function Amount(ms: seq<Activity>, q: Quantity): real
  {
    match q
    case Count => |ms| as real
    case Total(f) => SummarizeField(ms, f)
  }

  /** The counter dictionary of one month: empty for a month without activities,
      otherwise the activity count and the duration, distance and elevation totals. */
  function MonthEntry(ms: seq<Activity>): (r: map<string, real>)
    ensures |ms| == 0 <==> r == map[]
    ensures forall q: Quantity :: ValueOr0(r, EntryKey(q)) == Amount(ms, q)
  {
    if |ms| == 0 then map[]
    else
      var r := map[
        "count" := |ms| as real,
        "duration" := SummarizeField(ms, DurationField),
        "distance" := SummarizeField(ms, DistanceField),
        "elevation_gain" := SummarizeField(ms, ElevationGainField)];
      assert "count" in r;
      r
  }

  // ----- What the counters hold after a prefix of the activities -----

  ghost predicate MonthlyDescribes(p: seq<Activity>, monthly: map<Month, map<string, real>>)
  {
    forall m: Month :: m in monthly && monthly[m] == MonthEntry(InMonth(p, m))
  }

  ghost predicate ActiveDaysDescribe(p: seq<Activity>, activeDays: map<Month, set<int>>)
  {
    forall m: Month :: m in activeDays && activeDays[m] == ActiveDays(p, m)
  }

  /** The summed lengths of the lists `grouped[s]` for `s` in `order`. */
  function SumLengths(grouped: map<string, seq<Activity>>, order: seq<string>): nat
    requires forall s :: s in order ==> s in grouped
  {
    if |order| == 0 then 0
    else SumLengths(grouped, order[..|order| - 1]) + |grouped[order[|order| - 1]]|
  }

  ghost predicate GroupsDescribe(p: seq<Activity>, grouped: map<string, seq<Activity>>, order: seq<string>)
  {
    && IsKeyOrder(grouped, order)
    && order == FirstOrder(SportKeys(p))
    && (forall s :: s in grouped <==> |OfSport(p, s)| > 0)
    && (forall s :: s in grouped ==> grouped[s] == OfSport(p, s))
    && SumLengths(grouped, order) == KnownCount(p)
  }

  ghost predicate TodDescribes(p: seq<Activity>, perTod: map<string, real>, order: seq<string>)
  {
    && IsKeyOrder(perTod, order)
    && order == FirstOrder(BucketKeys(p))
    && TodCounts(p, perTod)
  }

  /** `perTod` counts the activities of `p` by the bucket of their midpoints. */
  ghost predicate TodCounts(p: seq<Activity>, perTod: map<string, real>)
  {
    && (forall n :: n in perTod <==> TodCount(p, n) > 0)
    && (forall n :: n in perTod ==> perTod[n] == TodCount(p, n) as real)
  }

  /** `acts[k]` has the greatest distance among `acts[..n]`, and every earlier one is strictly shorter. */
  ghost predicate IsLongestAmong(acts: seq<Activity>, n: int, k: int)
  {
    && 0 <= k < n <= |acts|
    && (forall j :: 0 <= j < n ==> Distance(acts[j]) <= Distance(acts[k]))
    && (forall j :: 0 <= j < k ==> Distance(acts[j]) < Distance(acts[k]))
  }

  // ----- One step of the pass -----

  /** The four increments of one activity, applied to a month's counters. */
  function AddActivity(counts: map<string, real>, a: Activity): map<string, real>
  {
    Incremented(Incremented(Incremented(Incremented(counts,
      "count", Some(1.0)), "duration", Some(a.duration)), "distance", Some(Distance(a))),
      "elevation_gain", Some(ElevationGain(a)))
  }

  lemma MonthEntryStep(ms: seq<Activity>, a: Activity)
    ensures MonthEntry(ms + [a]) == AddActivity(MonthEntry(ms), a)
  {
    var ms' := ms + [a];
    assert ms'[..|ms'| - 1] == ms;
    var e, e', r := MonthEntry(ms), MonthEntry(ms'), AddActivity(MonthEntry(ms), a);
    assert SummarizeField(ms', DurationField) == SummarizeField(ms, DurationField) + a.duration;
    assert SummarizeField(ms', DistanceField) == SummarizeField(ms, DistanceField) + Distance(a);
    assert SummarizeField(ms', ElevationGainField) == SummarizeField(ms, ElevationGainField) + ElevationGain(a);
    assert e'.Keys == {"count", "duration", "distance", "elevation_gain"};
    assert r.Keys == e.Keys + {"count", "duration", "distance", "elevation_gain"};
    if |ms| > 0 {
      assert e.Keys == {"count", "duration", "distance", "elevation_gain"};
    }
    assert r.Keys == e'.Keys;
    assert ValueOr0(e, "count") == |ms| as real;
    assert ValueOr0(e, "duration") == SummarizeField(ms, DurationField);
    assert ValueOr0(e, "distance") == SummarizeField(ms, DistanceField);
    assert ValueOr0(e, "elevation_gain") == SummarizeField(ms, ElevationGainField);
    assert forall k :: k in r ==> r[k] == e'[k];
  }

  lemma MonthlyStep(p: seq<Activity>, a: Activity, p': seq<Activity>,
                    monthly: map<Month, map<string, real>>, monthly': map<Month, map<string, real>>)
    requires p' == p + [a] && MonthlyDescribes(p, monthly)
    requires monthly' == monthly[a.month := AddActivity(monthly[a.month], a)]
    ensures MonthlyDescribes(p', monthly')
  {
    assert p'[..|p'| - 1] == p;
    forall m: Month
      ensures m in monthly' && monthly'[m] == MonthEntry(InMonth(p', m))
    {
      if m == a.month {
        assert InMonth(p', m) == InMonth(p, m) + [a];
        MonthEntryStep(InMonth(p, m), a);
      } else {
        assert InMonth(p', m) == InMonth(p, m);
      }
    }
  }

  lemma ActiveDaysStep(p: seq<Activity>, a: Activity, p': seq<Activity>,
                       activeDays: map<Month, set<int>>, activeDays': map<Month, set<int>>)
    requires p' == p + [a] && ActiveDaysDescribe(p, activeDays)
    requires activeDays' == activeDays[a.month := activeDays[a.month] + {a.day}]
    ensures ActiveDaysDescribe(p', activeDays')
  {
    assert p'[..|p'| - 1] == p;
  }

  lemma TodStep(p: seq<Activity>, a: Activity, p': seq<Activity>,
                perTod: map<string, real>, order: seq<string>, perTod': map<string, real>, order': seq<string>)
    requires p' == p + [a] && TodDescribes(p, perTod, order)
    requires perTod' == Incremented(perTod, BucketOf(a), Some(1.0))
    requires order' == if BucketOf(a) in perTod then order else order + [BucketOf(a)]
    ensures TodDescribes(p', perTod', order')
  {
    TodCountsStep(p, a, p', perTod, perTod');
    TodOrderStep(p, a, perTod, order);
  }

  /** The counts grow by the activity's bucket. */
  lemma TodCountsStep(p: seq<Activity>, a: Activity, p': seq<Activity>, perTod: map<string, real>, perTod': map<string, real>)
    requires p' == p + [a] && TodCounts(p, perTod)
    requires perTod' == Incremented(perTod, BucketOf(a), Some(1.0))
    ensures TodCounts(p', perTod')
  {
    assert p'[..|p'| - 1] == p;
  }

  /** The bucket order grows as the first occurrences do. */
  lemma TodOrderStep(p: seq<Activity>, a: Activity, perTod: map<string, real>, order: seq<string>)
    requires IsKeyOrder(perTod, order) && order == FirstOrder(BucketKeys(p))
    ensures TodOrderAfter(perTod, order, a) == FirstOrder(BucketKeys(p + [a]))
  {
    assert BucketKeys(p + [a]) == BucketKeys(p) + [Some(BucketOf(a))];
    FirstOrderStep(BucketKeys(p), Some(BucketOf(a)));
  }

  predicate Distinct(order: seq<string>)
  {
    forall i, j :: 0 <= i < j < |order| ==> order[i] != order[j]
  }

  /** Replacing the list under a key that occurs once in `order`. */
  lemma {:induction false} SumLengthsUpdate(grouped: map<string, seq<Activity>>, order: seq<string>, s: string, v: seq<Activity>)
    requires forall k :: k in order ==> k in grouped
    requires Distinct(order) && s in order
    ensures SumLengths(grouped[s := v], order) + |grouped[s]| == SumLengths(grouped, order) + |v|
    decreases |order|
  {
    var n := |order|;
    var init := order[..n - 1];
    if order[n - 1] == s {
      assert s !in init;
      SumLengthsSkip(grouped, init, s, v);
    } else {
      assert s in init;
      SumLengthsUpdate(grouped, init, s, v);
    }
  }

  /** Lists under keys outside `order` do not count. */
  lemma {:induction false} SumLengthsSkip(grouped: map<string, seq<Activity>>, order: seq<string>, s: string, v: seq<Activity>)
    requires forall k :: k in order ==> k in grouped
    requires s !in order
    ensures SumLengths(grouped[s := v], order) == SumLengths(grouped, order)
    decreases |order|
  {
    if |order| > 0 {
      SumLengthsSkip(grouped, order[..|order| - 1], s, v);
    }
  }

  /** How the list of one sport grows by one activity. */
  lemma OfSportStep(p: seq<Activity>, a: Activity, t: string)
    ensures OfSport(p + [a], t) == OfSport(p, t) + (if FindActivityGroup(a) == Some(t) then [a] else [])
  {
    var p' := p + [a];
    assert p'[..|p'| - 1] == p;
  }

  lemma KnownCountStep(p: seq<Activity>, a: Activity)
    ensures KnownCount(p + [a]) == KnownCount(p) + (if FindActivityGroup(a).Some? then 1 else 0)
  {
    var p' := p + [a];
    assert p'[..|p'| - 1] == p;
  }

  /** Grouping one more activity keeps the groups in step with the prefix. */
  lemma GroupsStep(p: seq<Activity>, a: Activity, grouped: map<string, seq<Activity>>, order: seq<string>)
    requires GroupsDescribe(p, grouped, order)
    ensures GroupsDescribe(p + [a], GroupedAfter(grouped, a), SportOrderAfter(grouped, order, a))
  {
    GroupsListsStep(p, a, grouped);
    KnownCountStep(p, a);
    GroupsOrderStep(grouped, order, a);
    SportOrderStep(p, a, grouped, order);
  }

  /** The sport order grows as the first occurrences do. */
  lemma SportOrderStep(p: seq<Activity>, a: Activity, grouped: map<string, seq<Activity>>, order: seq<string>)
    requires IsKeyOrder(grouped, order) && order == FirstOrder(SportKeys(p))
    ensures SportOrderAfter(grouped, order, a) == FirstOrder(SportKeys(p + [a]))
  {
    assert SportKeys(p + [a]) == SportKeys(p) + [FindActivityGroup(a)];
    FirstOrderStep(SportKeys(p), FindActivityGroup(a));
  }

  /** The sport order stays the key order of the groups, and the lengths grow by one
      exactly when the activity has a sport. */
  lemma GroupsOrderStep(grouped: map<string, seq<Activity>>, order: seq<string>, a: Activity)
    requires IsKeyOrder(grouped, order)
    ensures IsKeyOrder(GroupedAfter(grouped, a), SportOrderAfter(grouped, order, a))
    ensures SumLengths(GroupedAfter(grouped, a), SportOrderAfter(grouped, order, a))
            == SumLengths(grouped, order) + (if FindActivityGroup(a).Some? then 1 else 0)
  {
    if FindActivityGroup(a).Some? {
      var s := FindActivityGroup(a).value;
      if s in grouped {
        SumLengthsUpdate(grouped, order, s, grouped[s] + [a]);
      } else {
        NewGroupOrder(grouped, order, s, a);
      }
    }
  }

  /** After one more activity, every sport with activities has its list, and only those. */
  lemma GroupsListsStep(p: seq<Activity>, a: Activity, grouped: map<string, seq<Activity>>)
    requires forall s :: s in grouped <==> |OfSport(p, s)| > 0
    requires forall s :: s in grouped ==> grouped[s] == OfSport(p, s)
    ensures var g' := GroupedAfter(grouped, a);
            && (forall s :: s in g' <==> |OfSport(p + [a], s)| > 0)
            && (forall s :: s in g' ==> g'[s] == OfSport(p + [a], s))
  {
    var g' := GroupedAfter(grouped, a);
    forall t | true
      ensures t in g' <==> |OfSport(p + [a], t)| > 0
      ensures t in g' ==> g'[t] == OfSport(p + [a], t)
    {
      OfSportStep(p, a, t);
    }
  }

  /** A key that is new to the dictionary goes to the end of its order. */
  lemma NewGroupOrder(grouped: map<string, seq<Activity>>, order: seq<string>, s: string, a: Activity)
    requires IsKeyOrder(grouped, order) && s !in grouped
    ensures IsKeyOrder(grouped[s := [a]], order + [s])
    ensures SumLengths(grouped[s := [a]], order + [s]) == SumLengths(grouped, order) + 1
  {
    var g', o' := grouped[s := [a]], order + [s];
    assert o'[..|o'| - 1] == order;
    SumLengthsSkip(grouped, order, s, [a]);
    assert Distinct(o');
  }

  /** The index in `p` of its first activity of greatest distance. */
  function LongestIndex(p: seq<Activity>): (k: nat)
    requires |p| > 0
    ensures k < |p|
  {
    if |p| == 1 then 0
    else
      var k := LongestIndex(p[..|p| - 1]);
      if Distance(p[|p| - 1]) > Distance(p[k]) then |p| - 1 else k
  }

  /** No activity is longer than the one at `LongestIndex`, and every earlier one is shorter. */
  lemma {:induction false} LongestIndexIsLongest(p: seq<Activity>)
    requires |p| > 0
    ensures IsLongestAmong(p, |p|, LongestIndex(p))
  {
    if |p| > 1 {
      LongestIndexIsLongest(p[..|p| - 1]);
    }
  }

  // ----- The pass itself -----

  /** A fresh counter dictionary for every month. */
  const NoMonths: map<Month, map<string, real>> := map[
    1 := map[], 2 := map[], 3 := map[], 4 := map[], 5 := map[], 6 := map[],
    7 := map[], 8 := map[], 9 := map[], 10 := map[], 11 := map[], 12 := map[]]

  /** A fresh, empty day set for every month. */
  const NoDays: map<Month, set<int>> := map[
    1 := {}, 2 := {}, 3 := {}, 4 := {}, 5 := {}, 6 := {},
    7 := {}, 8 := {}, 9 := {}, 10 := {}, 11 := {}, 12 := {}]

  /** The counters the pass keeps. `monthly` and `activeDays` have an entry for every
      month; `sportOrder` and `todOrder` give the insertion order of `grouped` and `perTod`. */
  datatype Tally = Tally(
    grouped: map<string, seq<Activity>>,
    sportOrder: seq<string>,
    monthly: map<Month, map<string, real>>,
    perTod: map<string, real>,
    todOrder: seq<string>,
    activeDays: map<Month, set<int>>,
    longest: ActivityDigest)

  ghost predicate HasEveryMonth(t: Tally)
  {
    forall m: Month :: m in t.monthly && m in t.activeDays
  }

  /** The counters before the first activity, with `seed` as the longest so far. */
  function NoTally(seed: ActivityDigest): (r: Tally)
    ensures HasEveryMonth(r)
  {
    Tally(map[], [], NoMonths, map[], [], NoDays, seed)
  }

  /** The per-sport lists after one more activity: appended to its sport's list,
      which is created when the sport is new; unchanged when it has no sport. */
  function GroupedAfter(grouped: map<string, seq<Activity>>, a: Activity): map<string, seq<Activity>>
  {
    match FindActivityGroup(a)
    case None => grouped
    case Some(s) => grouped[s := if s in grouped then grouped[s] + [a] else [a]]
  }

  /** The insertion order of the sports after one more activity. */
  function SportOrderAfter(grouped: map<string, seq<Activity>>, order: seq<string>, a: Activity): seq<string>
  {
    match FindActivityGroup(a)
    case None => order
    case Some(s) => if s in grouped then order else order + [s]
  }

  /** The insertion order of the time-of-day buckets after one more activity. */
  function TodOrderAfter(perTod: map<string, real>, order: seq<string>, a: Activity): seq<string>
  {
    if BucketOf(a) in perTod then order else order + [BucketOf(a)]
  }

  /** The counters after one more activity. */
  function Counted(t: Tally, a: Activity): (r: Tally)
    requires HasEveryMonth(t)
    ensures HasEveryMonth(r)
  {
    Tally(GroupedAfter(t.grouped, a), SportOrderAfter(t.grouped, t.sportOrder, a),
          t.monthly[a.month := AddActivity(t.monthly[a.month], a)],
          Incremented(t.perTod, BucketOf(a), Some(1.0)),
          TodOrderAfter(t.perTod, t.todOrder, a),
          t.activeDays[a.month := t.activeDays[a.month] + {a.day}],
          if Distance(a) > t.longest.distance then FilterActivity(a) else t.longest)
  }

  /** The counters after the activities `p`, in order, starting from `seed` as the longest. */
  function TallyOf(seed: ActivityDigest, p: seq<Activity>): (r: Tally)
    ensures HasEveryMonth(r)
  {
    if |p| == 0 then NoTally(seed) else Counted(TallyOf(seed, p[..|p| - 1]), p[|p| - 1])
  }

  // Before the first activity every counter is empty.
  lemma NoGroups() ensures GroupsDescribe([], map[], []) {}
  lemma NoMonthly() ensures MonthlyDescribes([], NoMonths) {}
  lemma NoTod() ensures TodDescribes([], map[], []) {}
  lemma NoActiveDays() ensures ActiveDaysDescribe([], NoDays) {}

  lemma CountedGroups(p: seq<Activity>, a: Activity, t: Tally)
    requires GroupsDescribe(p, t.grouped, t.sportOrder) && HasEveryMonth(t)
    ensures GroupsDescribe(p + [a], Counted(t, a).grouped, Counted(t, a).sportOrder)
  {
    GroupsStep(p, a, t.grouped, t.sportOrder);
  }

  lemma CountedMonthly(p: seq<Activity>, a: Activity, t: Tally)
    requires MonthlyDescribes(p, t.monthly) && HasEveryMonth(t)
    ensures MonthlyDescribes(p + [a], Counted(t, a).monthly)
  {
    MonthlyStep(p, a, p + [a], t.monthly, Counted(t, a).monthly);
  }

  lemma CountedTod(p: seq<Activity>, a: Activity, t: Tally)
    requires TodDescribes(p, t.perTod, t.todOrder) && HasEveryMonth(t)
    ensures TodDescribes(p + [a], Counted(t, a).perTod, Counted(t, a).todOrder)
  {
    var r := Counted(t, a);
    TodStep(p, a, p + [a], t.perTod, t.todOrder, r.perTod, r.todOrder);
  }

  lemma CountedActiveDays(p: seq<Activity>, a: Activity, t: Tally)
    requires ActiveDaysDescribe(p, t.activeDays) && HasEveryMonth(t)
    ensures ActiveDaysDescribe(p + [a], Counted(t, a).activeDays)
  {
    ActiveDaysStep(p, a, p + [a], t.activeDays, Counted(t, a).activeDays);
  }

  /** The per-sport lists after any prefix hold that prefix's activities of each sport. */
  lemma {:induction false} TallyOfGroups(seed: ActivityDigest, p: seq<Activity>)
    ensures GroupsDescribe(p, TallyOf(seed, p).grouped, TallyOf(seed, p).sportOrder)
  {
    if |p| == 0 {
      NoGroups();
    } else {
      var init := p[..|p| - 1];
      TallyOfGroups(seed, init);
      assert init + [p[|p| - 1]] == p;
      CountedGroups(init, p[|p| - 1], TallyOf(seed, init));
    }
  }

  /** The monthly counters after any prefix hold that prefix's monthly totals. */
  lemma {:induction false} TallyOfMonthly(seed: ActivityDigest, p: seq<Activity>)
    ensures MonthlyDescribes(p, TallyOf(seed, p).monthly)
  {
    if |p| == 0 {
      NoMonthly();
    } else {
      var init := p[..|p| - 1];
      TallyOfMonthly(seed, init);
      assert init + [p[|p| - 1]] == p;
      CountedMonthly(init, p[|p| - 1], TallyOf(seed, init));
    }
  }

  /** The time-of-day counters after any prefix count that prefix's midpoints. */
  lemma {:induction false} TallyOfTod(seed: ActivityDigest, p: seq<Activity>)
    ensures TodDescribes(p, TallyOf(seed, p).perTod, TallyOf(seed, p).todOrder)
  {
    if |p| == 0 {
      NoTod();
    } else {
      var init := p[..|p| - 1];
      TallyOfTod(seed, init);
      assert init + [p[|p| - 1]] == p;
      CountedTod(init, p[|p| - 1], TallyOf(seed, init));
    }
  }

  /** The active-day sets after any prefix hold that prefix's days of each month. */
  lemma {:induction false} TallyOfActiveDays(seed: ActivityDigest, p: seq<Activity>)
    ensures ActiveDaysDescribe(p, TallyOf(seed, p).activeDays)
  {
    if |p| == 0 {
      NoActiveDays();
    } else {
      var init := p[..|p| - 1];
      TallyOfActiveDays(seed, init);
      assert init + [p[|p| - 1]] == p;
      CountedActiveDays(init, p[|p| - 1], TallyOf(seed, init));
    }
  }

  lemma TallyOfNext(seed: ActivityDigest, acts: seq<Activity>, i: int)
    requires 0 <= i < |acts|
    ensures TallyOf(seed, acts[..i + 1]) == Counted(TallyOf(seed, acts[..i]), acts[i])
  {
    assert acts[..i + 1][..i] == acts[..i];
  }

  /** Seeded with the first activity, the longest kept is the one at `LongestIndex`. */
  lemma {:induction false} TallyOfLongest(p: seq<Activity>)
    requires |p| > 0
    ensures TallyOf(FilterActivity(p[0]), p).longest == FilterActivity(p[LongestIndex(p)])
  {
    if |p| > 1 {
      var init := p[..|p| - 1];
      TallyOfLongest(init);
      assert init[0] == p[0] && init[LongestIndex(init)] == p[LongestIndex(init)];
    }
  }

  /** `activities[0]` raises on an empty year. */
  datatype AggregateError = NoActivities

  /** The body of the pass for one activity, on the counters. */
  method CountActivity(t: Tally, act: Activity) returns (r: Tally)
    requires HasEveryMonth(t)
    ensures r == Counted(t, act)
  {
    var grouped, sportOrder, monthly, perTod, todOrder, activeDays, longest :=
      t.grouped, t.sportOrder, t.monthly, t.perTod, t.todOrder, t.activeDays, t.longest;
    var sport := FindActivityGroup(act);
    if sport.Some? {
      if sport.value !in grouped {
        grouped := grouped[sport.value := []];
        sportOrder := sportOrder + [sport.value];
      }
      assert [] + [act] == [act];
      grouped := grouped[sport.value := grouped[sport.value] + [act]];
    }
    assert grouped == GroupedAfter(t.grouped, act) && sportOrder == SportOrderAfter(t.grouped, t.sportOrder, act);
    var month := act.month;
    var counts := monthly[month];
    counts := Incremented(counts, "count", Some(1.0));
    counts := Incremented(counts, "duration", Some(act.duration));
    counts := Incremented(counts, "distance", Some(Distance(act)));
    counts := Incremented(counts, "elevation_gain", Some(ElevationGain(act)));
    monthly := monthly[month := counts];
    assert monthly == t.monthly[month := AddActivity(t.monthly[month], act)];
    var tod := GetTimeOfDay(MidpointHour(act.startSecond, act.duration));
    assert tod == BucketOf(act);
    if tod !in perTod {
      todOrder := todOrder + [tod];
    }
    perTod := Incremented(perTod, tod, Some(1.0));
    activeDays := activeDays[month := activeDays[month] + {act.day}];
    if Distance(act) > longest.distance {
      longest := FilterActivity(act);
    }
    r := Tally(grouped, sportOrder, monthly, perTod, todOrder, activeDays, longest);
  }

  /** One pass over the activities: group by sport, count per month, per time of day
      and per active day, and keep the first activity of greatest distance. */
  method AggregateActivities(acts: seq<Activity>) returns (r: Result<Tally, AggregateError>)
    ensures r.Err? <==> |acts| == 0
    ensures r.Ok? ==> r.value == TallyOf(FilterActivity(acts[0]), acts)
    ensures r.Ok? ==> r.value.longest == FilterActivity(acts[LongestIndex(acts)])
  {
    if |acts| == 0 {
      return Err(NoActivities);
    }
    var longest := FilterActivity(acts[0]);
    var tally := NoTally(longest);
    ghost var seed := longest;
    assert acts[..0] == [];
    var i := 0;
    while i < |acts|
      invariant 0 <= i <= |acts|
      invariant tally == TallyOf(seed, acts[..i])
    {
      TallyOfNext(seed, acts, i);
      tally := CountActivity(tally, acts[i]);
      i := i + 1;
    }
    assert acts[..i] == acts;
    TallyOfLongest(acts);
    return Ok(tally);
  }
}
