# Garmin Wrapped, modelled in Dafny

Garmin Wrapped builds a "year in review" of a Garmin Connect account in two steps.

- **The Python script** reads a year of activities. It reduces them to one JSON document:
  - a summary per top-level sport;
  - monthly counters;
  - counts by time of day;
  - active days per month;
  - the longest activity;
  - yearly totals;
  - the sports ranked by duration, distance and elevation gain.
- **The JavaScript page** reads that document and shows it as a slideshow. The page formats durations and distances as text, draws monthly bar tables, and steps through a list of page builders with each click.

This project models the deterministic core of both parts and proves properties of it.

| file | module | models |
|---|---|---|
| `wrappers.dfy` | `Wrappers` | `Option` and `Result` |
| `activities.dfy` | `Activities` | the activity record, the table of top-level sports, `find_activity_group`, `filter_activity` |
| `time_of_day.dfy` | `TimeOfDay` | the time-of-day table, the midpoint hour, `get_time_of_day` |
| `counters.dfy` | `Counters` | `increment_entry`, as a function on dictionaries and as an in-place `Counter` class |
| `sorted_lists.dfy` | `SortedLists` | `dict_to_list`; `build_sorted_list`, with the in-place sort done by an insertion sort on an array |
| `sport_summaries.dfy` | `SportSummaries` | `summarize_field`, `sport_summary`, `find_first`, `find_last` |
| `aggregation.dfy` | `Aggregation` | the pass over the date-sorted activities: groups, monthly counters, time-of-day counts, active days, longest activity |
| `year_summary.dfy` | `YearSummary` | the choice of year; everything written about the activities after the pass: summaries, rankings, time-of-day list, active-day counts, totals |
| `format.dfy` | `Format` | `numberEnding`, `humanTime`, `Wrapped.humanDistance`, the maximum and the percentages of `Wrapped.buildMonthlyTable` |
| `slideshow.dfy` | `Slideshow` | the `Wrapped` page cursor across `init`, the completion of the data load, `showFirstPage`, `updateCurrent` and `transition` |

## How the source is modelled

- **Activities.**
  - An activity is a record whose dates are already decoded: a month, a day of the month and the second of the day it started. It also carries a display label of the date.
  - A key the script reads with `.get(key, 0)` is an `Option`: an absent key reads 0.
  - `averageHR` and `avgPower` have three states: absent, null or a number. `filter_activity` keeps null apart from 0, and `sport_summary` tests the heart rate for truthiness.
- **Dictionaries.**
  - Python dictionaries are `map`s.
  - Where the order of iteration matters, the insertion order is kept beside the map as a sequence of its keys: the per-sport groups, and the time-of-day counts that are later sorted.
- **Loops and methods.**
  - Loops that update state become methods with loop invariants: `sport_summary`, `get_time_of_day`, `find_first`, `find_last`, the main pass and `buildMonthlyTable`. `humanTime` has no loop; its step-by-step subtractions become a straight-line method.
  - Each such method is proved against a specification. For `sport_summary`, the main pass and `buildMonthlyTable` that is a recursive function over the prefix the loop has read. For `get_time_of_day` it is an interval definition of the buckets (`BucketName`), and for `humanTime` the day/hour/minute decomposition (`Decompose`). For `find_first` and `find_last` it is a relation that the result and the rows satisfy. Lemmas then give each specification its meaning.
- **The main pass** (`Aggregation.AggregateActivities`).
  - Its state is a `Tally` value.
  - The loop invariant is `tally == TallyOf(seed, acts[..i])`.
  - Four induction lemmas state what `TallyOf` holds after any prefix of the activities: `TallyOfGroups`, `TallyOfMonthly`, `TallyOfTod`, `TallyOfActiveDays`.
- **The in-place helpers.** In-place updates of dictionaries are modelled as value updates through `Counters.Incremented`. `Counters.Counter.Increment` is the same operation on a field.
- **The page.** `Wrapped` is a class. Its fields are:
  - the list of pages;
  - the cursor;
  - the load status;
  - the page element that is current;
  - the rendered `next` elements;
  - the transitions still animating;
  - the pages whose enter animation has started.

  Page builders are named by ids, `LongestActivity` and `SummaryPage`, the two the list holds. The other builders are commented out of it. Asynchronous completions (the data load, the end of an animation) are methods that the environment calls.
- **Numbers.** Floating-point numbers are Dafny `real`s. The imperial factor is the exact value 3.28084.

## Model

| member | source | states |
|---|---|---|
| Activities.FindActivityGroup | garmin-wrapped.py:117-127 | an activity's own type in the table gives its sport; otherwise a parent type in the table gives the parent's sport; the result is none exactly when neither type is in the table |
| Activities.FilterActivity | garmin-wrapped.py:296-306 | the digest keeps name and date label; distance, duration and elevation gain fall back to 0 when absent; the heart rate and the average power are each 0 when absent, none when null, and the recorded number otherwise |
| TimeOfDay.MidpointHour | garmin-wrapped.py:141-145 | the hour lies in 0..23, and it is the hour of the clock time half the duration after the start |
| TimeOfDay.GetTimeOfDay | garmin-wrapped.py:146-150 | the scan of the table at garmin-wrapped.py:50-75 returns the bucket of an independent interval definition: [5,11) Morning, [11,13) Lunch, [13,17) Afternoon, [17,21) Evening, any other hour Night (the fall-through row, so [0,5) and [21,24) too); the result is one of the five names |
| Counters.Incremented | garmin-wrapped.py:132-139 | with no amount the dictionary is unchanged; otherwise only `entry` changes, to the amount when it was absent and by the amount when present |
| Counters.Counter.Increment | garmin-wrapped.py:132-139 | the in-place increment leaves the counter dictionary equal to `Incremented` of the old one |
| SortedLists.DictToList | garmin-wrapped.py:152-157 | the element carries the key as its name; a bare value is wrapped under the default key, a record keeps its fields |
| SortedLists.SortDescending | garmin-wrapped.py:161 | the array ends sorted in non-increasing order of the field and is a permutation of what it held |
| SortedLists.BuildSortedList | garmin-wrapped.py:159-162 | the list is a permutation of the tagged entries in iteration order, sorted non-increasing by the field; it names every key exactly once, and each element is `dict_to_list` of its own entry |
| SortedLists.NamesDistinct | garmin-wrapped.py:160 | a list as long as the dictionary that names every key, and only keys, names each key once |
| SportSummaries.SummarizeFieldAppend | garmin-wrapped.py:164-165 | the left-fold field total of a concatenation is the sum of the totals of its parts |
| SportSummaries.SportSummary | garmin-wrapped.py:167-200 | the loop returns no summary exactly for an empty list; otherwise it returns `StatsOf`: count = length, distance/duration/heart-rate sums over truthy values only, elevation total with a 0 default, averages over contributors with a 0 fallback |
| SportSummaries.ContributorCount | garmin-wrapped.py:174-192 | no more activities contribute than there are, and with no contributor the sum is 0 (so each average falls back to 0) |
| SportSummaries.AverageBounded | garmin-wrapped.py:196-198 | an average of contributions that all lie in [0, b] lies in [0, b], the 0 fallback included |
| SportSummaries.FindFirst | garmin-wrapped.py:202-205 | a value found is the field of the first row whose field is not null, all earlier rows being null; none means every row is null; a row lacking the field raises KeyError, after only null rows |
| SportSummaries.FindLast | garmin-wrapped.py:207-210 | the same, scanning from the back: the last non-null value, or none, or KeyError at the last row lacking the field after only null rows |
| Aggregation.InMonthMembers | garmin-wrapped.py:362-368 | an activity is in a month's list exactly when it is an activity of the year in that month |
| Aggregation.OfSportMembers | garmin-wrapped.py:360-364 | an activity is in a sport's group exactly when it is an activity of the year whose top-level sport that is |
| Aggregation.ActiveDaysMembers | garmin-wrapped.py:374 | the active days of a month are exactly the days on which some activity of that month started |
| Aggregation.UnknownSportSkipped | garmin-wrapped.py:360-364 | one activity without a top-level sport leaves fewer grouped activities than activities |
| Aggregation.MonthEntry | garmin-wrapped.py:368-372 | a month's counters are empty exactly when the month has no activity; otherwise each counter is the count or the field total of the month's activities |
| Aggregation.LongestIndexIsLongest | garmin-wrapped.py:376-377 | no activity is longer than the one kept, and every earlier activity is strictly shorter (the earliest of the maximal distances wins) |
| Aggregation.TallyOfGroups | garmin-wrapped.py:360-364 | after any prefix, the groups are exactly the sports present, each holding that sport's activities in order, keyed in the order of each sport's first activity (`FirstOrder`), their sizes adding up to the activities with a sport |
| Aggregation.FirstOrderMembers | garmin-wrapped.py:361-362 | a key is in the first-appearance order exactly when it occurs among the keys read |
| Aggregation.FirstOrderPrecedes | garmin-wrapped.py:361-362 | of two keys in the first-appearance order, the earlier one occurs before any occurrence of the later one |
| Aggregation.TallyOfMonthly | garmin-wrapped.py:353-372 | after any prefix, each of the 12 month counters is `MonthEntry` of that month's activities |
| Aggregation.TallyOfTod | garmin-wrapped.py:354-372 | after any prefix, the time-of-day counts are the numbers of activities whose midpoint falls in each bucket, keyed in the order of each bucket's first activity (`FirstOrder`) |
| Aggregation.TallyOfActiveDays | garmin-wrapped.py:357-374 | after any prefix, each month's day set is the set of days on which its activities started |
| Aggregation.TallyOfLongest | garmin-wrapped.py:356-377 | seeded with the first activity, the longest kept is the digest of the activity at `LongestIndex` |
| Aggregation.CountActivity | garmin-wrapped.py:359-377 | the loop body updates the counters exactly as `Counted` specifies |
| Aggregation.AggregateActivities | garmin-wrapped.py:352-377 | an empty year fails at `activities[0]`; otherwise the pass ends with `TallyOf` of all activities, and the longest is the earliest of maximal distance |
| YearSummary.ChooseYear | garmin-wrapped.py:319-329 | a year argument is used as given; otherwise the year is the latest one whose July has begun, which is this year from July on and the previous year before |
| YearSummary.SummariesOfPass | garmin-wrapped.py:380 | there is a summary exactly for each sport that has activities, and it is `StatsOf` of that sport's activities |
| YearSummary.SportCountsAddUp | garmin-wrapped.py:380-397 | the per-sport counts add up to the activities with a known sport, which is at most `len(activities)` |
| YearSummary.SummaryRecord | garmin-wrapped.py:169-198 | the summary dictionary has each ranking field under its key |
| YearSummary.RankSports | garmin-wrapped.py:384-386 | the names list every sport once, and no others, in non-increasing order of the ranking field |
| YearSummary.TimeOfDayList | garmin-wrapped.py:383 | the time-of-day list has one `count` record per bucket, names distinct, sorted non-increasing by count |
| YearSummary.MonthlyAddsUp | garmin-wrapped.py:366-372 | the monthly counters of the 12 months add up, quantity by quantity, to the totals over all activities |
| YearSummary.MonthlyMatchesTotals | garmin-wrapped.py:391-397 | the monthly count, distance, duration and elevation counters add up to the yearly totals, the count to `len(activities)` |
| YearSummary.DaySumBounds | garmin-wrapped.py:390-398 | the summed counts of distinct active days lie between 1 and the number of activities when there are any |
| YearSummary.ActiveDaysMatchTotals | garmin-wrapped.py:390-399 | the yearly active-day total, the sum of the month counts, is positive and at most the activity count |
| YearSummary.SummariseYear | garmin-wrapped.py:352-399 | an empty year fails; otherwise the data written is as follows: the sports are those with activities, each summarised; the three rankings; the time-of-day list, naming each bucket with a midpoint once, with its count, by non-increasing count; the longest digest; each month's counters and active-day count; `TotalsOf` the activities |
| Format.DigitsRoundTrip | js/garmin-wrapped.js:362 | the decimal text of a count reads back as that count |
| Format.NumberEnding | js/garmin-wrapped.js:348-350 | the ending is "s" exactly when the count exceeds 1 and empty otherwise |
| Format.Round | js/garmin-wrapped.js:369 | `Math.round` lands within half a unit of its argument, halves going up |
| Format.DecomposeBounds | js/garmin-wrapped.js:359-369 | hours lie in 0..23, minutes in 0..60, days are not negative for a non-negative duration, and the parts put back together are within 30 seconds of it |
| Format.Component | js/garmin-wrapped.js:361-372 | a component is written exactly when its count is positive |
| Format.HumanTime | js/garmin-wrapped.js:352-375 | the step-by-step subtraction returns the days, hours and minutes components, in that order, each only when positive |
| Format.HumanTimeEmpty | js/garmin-wrapped.js:361-374 | the text is empty exactly when no component is positive |
| Format.ShortDurationIsEmpty | js/garmin-wrapped.js:369-374 | 0 to 30 seconds render as the empty string |
| Format.RoundingReachesSixty | js/garmin-wrapped.js:364-372 | 59 minutes 30 seconds render as "60 minutes", not as an hour |
| Format.DistanceMeasure | js/garmin-wrapped.js:120-145 | metric: km exactly from 30 km, the amount being the km rounded down (at least 30), otherwise the metres rounded down; imperial: miles exactly when the distance is at least 21 miles of 3.28084 ft per metre, the amount being the miles rounded down (more than 20), otherwise the feet rounded down |
| Format.HumanDistanceReadsBack | js/garmin-wrapped.js:120-145 | the text is the decimal digits of `DistanceMeasure`'s amount, which read back as that amount, then a space and its unit |
| Format.LargestIsMaximum | js/garmin-wrapped.js:150-155 | the running maximum is at least 0 and every defined value, and it is 0 or one of the values |
| Format.PercentagesBounded | js/garmin-wrapped.js:163 | with non-negative values and a positive maximum, every bar width of a defined value is a number in 0..100 |
| Format.BuildMonthlyTable | js/garmin-wrapped.js:147-163 | the loop's `largest` is the running maximum of the twelve monthly values, and each percentage is the rounded share of it (none where the value is undefined or the maximum is 0) |
| Slideshow.Includes | js/garmin-wrapped.js:30 | `includes` on an array answers membership; on a plain object it throws |
| Slideshow.IncludesThrowsOnWrittenSports | js/garmin-wrapped.js:30 | on the sports as the script writes them (an object), every `includes` test throws, while key membership answers which sports there are |
| Slideshow.Wrapped.Init | js/garmin-wrapped.js:10-24 | the cursor starts at 0 on the one-page list, with nothing shown while the data loads |
| Slideshow.Wrapped.UpdateCurrent | js/garmin-wrapped.js:86-96 | the first `next` element replaces the current one; nothing else changes |
| Slideshow.Wrapped.ShowFirstPage | js/garmin-wrapped.js:56-64 | the page at the cursor is rendered, becomes current and starts its animation; list and cursor unchanged |
| Slideshow.Wrapped.LoadCompletedAsWritten | js/garmin-wrapped.js:26-43 | as written: on a successful load of the written data the `includes` test throws, so nothing changes and no page is shown; a failed load shows the message |
| Slideshow.Wrapped.LoadCompleted | js/garmin-wrapped.js:26-43 | a successful load appends the summary page last, starts the slides and shows page 0 as current; a failed load shows "Run python script first!" and keeps the list; the cursor stays valid |
| Slideshow.Wrapped.Transition | js/garmin-wrapped.js:98-118 | at the last page nothing changes; otherwise the cursor moves on by exactly one at once, and the next page is rendered and waits for its animation; the cursor stays within the list |
| Slideshow.Wrapped.AnimationCompleted | js/garmin-wrapped.js:110-117 | the oldest pending page becomes current and starts its animation; cursor and list unchanged |
| Slideshow.DoubleClick | js/garmin-wrapped.js:88-106 | a second click before the first swap ends does nothing more: the cursor is already on the summary page, and the first page is still current |

## Left out

- The Garmin service: authentication, the fetches of activities, biometrics and VO2max, and the running and cycling improvement data. They are network calls whose results the model cannot see. The profile fields of the output (name, unit system, picture) come from the service and are left out of `YearData`.
- File and JSON input and output: `write_json`, `load_json` and `Wrapped.loadJson`. The outcome of the page's load is a parameter of `LoadCompleted`.
- Date handling: `parse_time`, `strftime` and the date sort at garmin-wrapped.py:348. Activities arrive already sorted and with decoded month, day and second of the day. The order decides the order of the sport groups, the key order of the time-of-day counts (garmin-wrapped.py:372), the order of equal counts in the time-of-day list (garmin-wrapped.py:383), and ties of the longest activity.
- TimeOfDay.MidpointHour: the midpoint is computed on exact reals, while `datetime.timedelta` at garmin-wrapped.py:144 rounds half the duration to whole microseconds. Near an hour boundary the two can differ: a start at second 17999 with a duration of 1.9999999 s gives "Morning" in the script (the half rounds to 1 s) and "Night" in the model.
- The year argument's `int()` parse error: the argument is an `Option<int>`. Today's date is a parameter of `ChooseYear`.
- DOM building, the slide methods' HTML, gsap timelines and screen geometry. What the page builders draw is not modelled; pages are ids.
- Floating point: sums, averages and the imperial conversion are exact reals. No IEEE rounding is claimed, and `convert_speed_to_pace` is left out.
- Null values: a null distance, duration or elevation gain makes the script raise (the comparison at garmin-wrapped.py:376, the time delta at :144, the sums). The model has no null for them: duration is always a number, and distance and elevation gain are a number or absent.
- `dict_to_list` also writes `name` into the summary dictionaries themselves, so the written `sports` entries gain a `name` key. The model returns tagged copies and leaves the summaries as they are.
- `BuildSortedList`: Python's sort is stable and the model's insertion sort is too, but the relative order of equal keys is not stated; only sortedness and permutation are.
- The dictionary literal at garmin-wrapped.py:43-44 lacks a comma, so the script as shown does not parse. The model uses the evident 18-entry table.
- The page's `data.sports.includes(...)` branch is an empty placeholder; no improvement slides or pace formatting exist in the code, so none are modelled.
- Format.BuildMonthlyTable: a percentage that JavaScript computes as NaN (undefined value, or `0 / 0`) or as minus infinity (a negative value over a zero maximum) is modelled as none.
- `humanDistance`: the code switches to kilometres from 30 km and to miles above 20 whole miles, and writes the amount without grouping separators; the model follows the code.
- `transition` has no guard against clicks while a swap animates. The model keeps the queue of pending swaps and proves that the cursor still stays within the list (`Slideshow.DoubleClick`).

## Findings

| source | as written | input that shows it | evidently intended | confidence | as-written member | corrected member |
|---|---|---|---|---|---|---|
| js/garmin-wrapped.js:30 | `this.data.sports.includes("Running")` is called on `data.sports`, which garmin-wrapped.py:381 writes as a dictionary, so it arrives as a plain object without `includes`; the call throws, the summary page is never pushed and `showFirstPage` never runs | any successful load of the script's output, e.g. sports `{"Running": {...}}` | test the sports by key (`"Running" in this.data.sports`), then push the summary page and show the first page | not executed | Slideshow.Wrapped.LoadCompletedAsWritten (with Slideshow.IncludesThrowsOnWrittenSports) | Slideshow.Wrapped.LoadCompleted (with Slideshow.HasSport) |
