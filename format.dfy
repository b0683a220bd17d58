/** The page's text formatting: pluralisation, the day/hour/minute rendering of a
    duration, the unit switch for distances, and the bar widths of a monthly table. */
module Format {
  import opened Wrappers
  import opened Activities

  // ----- Numbers as text -----

  function DigitChar(d: int): char
    requires 0 <= d < 10
  {
    "0123456789"[d]
  }

  function DigitValue(c: char): int
  {
    if '0' <= c <= '9' then c as int - '0' as int else 0
  }

  /** The decimal digits of `n`, without leading zeros. */
  function Digits(n: nat): (s: string)
    ensures |s| > 0
    ensures forall i :: 0 <= i < |s| ==> '0' <= s[i] <= '9'
  {
    if n < 10 then [DigitChar(n)] else Digits(n / 10) + [DigitChar(n % 10)]
  }

  /** Reads a string of decimal digits back as a number. */
  function ParseDigits(s: string): nat
  {
    if |s| == 0 then 0
    else ParseDigits(s[..|s| - 1]) * 10 + (var d := DigitValue(s[|s| - 1]); if d < 0 then 0 else d)
  }

  /** The digits of a number read back as that number, so distinct numbers read differently. */
  lemma {:induction false} DigitsRoundTrip(n: nat)
    ensures ParseDigits(Digits(n)) == n
  {
    if n >= 10 {
      DigitsRoundTrip(n / 10);
      var s := Digits(n);
      assert s[..|s| - 1] == Digits(n / 10);
    }
  }

  /** How a template literal writes an integral number. */
  function IntText(i: int): string
  {
    if i < 0 then "-" + Digits(-i) else Digits(i)
  }

  // ----- numberEnding -----

  /** The plural ending of a count. */
  function NumberEnding(n: int): (r: string)
    ensures r == "s" <==> n > 1
    ensures r == "" <==> n <= 1
  {
    if n > 1 then "s" else ""
  }

  // ----- humanTime -----

  /** `Math.round`: the nearest integer, halves rounded up. */
  function Round(x: real): (r: int)
    ensures x - 0.5 < r as real <= x + 0.5
  {
    (x + 0.5).Floor
  }

  /** A duration split into whole days, whole hours of the rest, and the rounded minutes of what remains. */
  datatype Clock = Clock(days: int, hours: int, minutes: int)

  function Decompose(seconds: real): Clock
  {
    var days := (seconds / 86400.0).Floor;
    var afterDays := seconds - days as real * 86400.0;
    var hours := (afterDays / 3600.0).Floor;
    var afterHours := afterDays - hours as real * 3600.0;
    Clock(days, hours, Round(afterHours / 60.0))
  }

  /** The hours stay below a day and the minutes reach at most 60; the parts put back
      together are the duration to within half a minute. */
  lemma DecomposeBounds(seconds: real)
    ensures var c := Decompose(seconds);
            && 0 <= c.hours < 24
            && 0 <= c.minutes <= 60
            && (seconds >= 0.0 ==> c.days >= 0)
            && seconds - 30.0 < (c.days * 86400 + c.hours * 3600 + c.minutes * 60) as real <= seconds + 30.0
  {
  }

  /** One component of the text: the count, its unit with the plural ending, and a separator;
      nothing when the count is not positive. */
  function Component(n: int, unit: string, sep: string): (r: string)
    ensures r == "" <==> n <= 0
  {
    if n > 0 then IntText(n) + unit + NumberEnding(n) + sep else ""
  }

  /** The text of a duration: its days, hours and minutes, in that order, each only when positive. */
  function HumanTimeText(seconds: real): string
  {
    var c := Decompose(seconds);
    Component(c.days, " day", " ") + Component(c.hours, " hour", " ") + Component(c.minutes, " minute", "")
  }

  /** Renders a duration in seconds, subtracting each component from the remainder in turn. */
  method HumanTime(seconds: real) returns (result: string)
    ensures result == HumanTimeText(seconds)
  {
    ghost var c := Decompose(seconds);
    var rest := seconds;
    result := "";
    var days := (rest / 86400.0).Floor;
    rest := rest - days as real * 86400.0;
    if days > 0 {
      result := result + (IntText(days) + " day" + NumberEnding(days) + " ");
    }
    assert result == Component(c.days, " day", " ");
    var hours := (rest / 3600.0).Floor;
    rest := rest - hours as real * 3600.0;
    assert hours == c.hours;
    if hours > 0 {
      result := result + (IntText(hours) + " hour" + NumberEnding(hours) + " ");
    }
    assert result == Component(c.days, " day", " ") + Component(c.hours, " hour", " ");
    var minutes := Round(rest / 60.0);
    assert minutes == c.minutes;
    rest := rest - minutes as real * 60.0;
    if minutes > 0 {
      result := result + (IntText(minutes) + " minute" + NumberEnding(minutes));
    }
  }

  /** The text is empty exactly when no component is positive. */
  lemma HumanTimeEmpty(seconds: real)
    ensures var c := Decompose(seconds);
            HumanTimeText(seconds) == "" <==> c.days <= 0 && c.hours <= 0 && c.minutes <= 0
  {
  }

  /** Under half a minute renders as the empty string. */
  lemma ShortDurationIsEmpty(seconds: real)
    requires 0.0 <= seconds < 30.0
    ensures HumanTimeText(seconds) == ""
  {
    var c := Decompose(seconds);
    assert c.days == 0;
    assert c.hours == 0;
    assert seconds / 60.0 < 0.5;
  }

  /** 59 minutes 30 seconds round up to a minute count of 60 rather than to an hour. */
  lemma RoundingReachesSixty()
    ensures Decompose(3570.0) == Clock(0, 0, 60)
    ensures HumanTimeText(3570.0) == "60 minutes"
  {
    assert (3570.0 / 86400.0).Floor == 0;
    assert (3570.0 / 3600.0).Floor == 0;
    assert Round(3570.0 / 60.0) == 60;
    assert Digits(60) == Digits(6) + [DigitChar(0)];
  }

  // ----- humanDistance -----

  /** The two unit systems; anything but "metric" is treated as imperial. */
  function IsMetric(unitSystem: string): bool
  {
    unitSystem == "metric"
  }

  /** `distance` in metres as a whole number of `unit`. */
  datatype Measure = Measure(amount: int, unit: string)

  /** Kilometres from thirty kilometres up, metres below; in imperial, miles above
      twenty whole miles, feet otherwise. Each amount is the whole number of its unit
      that the distance reaches, rounded down. */
  function DistanceMeasure(unitSystem: string, distance: real): (r: Measure)
    ensures IsMetric(unitSystem) ==> (r.unit == "km" <==> distance >= 30000.0)
    ensures IsMetric(unitSystem) ==> r.unit == "km" || r.unit == "m"
    ensures IsMetric(unitSystem) && r.unit == "km" ==>
              r.amount >= 30 && r.amount as real * 1000.0 <= distance < (r.amount + 1) as real * 1000.0
    ensures IsMetric(unitSystem) && r.unit == "m" ==> r.amount as real <= distance < r.amount as real + 1.0
    ensures !IsMetric(unitSystem) ==> (r.unit == "miles" <==> distance * 328084.0 >= 21.0 * 5280.0 * 100000.0)
    ensures !IsMetric(unitSystem) ==> r.unit == "miles" || r.unit == "ft"
    ensures !IsMetric(unitSystem) && r.unit == "miles" ==>
              r.amount > 20 && r.amount as real * 5280.0 <= distance * 3.28084 < (r.amount + 1) as real * 5280.0
    ensures !IsMetric(unitSystem) && r.unit == "ft" ==>
              r.amount as real <= distance * 3.28084 < r.amount as real + 1.0
  {
    if IsMetric(unitSystem) then
      var kms := (distance / 1000.0).Floor;
      FloorScaled(distance, 1000.0);
      if kms >= 30 then Measure(kms, "km") else Measure(distance.Floor, "m")
    else
      var feets := distance * 3.28084;
      var miles := (feets / 5280.0).Floor;
      FloorScaled(feets, 5280.0);
      if miles > 20 then Measure(miles, "miles") else Measure(feets.Floor, "ft")
  }

  /** The whole number of units of size `u` in `x`, rounded down, brackets `x`. */
  lemma FloorScaled(x: real, u: real)
    requires u > 0.0
    ensures (x / u).Floor as real * u <= x
    ensures x < ((x / u).Floor + 1) as real * u
  {
    var q := x / u;
    assert q * u == x;
    var k := q.Floor as real;
    var k1 := (q.Floor + 1) as real;
    assert k <= q < k1;
    ScaleMonotone(k, q, u);
    ScaleMonotone(q, k1, u);
    assert q * u < k1 * u;
    assert x < k1 * u;
  }

  /** Multiplying by a positive factor keeps the order. */
  lemma ScaleMonotone(a: real, b: real, u: real)
    requires a <= b && u > 0.0
    ensures a * u <= b * u && (a < b ==> a * u < b * u)
  {
    assert b * u - a * u == (b - a) * u;
  }

  /** The text of a distance: the whole amount and its unit. */
  function HumanDistance(unitSystem: string, distance: real): string
  {
    var m := DistanceMeasure(unitSystem, distance);
    IntText(m.amount) + " " + m.unit
  }

  /** The text of a non-negative distance is the decimal digits of its amount, which
      read back as that amount, then a space and the unit. */
  lemma HumanDistanceReadsBack(unitSystem: string, distance: real)
    requires distance >= 0.0
    ensures var m := DistanceMeasure(unitSystem, distance);
            var t := HumanDistance(unitSystem, distance);
            var k := |Digits(m.amount)|;
            && m.amount >= 0
            && k < |t|
            && ParseDigits(t[..k]) == m.amount
            && t[k..] == " " + m.unit
  {
    var m := DistanceMeasure(unitSystem, distance);
    assert m.amount >= 0 by {
      if !IsMetric(unitSystem) {
        assert distance * 3.28084 >= 0.0;
      }
    }
    var t := HumanDistance(unitSystem, distance);
    var k := |Digits(m.amount)|;
    assert t == Digits(m.amount) + (" " + m.unit);
    assert t[..k] == Digits(m.amount);
    DigitsRoundTrip(m.amount);
  }

  // ----- The bars of a monthly table -----

  /** `monthly[i + 1][entry]` for the twelve months; a month without the entry reads undefined. */
  function MonthValues(monthly: map<Month, map<string, real>>, entry: string): (vs: seq<Option<real>>)
    requires forall m: Month :: m in monthly
    ensures |vs| == 12
  {
    seq(12, i requires 0 <= i < 12 =>
      var counts := monthly[i + 1];
      if entry in counts then Some(counts[entry]) else None)
  }

  /** The running maximum over `vs`, starting from 0; undefined values never compare greater. */
  function Largest(vs: seq<Option<real>>): real
  {
    if |vs| == 0 then 0.0
    else
      var l := Largest(vs[..|vs| - 1]);
      var v := vs[|vs| - 1];
      if v.Some? && v.value > l then v.value else l
  }

  /** No value exceeds `Largest`, which is 0 or one of the values. */
  lemma {:induction false} LargestIsMaximum(vs: seq<Option<real>>)
    ensures Largest(vs) >= 0.0
    ensures forall i :: 0 <= i < |vs| && vs[i].Some? ==> vs[i].value <= Largest(vs)
    ensures Largest(vs) == 0.0 || exists i :: 0 <= i < |vs| && vs[i] == Some(Largest(vs))
  {
    if |vs| > 0 {
      var init := vs[..|vs| - 1];
      LargestIsMaximum(init);
      if Largest(vs) != Largest(init) {
        assert vs[|vs| - 1] == Some(Largest(vs));
      } else if Largest(vs) != 0.0 {
        var i :| 0 <= i < |init| && init[i] == Some(Largest(init));
        assert vs[i] == init[i];
      }
    }
  }

  /** A bar width in percent of the largest value; none (NaN) for an undefined value or a zero maximum. */
  function Percentage(v: Option<real>, largest: real): Option<int>
  {
    if v.Some? && largest != 0.0 then Some(Round(v.value / largest * 100.0)) else None
  }

  /** The bar widths of non-negative values lie between 0 and 100 percent. */
  lemma PercentagesBounded(vs: seq<Option<real>>, i: int)
    requires 0 <= i < |vs|
    requires forall j :: 0 <= j < |vs| && vs[j].Some? ==> vs[j].value >= 0.0
    requires Largest(vs) > 0.0 && vs[i].Some?
    ensures Percentage(vs[i], Largest(vs)).Some?
    ensures 0 <= Percentage(vs[i], Largest(vs)).value <= 100
  {
    LargestIsMaximum(vs);
    FractionWithin(vs[i].value, Largest(vs));
  }

  /** A value between 0 and a positive bound is that fraction of it, between 0 and 1. */
  lemma FractionWithin(x: real, l: real)
    requires 0.0 <= x <= l && l > 0.0
    ensures 0.0 <= x / l <= 1.0
  {
    var q := x / l;
    assert q * l == x;
  }

  /** The largest monthly value and each month's bar width. */
  method BuildMonthlyTable(monthly: map<Month, map<string, real>>, entry: string)
    returns (largest: real, percentages: seq<Option<int>>)
    requires forall m: Month :: m in monthly
    ensures largest == Largest(MonthValues(monthly, entry))
    ensures |percentages| == 12
    ensures forall i :: 0 <= i < 12 ==> percentages[i] == Percentage(MonthValues(monthly, entry)[i], largest)
  {
    var data := MonthValues(monthly, entry);
    largest := 0.0;
    var i := 0;
    while i < 12
      invariant 0 <= i <= 12
      invariant largest == Largest(data[..i])
    {
      assert data[..i + 1][..i] == data[..i];
      if data[i].Some? && data[i].value > largest {
        largest := data[i].value;
      }
      i := i + 1;
    }
    assert data[..12] == data;
    percentages := [];
    i := 0;
    while i < 12
      invariant 0 <= i <= 12
      invariant |percentages| == i
      invariant forall j :: 0 <= j < i ==> percentages[j] == Percentage(data[j], largest)
    {
      percentages := percentages + [Percentage(data[i], largest)];
      i := i + 1;
    }
  }
}
