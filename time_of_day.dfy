/** Bucketing an activity's midpoint into a named time of day. */
module TimeOfDay {

  /** One row of the bucket table: the hour a bucket starts at and its name. */
  datatype Bucket = Bucket(start: int, name: string)

  /** The bucket table, in increasing start order; the last row catches everything
      that no earlier interval holds. */
  const Table: seq<Bucket> := [
    Bucket(0, "Night"),
    Bucket(5, "Morning"),
    Bucket(11, "Lunch"),
    Bucket(13, "Afternoon"),
    Bucket(17, "Evening"),
    Bucket(21, "Night")]

  /** The hour of the clock time `duration / 2` seconds after the start. */
  function MidpointHour(startSecond: int, duration: real): (h: int)
    ensures 0 <= h < 24
    ensures var mid := (startSecond as real + duration / 2.0).Floor;
            h * 3600 <= mid % 86400 < (h + 1) * 3600
  {
    ((startSecond as real + duration / 2.0).Floor / 3600) % 24
  }

  /** The bucket names by interval of hours, independent of the table. */
  function BucketName(hour: int): string
  {
    if 5 <= hour < 11 then "Morning"
    else if 11 <= hour < 13 then "Lunch"
    else if 13 <= hour < 17 then "Afternoon"
    else if 17 <= hour < 21 then "Evening"
    else "Night"
  }

  /** The names a bucket can have. */
  const BucketNames: set<string> := {"Night", "Morning", "Lunch", "Afternoon", "Evening"}

  /** Scans the table for the interval `[start_i, start_{i+1})` that holds `hour`
      and falls through to the last row when none does. */
  method GetTimeOfDay(hour: int) returns (name: string)
    ensures name == BucketName(hour)
    ensures name in BucketNames
  {
    var i := 0;
    while i < |Table| - 1
      invariant 0 <= i <= |Table| - 1
      invariant forall k :: 0 <= k < i ==> !(Table[k].start <= hour < Table[k + 1].start)
    {
      if hour >= Table[i].start && hour < Table[i + 1].start {
        return Table[i].name;
      }
      i := i + 1;
    }
    assert Table[0].start == 0 && Table[1].start == 5 && Table[2].start == 11;
    assert Table[3].start == 13 && Table[4].start == 17 && Table[5].start == 21;
    assert !(0 <= hour < 5) && !(5 <= hour < 11) && !(11 <= hour < 13);
    assert !(13 <= hour < 17) && !(17 <= hour < 21);
    return Table[|Table| - 1].name;
  }
}
