/** The activity records that the summary script reads, with their dates
    already decoded, and the sport table that groups them. */
module Activities {
  import opened Wrappers

  type Month = m: int | 1 <= m <= 12 witness 1
  type Day = d: int | 1 <= d <= 31 witness 1
  /** Seconds since local midnight of an activity's start time. */
  type SecondOfDay = s: int | 0 <= s < 86400 witness 0

  /** A numeric field that an activity record may lack, carry as null, or carry as a number. */
  datatype Field = Missing | Null | Num(x: real)

  /** One activity as returned by the activity service, reduced to the fields the
      summary reads. `distance` and `elevationGain` are `None` when the key is absent. */
  datatype Activity = Activity(
    name: string,
    typeId: int,
    parentTypeId: Option<int>,
    month: Month,
    day: Day,
    startSecond: SecondOfDay,
    dateLabel: string,
    duration: real,
    distance: Option<real>,
    elevationGain: Option<real>,
    averageHR: Field,
    avgPower: Field)

  /** The distance in metres, 0 when the record has none. */
  function Distance(a: Activity): real { a.distance.GetOr(0.0) }

  /** The elevation gain in metres, 0 when the record has none. */
  function ElevationGain(a: Activity): real { a.elevationGain.GetOr(0.0) }

  /** A field read with a 0 default: an absent field reads 0, a null one stays null (`None`). */
  function FieldOr0(f: Field): Option<real>
  {
    match f
    case Missing => Some(0.0)
    case Null => None
    case Num(x) => Some(x)
  }

  /** The record kept for the longest activity. */
  datatype ActivityDigest = ActivityDigest(
    name: string,
    distance: real,
    duration: real,
    elevationGain: real,
    avgHr: Option<real>,
    avgPower: Option<real>,
    date: string)

  /** The digest of an activity; every numeric field falls back to 0 when the key is absent. */
  function FilterActivity(a: Activity): (r: ActivityDigest)
    ensures r.name == a.name && r.date == a.dateLabel
    ensures r.distance == Distance(a) && r.duration == a.duration && r.elevationGain == ElevationGain(a)
    ensures a.averageHR.Missing? ==> r.avgHr == Some(0.0)
    ensures a.averageHR.Null? ==> r.avgHr.None?
    ensures a.averageHR.Num? ==> r.avgHr == Some(a.averageHR.x)
    ensures a.avgPower.Missing? ==> r.avgPower == Some(0.0)
    ensures a.avgPower.Null? ==> r.avgPower.None?
    ensures a.avgPower.Num? ==> r.avgPower == Some(a.avgPower.x)
  {
    ActivityDigest(a.name, Distance(a), a.duration, ElevationGain(a),
                   FieldOr0(a.averageHR), FieldOr0(a.avgPower), a.dateLabel)
  }

  /** The table of activity-type ids that count as top-level sports: the display
      name of an id in the table, none for any other id. */
  function TopLevelSport(typeId: int): Option<string>
  {
    match typeId
    case 1 => Some("Running")
    case 2 => Some("Cycling")
    case 3 => Some("Hiking")
    case 9 => Some("Walking")
    case 13 => Some("Strength Training")
    case 26 => Some("Swimming")
    case 32 => Some("Indoor Rowing")
    case 37 => Some("Mounteneering")
    case 163 => Some("Yoga")
    case 11 => Some("Cardio")
    case 171 => Some("Cross Country Skiing")
    case 172 => Some("Alpine Skiing / Snowboarding")
    case 165 => Some("Winter Sports")
    case 174 => Some("Bouldering")
    case 89 => Some("Multi Sport")
    case 219 => Some("Racket sports")
    case 210 => Some("Field Hockey")
    case 4 => Some("Other")
    case _ => None
  }

  /** The top-level sport of an activity: its own type when that is in the table,
      otherwise its parent type when that is, otherwise none (the activity is ignored). */
  function FindActivityGroup(a: Activity): (r: Option<string>)
    ensures TopLevelSport(a.typeId).Some? ==> r == TopLevelSport(a.typeId)
    ensures TopLevelSport(a.typeId).None? && a.parentTypeId.Some? ==> r == TopLevelSport(a.parentTypeId.value)
    ensures r.None? <==> TopLevelSport(a.typeId).None? && (a.parentTypeId.None? || TopLevelSport(a.parentTypeId.value).None?)
  {
    if TopLevelSport(a.typeId).None? then
      if a.parentTypeId.Some? && TopLevelSport(a.parentTypeId.value).Some? then
        TopLevelSport(a.parentTypeId.value)
      else
        None
    else
      TopLevelSport(a.typeId)
  }
}
