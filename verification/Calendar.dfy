/** Dates as day numbers: weekdays, Iranian weeks and validated ranges. */
module Calendar {
  import opened Prelude

  /** Days are counted like `date.toordinal`: day 1 is a Monday. */
  type Day = int

  /** `date.weekday()`: Monday is 0. */
  function Weekday(d: Day): (w: int)
    ensures 0 <= w < 7
  {
    (d + 6) % 7
  }

  /** 0 = Saturday ... 6 = Friday, by table. */
  function WeekdayIndex(d: Day): (w: int)
    ensures 0 <= w < 7
  {
    match Weekday(d)
    case 5 => 0
    case 6 => 1
    case 0 => 2
    case 1 => 3
    case 2 => 4
    case 3 => 5
    case _ => 6
  }

  /** The table is a rotation: weekday indices count days modulo seven. */
  lemma WeekdayIndexCounts(d: Day, k: int)
    ensures WeekdayIndex(d) == (d + 1) % 7
    ensures WeekdayIndex(d + k) == (WeekdayIndex(d) + k) % 7
  {
    WeekdayIndexIsRotation(d);
    WeekdayIndexIsRotation(d + k);
    hide WeekdayIndex;
    assert (d + 1 + k) % 7 == ((d + 1) % 7 + k) % 7;
  }

  lemma WeekdayIndexIsRotation(d: Day)
    ensures WeekdayIndex(d) == (d + 1) % 7
  {}

  /** Two days fall on the same weekday exactly when whole weeks lie between them. */
  lemma SameWeekday(a: Day, b: Day)
    ensures WeekdayIndex(a) == WeekdayIndex(b) <==> (b - a) % 7 == 0
  {
    WeekdayIndexCounts(a, 0);
    WeekdayIndexCounts(b, 0);
  }

  function SaturdayOf(d: Day): Day { d - WeekdayIndex(d) }

  /** The Saturday of a date is the only Saturday among that date and the six before it. */
  lemma SaturdayOfIsSaturday(d: Day, s: Day)
    ensures d - 6 <= s <= d && WeekdayIndex(s) == 0 <==> s == SaturdayOf(d)
  {
    WeekdayIndexCounts(d, s - d);
  }

  datatype RangeError = EndBeforeStart | TooLong(days: int)

  /** `max_days or MAX_PLAN_RANGE_DAYS` has already been resolved to `limit`. */
  function ValidateRange(start: Day, end: Day, limit: int): Result<int, RangeError> {
    if end < start then Err(EndBeforeStart)
    else if end - start + 1 > limit then Err(TooLong(end - start + 1))
    else Ok(end - start + 1)
  }

  /** One concrete day of a plan: 1-based position, date, and weekday from the calendar. */
  datatype PlanDate = PlanDate(index: int, date: Day, weekday: int)

  function Range(start: Day, end: Day, limit: int): Result<seq<PlanDate>, RangeError> {
    match ValidateRange(start, end, limit)
    case Err(e) => Err(e)
    case Ok(days) =>
      assert days >= 1;
      Ok(seq(days, i requires 0 <= i < days => PlanDate(i + 1, start + i, WeekdayIndex(start + i))))
  }

  predicate IsCalendarWeek(days: seq<PlanDate>) {
    |days| == 7 && days[0].weekday == 0 && days[6].weekday == 6
  }

  /** A range of the calendar is a calendar week exactly when it runs from a Saturday over seven days. */
  lemma RangeIsCalendarWeek(start: Day, end: Day, limit: int)
    requires Range(start, end, limit).Ok?
    ensures IsCalendarWeek(Range(start, end, limit).value) <==> end == start + 6 && SaturdayOf(start) == start
  {
    WeekdayIndexCounts(start, 6);
  }
}
