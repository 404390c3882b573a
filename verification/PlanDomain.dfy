/** The weekly plan in memory: its seven rows, their dates, and the operations that copy or edit them. */
module PlanDomain {
  import opened Prelude
  import opened Strings
  import opened Calendar
  import opened Sorting

  const SLOTS_PER_DAY := 8

  datatype Activity = Activity(
    slot: int, subject: string, topic: string, description: string, duration: string, notes: string)
  {
    predicate IsEmpty() {
      Strip(subject) == "" && Strip(topic) == "" && Strip(description) == "" && Strip(duration) == ""
    }
  }

  /** One row of the sheet: 0 = Saturday ... 6 = Friday; rows outside the plan's range have no date. */
  datatype PlanDay = PlanDay(weekday: int, date: Option<Day>, activities: seq<Activity>)

  datatype Assignment = Assignment(text: string, order: int)

  // ---------------------------------------------------------------- one day

  const SlotOf: Activity -> int := (a: Activity) => a.slot

  function WithoutSlot(activities: seq<Activity>, index: int): seq<Activity> {
    if activities == [] then []
    else (if activities[0].slot != index then [activities[0]] else []) + WithoutSlot(activities[1..], index)
  }

  /** `PlanDay.set_slot` on the activity list; an index outside the grid is an error. */
  function SetSlot(activities: seq<Activity>, index: int, activity: Option<Activity>): Option<seq<Activity>> {
    if !(0 <= index < SLOTS_PER_DAY) then None
    else
      var kept := WithoutSlot(activities, index);
      var added := if activity.Some? && !activity.value.IsEmpty() then [activity.value.(slot := index)] else [];
      Some(SortBy(SlotOf, kept + added))
  }

  /** At most one activity per slot, in slot order: what `set_slot` keeps. */
  predicate SlotOrdered(activities: seq<Activity>) {
    StrictlyBy(SlotOf, activities)
  }

  lemma {:induction false} WithoutSlotMembers(activities: seq<Activity>, index: int)
    ensures forall a :: a in WithoutSlot(activities, index) <==> a in activities && a.slot != index
  {
    if activities != [] {
      WithoutSlotMembers(activities[1..], index);
      assert forall a :: a in activities <==> a == activities[0] || a in activities[1..];
    }
  }

  lemma {:induction false} WithoutSlotOrdered(activities: seq<Activity>, index: int)
    requires SlotOrdered(activities)
    ensures SlotOrdered(WithoutSlot(activities, index))
  {
    if activities != [] {
      WithoutSlotOrdered(activities[1..], index);
      WithoutSlotMembers(activities[1..], index);
    }
  }

  /**
   Setting a slot replaces exactly that slot's activity: the new one is there unless it is absent or empty, every
   other activity stays, and the day stays in slot order with one activity per slot.
   */
  lemma SetSlotReplaces(activities: seq<Activity>, index: int, activity: Option<Activity>)
    requires SlotOrdered(activities) && 0 <= index < 8
    ensures var r := SetSlot(activities, index, activity).value;
            && SlotOrdered(r)
            && forall a :: a in r <==>
                 (a in activities && a.slot != index)
                 || (activity.Some? && !activity.value.IsEmpty() && a == activity.value.(slot := index))
  {
    var kept := WithoutSlot(activities, index);
    var added := if activity.Some? && !activity.value.IsEmpty() then [activity.value.(slot := index)] else [];
    WithoutSlotMembers(activities, index);
    WithoutSlotOrdered(activities, index);
    var all := kept + added;
    forall i, j | 0 <= i < j < |all| ensures SlotOf(all[i]) != SlotOf(all[j]) {
      if j >= |kept| {
        assert kept[i] in kept;
      }
    }
    SortStrict(SlotOf, all);
    forall a ensures a in SortBy(SlotOf, all) <==> a in kept || a in added {
      SortMember(ByKey(SlotOf), all, a);
    }
  }

  // ---------------------------------------------------------------- ranges

  /** The seven rows of the sheet, Saturday first. */
  predicate IsSheet(days: seq<PlanDay>) {
    |days| == 7 && forall w :: 0 <= w < 7 ==> days[w].weekday == w
  }

  /** The date a range gives to a weekday; a later day of the range wins. */
  function DateFor(range: seq<PlanDate>, weekday: int): Option<Day> {
    if range == [] then None
    else if range[|range| - 1].weekday == weekday then Some(range[|range| - 1].date)
    else DateFor(range[..|range| - 1], weekday)
  }

  function Dated(days: seq<PlanDay>, range: seq<PlanDate>): seq<PlanDay> {
    seq(|days|, i requires 0 <= i < |days| => days[i].(date := DateFor(range, days[i].weekday)))
  }

  function RangeDays(start: Day, n: nat): seq<PlanDate> {
    seq(n, i requires 0 <= i < n => PlanDate(i + 1, start + i, WeekdayIndex(start + i)))
  }

  /** Within one week a weekday determines the date. */
  lemma {:induction false} DateForRange(start: Day, n: nat, weekday: int)
    requires n <= 7 && 0 <= weekday < 7
    ensures forall d :: DateFor(RangeDays(start, n), weekday) == Some(d) <==>
                        start <= d < start + n && WeekdayIndex(d) == weekday
  {
    if n > 0 {
      var range := RangeDays(start, n);
      assert range[..n - 1] == RangeDays(start, n - 1);
      DateForRange(start, n - 1, weekday);
      forall d | start <= d < start + n && WeekdayIndex(d) == WeekdayIndex(start + n - 1)
        ensures d == start + n - 1
      {
        SameWeekday(d, start + n - 1);
      }
    }
  }

  /** In a range of any length a row gets the last date of its weekday. */
  lemma {:induction false} LastDateWins(start: Day, n: nat, weekday: int, d: Day)
    ensures DateFor(RangeDays(start, n), weekday) == Some(d) <==>
            && start <= d < start + n && WeekdayIndex(d) == weekday
            && forall e :: d < e < start + n ==> WeekdayIndex(e) != weekday
    ensures DateFor(RangeDays(start, n), weekday) == None <==>
            forall e :: start <= e < start + n ==> WeekdayIndex(e) != weekday
  {
    hide WeekdayIndex;
    if n > 0 {
      var range := RangeDays(start, n);
      assert range[..n - 1] == RangeDays(start, n - 1);
      assert range[n - 1] == PlanDate(n, start + n - 1, WeekdayIndex(start + n - 1));
      LastDateWins(start, n - 1, weekday, d);
    }
  }

  /** The sort key of a row that has a date. */
  const DateOf: PlanDay -> int := (d: PlanDay) => if d.date.Some? then d.date.value else 0

  function WithDate(days: seq<PlanDay>): seq<PlanDay> {
    if days == [] then [] else (if days[0].date.Some? then [days[0]] else []) + WithDate(days[1..])
  }

  /** `plan_days`: the rows that have a date, in chronological order. */
  function PlanDays(days: seq<PlanDay>): seq<PlanDay> { SortBy(DateOf, WithDate(days)) }

  lemma {:induction false} WithDateMembers(days: seq<PlanDay>)
    ensures forall d :: d in WithDate(days) <==> d in days && d.date.Some?
  {
    if days != [] {
      WithDateMembers(days[1..]);
      assert forall d :: d in days <==> d == days[0] || d in days[1..];
    }
  }

  /** An increasing list that covers an interval lists it one by one. */
  lemma {:induction false} CoversInterval(ds: seq<int>, start: int, n: nat)
    requires forall i, j :: 0 <= i < j < |ds| ==> ds[i] < ds[j]
    requires forall d :: d in ds <==> start <= d < start + n
    ensures |ds| == n && forall i :: 0 <= i < n ==> ds[i] == start + i
  {
    if ds == [] {
      assert start in ds <==> n > 0;
    } else {
      assert ds[0] in ds;
      assert start in ds;
      assert ds[0] == start;
      forall d ensures d in ds[1..] <==> start + 1 <= d < start + n {
        assert d in ds <==> d == ds[0] || d in ds[1..];
        if d in ds[1..] {
          var k :| 0 <= k < |ds[1..]| && ds[1..][k] == d;
          assert ds[k + 1] == d && ds[0] < ds[k + 1];
        }
      }
      CoversInterval(ds[1..], start + 1, n - 1);
    }
  }

  lemma {:induction false} WithDateDistinct(days: seq<PlanDay>, start: Day, n: nat)
    requires n <= 7
    requires forall i, j :: 0 <= i < j < |days| ==> days[i].weekday != days[j].weekday
    requires forall d <- days :: 0 <= d.weekday < 7 && d.date == DateFor(RangeDays(start, n), d.weekday)
    ensures DistinctKeys(DateOf, WithDate(days))
  {
    if days != [] {
      var head, tail := days[0], days[1..];
      WithDateDistinct(tail, start, n);
      WithDateMembers(tail);
      forall d | d in WithDate(tail) && head.date.Some? ensures DateOf(d) != DateOf(head) {
        assert d in tail && d.weekday != head.weekday;
        DateForRange(start, n, d.weekday);
        DateForRange(start, n, head.weekday);
      }
    }
  }

  /** The row a range gives to day `d`. */
  function RowFor(days: seq<PlanDay>, d: Day): PlanDay
    requires IsSheet(days)
  {
    days[WeekdayIndex(d)].(date := Some(d))
  }

  /** A dated row of the sheet is the row of its date, and every date of the range has one. */
  lemma DatedRows(days: seq<PlanDay>, start: Day, n: nat)
    requires IsSheet(days) && n <= 7
    ensures forall x: PlanDay :: x in WithDate(Dated(days, RangeDays(start, n))) <==>
                        x.date.Some? && start <= x.date.value < start + n && x == RowFor(days, x.date.value)
  {
    var dated := Dated(days, RangeDays(start, n));
    WithDateMembers(dated);
    forall w | 0 <= w < 7 { DateForRange(start, n, w); }
    forall x: PlanDay | x.date.Some? && start <= x.date.value < start + n && x == RowFor(days, x.date.value)
      ensures x in dated
    {
      assert dated[WeekdayIndex(x.date.value)] == x;
    }
  }

  /**
   Applying a range of at most seven days is a bijection between its dates and the dated rows: in order, day `i` of
   the range is the row of its true weekday, with that row's activities.
   */
  lemma RangeFillsRows(days: seq<PlanDay>, start: Day, n: nat)
    requires IsSheet(days) && n <= 7
    ensures var rows := PlanDays(Dated(days, RangeDays(start, n)));
            |rows| == n && forall i :: 0 <= i < n ==> rows[i] == RowFor(days, start + i)
  {
    RowsInOrder(days, start, n);
    var rows := PlanDays(Dated(days, RangeDays(start, n)));
    DatesCover(days, rows, start, n);
    var ds := Dates(rows);
    CoversInterval(ds, start, n);
    forall i | 0 <= i < n ensures rows[i] == RowFor(days, start + i) {
      assert DateOf(rows[i]) == ds[i];
    }
  }

  lemma DatesCover(days: seq<PlanDay>, rows: seq<PlanDay>, start: Day, n: nat)
    requires IsSheet(days)
    requires forall i :: 0 <= i < |rows| ==> start <= DateOf(rows[i]) < start + n
    requires forall d :: start <= d < start + n ==> RowFor(days, d) in rows
    ensures forall d :: d in Dates(rows) <==> start <= d < start + n
  {
    forall d | start <= d < start + n ensures d in Dates(rows) {
      var i :| 0 <= i < |rows| && rows[i] == RowFor(days, d);
      assert Dates(rows)[i] == d;
    }
  }

  function Dates(rows: seq<PlanDay>): seq<int> {
    seq(|rows|, i requires 0 <= i < |rows| => DateOf(rows[i]))
  }

  /** The dated rows come in strictly increasing order of date, and each is the row of its date. */
  lemma RowsInOrder(days: seq<PlanDay>, start: Day, n: nat)
    requires IsSheet(days) && n <= 7
    ensures var rows := PlanDays(Dated(days, RangeDays(start, n)));
            && (forall i, j :: 0 <= i < j < |rows| ==> DateOf(rows[i]) < DateOf(rows[j]))
            && (forall i :: 0 <= i < |rows| ==>
                  start <= DateOf(rows[i]) < start + n && rows[i] == RowFor(days, DateOf(rows[i])))
            && (forall d :: start <= d < start + n ==> RowFor(days, d) in rows)
  {
    var picked := WithDate(Dated(days, RangeDays(start, n)));
    WithDateDistinct(Dated(days, RangeDays(start, n)), start, n);
    SortStrict(DateOf, picked);
    DatedRows(days, start, n);
    var rows := SortBy(DateOf, picked);
    forall x ensures x in rows <==> x in picked {
      SortMember(ByKey(DateOf), picked, x);
    }
    assert forall i :: 0 <= i < |rows| ==> rows[i] in rows;
  }

  // ---------------------------------------------------------------- counting

  /** Activities of a row that are not empty. */
  function Filled(activities: seq<Activity>): nat {
    if activities == [] then 0 else (if activities[0].IsEmpty() then 0 else 1) + Filled(activities[1..])
  }

  function SumFilled(days: seq<PlanDay>): nat {
    if days == [] then 0 else Filled(days[0].activities) + SumFilled(days[1..])
  }

  /** `activity_count`: only rows with a date count. */
  function ActivityCount(days: seq<PlanDay>): nat { SumFilled(PlanDays(days)) }

  /** None of its four parts holds anything. */
  predicate HoldsNothing(a: Activity) {
    Strip(a.subject) == "" && Strip(a.topic) == "" && Strip(a.description) == "" && Strip(a.duration) == ""
  }

  /** The count of a row is the number of its activities that hold something. */
  lemma {:induction false} FilledCounts(a: seq<Activity>, b: seq<Activity>)
    ensures Filled(a + b) == Filled(a) + Filled(b)
    ensures Filled([]) == 0 && forall x :: Filled([x]) == if HoldsNothing(x) then 0 else 1
  {
    hide Strip;
    forall x ensures Filled([x]) == if HoldsNothing(x) then 0 else 1 {
      assert [x][1..] == [];
    }
    if a == [] {
      assert a + b == b;
    } else {
      assert (a + b)[0] == a[0] && (a + b)[1..] == a[1..] + b;
      FilledCounts(a[1..], b);
    }
  }

  lemma {:induction false} InsertKeepsSum(le: (PlanDay, PlanDay) -> bool, d: PlanDay, days: seq<PlanDay>)
    ensures SumFilled(Insert(le, d, days)) == Filled(d.activities) + SumFilled(days)
  {
    if days != [] && !le(d, days[0]) {
      InsertKeepsSum(le, d, days[1..]);
    }
  }

  lemma {:induction false} SortKeepsSum(le: (PlanDay, PlanDay) -> bool, days: seq<PlanDay>)
    ensures SumFilled(Sort(le, days)) == SumFilled(days)
  {
    if days != [] {
      SortKeepsSum(le, days[1..]);
      InsertKeepsSum(le, days[0], Sort(le, days[1..]));
    }
  }

  lemma {:induction false} WithDateKeepsAll(days: seq<PlanDay>)
    requires forall d <- days :: d.date.Some?
    ensures WithDate(days) == days
  {
    if days != [] {
      assert days[0] in days && forall d <- days[1..] :: d in days;
      WithDateKeepsAll(days[1..]);
    }
  }

  lemma {:induction false} SumIgnoresDates(a: seq<PlanDay>, b: seq<PlanDay>)
    requires |a| == |b| && forall i :: 0 <= i < |a| ==> a[i].activities == b[i].activities
    ensures SumFilled(a) == SumFilled(b)
  {
    if a != [] {
      SumIgnoresDates(a[1..], b[1..]);
    }
  }

  /** When every row has a date, all the activities of the sheet count. */
  lemma FullSheetCount(days: seq<PlanDay>)
    requires forall d <- days :: d.date.Some?
    ensures ActivityCount(days) == SumFilled(days)
  {
    WithDateKeepsAll(days);
    SortKeepsSum(ByKey(DateOf), days);
  }

  /** A calendar week gives each row the day of that weekday. */
  lemma WeekDates(days: seq<PlanDay>, anchor: Day)
    requires IsSheet(days)
    ensures var dated := Dated(days, RangeDays(SaturdayOf(anchor), 7));
            forall w :: 0 <= w < 7 ==> dated[w] == days[w].(date := Some(SaturdayOf(anchor) + w))
  {
    var saturday := SaturdayOf(anchor);
    SaturdayOfIsSaturday(anchor, saturday);
    forall w | 0 <= w < 7 ensures DateFor(RangeDays(saturday, 7), w) == Some(saturday + w) {
      WeekdayIndexCounts(saturday, w);
      DateForRange(saturday, 7, w);
    }
  }

  lemma {:induction false} WithDateAll(days: seq<PlanDay>)
    ensures |WithDate(days)| <= |days|
    ensures |WithDate(days)| == |days| ==> forall d <- days :: d.date.Some?
  {
    if days != [] {
      WithDateAll(days[1..]);
      assert forall d <- days :: d == days[0] || d in days[1..];
    }
  }

  /** A sheet with seven plan days has a date in every row. */
  lemma FullWeekIsDated(days: seq<PlanDay>)
    requires IsSheet(days) && |PlanDays(days)| == 7
    ensures forall d <- days :: d.date.Some?
  {
    SortMultiset(ByKey(DateOf), WithDate(days));
    assert |multiset(PlanDays(days))| == |multiset(WithDate(days))|;
    WithDateAll(days);
  }

  /** What a row adds to the activity count. */
  function DatedCount(d: PlanDay): nat { if d.date.Some? then Filled(d.activities) else 0 }

  function SumDated(days: seq<PlanDay>): nat {
    if days == [] then 0 else DatedCount(days[0]) + SumDated(days[1..])
  }

  lemma {:induction false} SumOfDated(days: seq<PlanDay>)
    ensures SumFilled(WithDate(days)) == SumDated(days)
  {
    if days != [] {
      SumOfDated(days[1..]);
      if days[0].date.Some? {
        assert WithDate(days)[1..] == WithDate(days[1..]);
      } else {
        assert WithDate(days) == WithDate(days[1..]);
      }
    }
  }

  lemma {:induction false} SumDatedUpdate(days: seq<PlanDay>, i: nat, d: PlanDay)
    requires i < |days|
    ensures SumDated(days[i := d]) == SumDated(days) - DatedCount(days[i]) + DatedCount(d)
  {
    if i == 0 {
      assert days[i := d][1..] == days[1..];
    } else {
      assert days[i := d][1..] == days[1..][i - 1 := d];
      SumDatedUpdate(days[1..], i - 1, d);
    }
  }

  /** Replacing one row changes the activity count by that row's share. */
  lemma RowChangesCount(days: seq<PlanDay>, i: nat, d: PlanDay)
    requires i < |days|
    ensures ActivityCount(days[i := d]) == ActivityCount(days) - DatedCount(days[i]) + DatedCount(d)
  {
    SortKeepsSum(ByKey(DateOf), WithDate(days));
    SortKeepsSum(ByKey(DateOf), WithDate(days[i := d]));
    SumOfDated(days);
    SumOfDated(days[i := d]);
    SumDatedUpdate(days, i, d);
  }

  // ---------------------------------------------------------------- the plan object

  /** The rows of a sheet without their dates. */
  function Undated(days: seq<PlanDay>): seq<PlanDay> {
    seq(|days|, i requires 0 <= i < |days| => days[i].(date := None))
  }

  /** Copying a full week onto another week keeps the number of activities. */
  lemma WeekCopyKeepsCount(days: seq<PlanDay>, newStart: Day)
    requires IsSheet(days) && |PlanDays(days)| == 7
    ensures var copy := Dated(Undated(days), RangeDays(SaturdayOf(newStart), 7));
            |PlanDays(copy)| == 7 && ActivityCount(copy) == ActivityCount(days)
  {
    var copy := Dated(Undated(days), RangeDays(SaturdayOf(newStart), 7));
    WeekDates(Undated(days), newStart);
    FullWeekIsDated(days);
    assert forall d <- copy :: d.date.Some?;
    FullSheetCount(copy);
    FullSheetCount(days);
    SumIgnoresDates(days, copy);
    RangeFillsRows(Undated(days), SaturdayOf(newStart), 7);
  }

  /** Copying a range onto another start keeps its length and takes each new date's own row. */
  lemma RangeCopyRows(days: seq<PlanDay>, newStart: Day, n: nat)
    requires IsSheet(days) && n <= 7
    ensures var rows := PlanDays(Dated(Undated(days), RangeDays(newStart, n)));
            |rows| == n && forall i :: 0 <= i < n ==> rows[i] == RowFor(days, newStart + i)
  {
    RangeFillsRows(Undated(days), newStart, n);
  }

  predicate HasRow(days: seq<PlanDay>, weekday: int) { exists d <- days :: d.weekday == weekday }

  function EmptyRow(weekday: int): PlanDay { PlanDay(weekday, None, []) }

  /** Apart from its date the row is a given one, or empty when none is given for its weekday. */
  predicate IsRowOf(given: seq<PlanDay>, row: PlanDay) {
    if HasRow(given, row.weekday) then exists g <- given :: g.(date := row.date) == row
    else row == EmptyRow(row.weekday).(date := row.date)
  }

  /** Rows for the weekdays that are missing. */
  function MissingRows(days: seq<PlanDay>, from: int): seq<PlanDay>
    requires 0 <= from <= 7
    decreases 7 - from
  {
    if from == 7 then []
    else (if HasRow(days, from) then [] else [EmptyRow(from)]) + MissingRows(days, from + 1)
  }

  /** Dating one more row of a sheet. */
  lemma DatedStep(days: seq<PlanDay>, range: seq<PlanDate>, i: nat)
    requires i < |days|
    ensures var mid := Dated(days, range)[..i] + days[i..];
            mid[i := mid[i].(date := DateFor(range, mid[i].weekday))] == Dated(days, range)[..i + 1] + days[i + 1..]
  {
    hide DateFor;
  }

  lemma RangeIsListed(start: Day, end: Day, limit: int)
    ensures Range(start, end, limit).Ok? <==> ValidateRange(start, end, limit).Ok?
    ensures Range(start, end, limit).Ok? ==> end >= start && Range(start, end, limit).value == RangeDays(start, end - start + 1)
  {}

  const WeekdayOf: PlanDay -> int := (d: PlanDay) => d.weekday

  function CompletedRows(given: seq<PlanDay>): seq<PlanDay> { SortBy(WeekdayOf, given + MissingRows(given, 0)) }

  /** The seven rows of a new plan: the given ones and empty ones, dated by the week of `start` if there is one. */
  predicate CompletesRows(given: seq<PlanDay>, days: seq<PlanDay>, start: Option<Day>) {
    && IsSheet(days)
    && forall w :: 0 <= w < 7 ==>
         && IsRowOf(given, days[w])
         && match start {
              case Some(d) => days[w].date == Some(SaturdayOf(d) + w)
              case None => if HasRow(given, w) then days[w] in given else days[w] == EmptyRow(w)
            }
  }

  /** The plan with its list of rows, edited in place. */
  class WeeklyPlan {
    var studentName: string
    var weekStart: Option<Day>
    var weekEnd: Option<Day>
    var days: seq<PlanDay>
    var assignments: seq<Assignment>

    predicate Valid()
      reads this
    {
      IsSheet(days)
    }

    /**
     Rows that are not given are added, in weekday order. A given week start snaps to its Saturday and dates every row;
     with a range limit below seven days that is refused like any other range, and the rows stay as they were.
     */
    constructor (
        studentName: string, start: Option<Day>, end: Option<Day>, given: seq<PlanDay>, assignments: seq<Assignment>,
        limit: int)
      requires DistinctKeys(WeekdayOf, given) && forall d <- given :: 0 <= d.weekday < 7
      ensures Valid() && this.studentName == studentName && this.assignments == assignments
      ensures CompletesRows(given, days, if limit >= 7 then start else None)
      ensures start.None? ==> weekStart == None && weekEnd == end
      ensures start.Some? ==> weekStart == Some(SaturdayOf(start.value)) && weekEnd == Some(SaturdayOf(start.value) + 6)
    {
      this.studentName, this.assignments := studentName, assignments;
      weekStart, weekEnd := start, end;
      days := CompletedRows(given);
      new;
      hide CompletedRows, SaturdayOf, Dated, IsSheet, CompletesRows, ValidateRange, RangeDays, DistinctKeys;
      ghost var rows := days;
      RowsOfGiven(given);
      if start.Some? {
        WeekIsAccepted(start.value, limit);
        var r := ApplyWeekStart(start.value, limit);
        if limit >= 7 {
          RedatedRows(given, rows, start.value);
        }
      }
    }

    /**
     Custom-range mode. The range is stored before it is checked, so a refused range leaves the rows alone but
     not the two dates.
     */
    method ApplyRange(start: Day, end: Day, limit: int) returns (r: Result<int, RangeError>)
      requires Valid()
      modifies this
      ensures Valid() && weekStart == Some(start) && weekEnd == Some(end)
      ensures studentName == old(studentName) && assignments == old(assignments)
      ensures r == ValidateRange(start, end, limit)
      ensures r.Ok? <==> start <= end && end - start + 1 <= limit
      ensures r.Ok? ==> days == Dated(old(days), RangeDays(start, end - start + 1))
      ensures r.Err? ==> days == old(days)
    {
      RangeIsAccepted(start, end, limit);
      hide DateFor, ValidateRange;
      weekStart, weekEnd := Some(start), Some(end);
      RangeIsListed(start, end, limit);
      r := ValidateRange(start, end, limit);
      var range := Range(start, end, limit);
      if range.Ok? {
        var i := 0;
        while i < |days|
          invariant 0 <= i <= |days| == 7
          invariant days == Dated(old(days), range.value)[..i] + old(days)[i..]
          invariant weekStart == Some(start) && weekEnd == Some(end)
          invariant studentName == old(studentName) && assignments == old(assignments)
        {
          DatedStep(old(days), range.value, i);
          days := days[i := days[i].(date := DateFor(range.value, days[i].weekday))];
          i := i + 1;
        }
      }
    }

    /** Calendar-week mode: snaps to the Saturday, then Saturday to Friday. */
    method ApplyWeekStart(start: Day, limit: int) returns (r: Result<int, RangeError>)
      requires Valid()
      modifies this
      ensures Valid() && weekStart == Some(SaturdayOf(start)) && weekEnd == Some(SaturdayOf(start) + 6)
      ensures studentName == old(studentName) && assignments == old(assignments)
      ensures r == ValidateRange(SaturdayOf(start), SaturdayOf(start) + 6, limit)
      ensures r.Ok? <==> limit >= 7
      ensures r.Ok? ==> days == Dated(old(days), RangeDays(SaturdayOf(start), 7))
      ensures r.Err? ==> days == old(days)
    {
      r := ApplyRange(SaturdayOf(start), SaturdayOf(start) + 6, limit);
    }

    /** Seven days with every row dated; that the first of them is a Saturday is not checked. */
    predicate IsCalendarWeek()
      reads this
    {
      weekStart.Some? && weekEnd.Some? && weekEnd.value - weekStart.value == 6 && |PlanDays(days)| == 7
    }

    method SetSlotOn(weekday: int, index: int, activity: Option<Activity>) returns (ok: bool)
      requires Valid() && 0 <= weekday < 7
      modifies this`days
      ensures Valid() && ok == SetSlot(old(days)[weekday].activities, index, activity).Some?
      ensures ok <==> 0 <= index < 8
      ensures forall w :: 0 <= w < 7 && (w != weekday || !ok) ==> days[w] == old(days)[w]
      ensures ok ==> days[weekday] == old(days)[weekday].(
                       activities := SetSlot(old(days)[weekday].activities, index, activity).value)
    {
      var r := SetSlot(days[weekday].activities, index, activity);
      ok := r.Some?;
      if ok {
        days := days[weekday := days[weekday].(activities := r.value)];
      }
    }

    /**
     The target row takes copies of the source row's activities and keeps its date, the other rows stay, and the
     activity count changes by exactly the difference when the target row belongs to the plan.
     */
    method CopyDay(src: int, dst: int)
      requires Valid() && 0 <= src < 7 && 0 <= dst < 7
      modifies this`days
      ensures Valid() && days[dst].activities == old(days)[src].activities
      ensures forall w :: 0 <= w < 7 ==>
                days[w].date == old(days)[w].date && (w != dst ==> days[w] == old(days)[w])
      ensures ActivityCount(days) ==
              if old(days)[dst].date.None? then ActivityCount(old(days))
              else ActivityCount(old(days)) - Filled(old(days)[dst].activities) + Filled(old(days)[src].activities)
    {
      RowChangesCount(days, dst, days[dst].(activities := days[src].activities));
      days := days[dst := days[dst].(activities := days[src].activities)];
    }

    /**
     A copy on a new start date, refused like any other range. A calendar week snaps to the Saturday and keeps its number
     of activities; a shorter range starts exactly where asked and keeps its length.
     */
    method Duplicate(newStart: Day, limit: int) returns (clone: WeeklyPlan, r: Result<int, RangeError>)
      requires Valid()
      ensures fresh(clone) && clone.Valid()
      ensures clone.studentName == studentName && clone.assignments == assignments
      ensures forall w :: 0 <= w < 7 ==> clone.days[w].activities == days[w].activities
      ensures IsCalendarWeek() || weekStart.None? || weekEnd.None? ==>
                && r == ValidateRange(SaturdayOf(newStart), SaturdayOf(newStart) + 6, limit) && (r.Ok? <==> limit >= 7)
                && clone.weekStart == Some(SaturdayOf(newStart)) && clone.weekEnd == Some(SaturdayOf(newStart) + 6)
      ensures IsCalendarWeek() && r.Ok? ==> clone.IsCalendarWeek() && ActivityCount(clone.days) == ActivityCount(days)
      ensures !IsCalendarWeek() && weekStart.Some? && weekEnd.Some? ==>
                var span := weekEnd.value - weekStart.value;
                && r == ValidateRange(newStart, newStart + span, limit) && (r.Ok? <==> 0 <= span && span + 1 <= limit)
                && clone.weekStart == Some(newStart) && clone.weekEnd == Some(newStart + span)
                && (r.Ok? && span < 7 ==>
                      && |PlanDays(clone.days)| == span + 1
                      && (forall i :: 0 <= i <= span ==> PlanDays(clone.days)[i] == RowFor(days, newStart + i))
                      && (days == Dated(days, RangeDays(weekStart.value, span + 1)) ==> |PlanDays(days)| == span + 1))
    {
      hide ActivityCount, DateFor, WithDate, SortBy, WeekdayIndex, HasRow;
      var copies := Undated(days);
      SheetIsDistinct(copies);
      clone := new WeeklyPlan(studentName, None, None, copies, assignments, limit);
      CompletedCopies(copies, clone.days);
      if IsCalendarWeek() || weekStart.None? || weekEnd.None? {
        r := clone.ApplyWeekStart(newStart, limit);
        if IsCalendarWeek() {
          WeekCopyKeepsCount(days, newStart);
        }
      } else {
        var span := weekEnd.value - weekStart.value;
        r := clone.ApplyRange(newStart, newStart + span, limit);
        if 0 <= span < 7 {
          RangeCopyRows(days, newStart, span + 1);
          RangeFillsRows(days, weekStart.value, span + 1);
        }
      }
    }
  }

  /** A range is accepted when it does not end before it starts and is not longer than the limit. */
  lemma RangeIsAccepted(start: Day, end: Day, limit: int)
    ensures ValidateRange(start, end, limit) ==
            if start > end then Err(EndBeforeStart)
            else if end - start >= limit then Err(TooLong(end - start + 1))
            else Ok(end - start + 1)
  {}

  lemma WeekIsAccepted(start: Day, limit: int)
    ensures ValidateRange(SaturdayOf(start), SaturdayOf(start) + 6, limit).Ok? <==> limit >= 7
  {}

  lemma SheetIsDistinct(days: seq<PlanDay>)
    requires IsSheet(days)
    ensures DistinctKeys(WeekdayOf, days) && forall d <- days :: 0 <= d.weekday < 7
  {}

  lemma RowsOfGiven(given: seq<PlanDay>)
    requires DistinctKeys(WeekdayOf, given) && forall d <- given :: 0 <= d.weekday < 7
    ensures IsSheet(CompletedRows(given)) && CompletesRows(given, CompletedRows(given), None)
  {
    hide SortBy, MissingRows;
    SheetIsComplete(given);
  }

  lemma RedatedRows(given: seq<PlanDay>, rows: seq<PlanDay>, start: Day)
    requires IsSheet(rows) && CompletesRows(given, rows, None)
    ensures CompletesRows(given, Dated(rows, RangeDays(SaturdayOf(start), 7)), Some(start))
  {
    var days := Dated(rows, RangeDays(SaturdayOf(start), 7));
    WeekDates(rows, start);
    hide SaturdayOf, DateFor;
    forall w | 0 <= w < 7 ensures IsRowOf(given, days[w]) {
      assert IsRowOf(given, rows[w]);
      if HasRow(given, w) {
        var g :| g in given && g.(date := rows[w].date) == rows[w];
        assert g.(date := days[w].date) == days[w];
      }
    }
  }

  lemma {:induction false} MissingRowsMembers(days: seq<PlanDay>, from: int)
    requires 0 <= from <= 7
    ensures forall d :: d in MissingRows(days, from) <==>
                        from <= d.weekday < 7 && !HasRow(days, d.weekday) && d == EmptyRow(d.weekday)
    decreases 7 - from
  {
    if from < 7 {
      MissingRowsMembers(days, from + 1);
    }
  }

  lemma {:induction false} MissingRowsDistinct(days: seq<PlanDay>, from: int)
    requires 0 <= from <= 7
    ensures DistinctKeys(WeekdayOf, MissingRows(days, from))
    decreases 7 - from
  {
    if from < 7 {
      MissingRowsDistinct(days, from + 1);
      MissingRowsMembers(days, from + 1);
      var tail := MissingRows(days, from + 1);
      assert forall i :: 0 <= i < |tail| ==> tail[i] in tail;
    }
  }

  lemma CompletedDistinct(given: seq<PlanDay>)
    requires DistinctKeys(WeekdayOf, given)
    ensures DistinctKeys(WeekdayOf, given + MissingRows(given, 0))
  {
    var missing := MissingRows(given, 0);
    var all := given + missing;
    MissingRowsMembers(given, 0);
    MissingRowsDistinct(given, 0);
    forall i, j | 0 <= i < j < |all| ensures WeekdayOf(all[i]) != WeekdayOf(all[j]) {
      if i < |given| <= j {
        assert given[i] in given && missing[j - |given|] in missing;
      }
    }
  }

  /** Completing distinct rows with the missing ones gives the seven rows in order. */
  lemma SheetIsComplete(given: seq<PlanDay>)
    requires DistinctKeys(WeekdayOf, given) && forall d <- given :: 0 <= d.weekday < 7
    ensures var days := CompletedRows(given);
            && IsSheet(days)
            && forall w :: 0 <= w < 7 ==> if HasRow(given, w) then days[w] in given else days[w] == EmptyRow(w)
  {
    var all := given + MissingRows(given, 0);
    var days := SortBy(WeekdayOf, all);
    CompletedDistinct(given);
    SortStrict(WeekdayOf, all);
    forall d ensures d in days <==> d in given || (0 <= d.weekday < 7 && !HasRow(given, d.weekday) && d == EmptyRow(d.weekday)) {
      SortMember(ByKey(WeekdayOf), all, d);
      MissingRowsMembers(given, 0);
    }
    WeekdaysCover(given, days);
    CoversInterval(Weekdays(days), 0, 7);
    forall w | 0 <= w < 7 ensures days[w].weekday == w && days[w] in days {
      assert Weekdays(days)[w] == w;
    }
  }

  lemma WeekdaysCover(given: seq<PlanDay>, days: seq<PlanDay>)
    requires forall d <- given :: 0 <= d.weekday < 7
    requires forall d :: d in days <==>
                         d in given || (0 <= d.weekday < 7 && !HasRow(given, d.weekday) && d == EmptyRow(d.weekday))
    ensures forall w :: w in Weekdays(days) <==> 0 <= w < 7
  {
    var ws := Weekdays(days);
    forall w ensures w in ws <==> 0 <= w < 7 {
      if w in ws {
        var i :| 0 <= i < |ws| && ws[i] == w;
        assert days[i] in days;
      }
      if 0 <= w < 7 {
        var d := EmptyRow(w);
        if HasRow(given, w) {
          d :| d in given && d.weekday == w;
        }
        var i :| 0 <= i < |days| && days[i] == d;
        assert ws[i] == w;
      }
    }
  }

  function Weekdays(days: seq<PlanDay>): seq<int> {
    seq(|days|, i requires 0 <= i < |days| => days[i].weekday)
  }

  lemma CompletedCopies(copies: seq<PlanDay>, days: seq<PlanDay>)
    requires IsSheet(copies) && CompletesRows(copies, days, None)
    ensures days == copies
  {
    CopiesAreKept(copies, days);
  }

  lemma CopiesAreKept(copies: seq<PlanDay>, days: seq<PlanDay>)
    requires IsSheet(copies) && IsSheet(days)
    requires forall w :: 0 <= w < 7 ==> if HasRow(copies, w) then days[w] in copies else days[w] == EmptyRow(w)
    ensures days == copies
  {
    forall w | 0 <= w < 7 ensures days[w] == copies[w] {
      assert copies[w] in copies;
      assert HasRow(copies, w);
    }
  }
}
