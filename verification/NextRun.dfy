/** The instant the panel promises for the next automatic backup. */
module NextRun {
  import opened Prelude
  import opened Calendar
  import opened Schedule
  import opened WeeklySchedule

  /** `current.replace(hour=hour, minute=0, second=0, microsecond=0)` */
  function AtHour(t: int, hour: int): int { DayOf(t) * DAY + hour * HOUR }

  /** `t` is a configured instant of the daily or weekly plan. */
  predicate IsSlot(cfg: Settings, t: int) {
    TimeOfDay(t) == cfg.hour * HOUR && (cfg.plan == Weekly ==> WeekdayIndex(DayOf(t)) == cfg.weekday)
  }

  /** `r` is the least configured instant strictly after `now`. */
  ghost predicate IsNextSlot(cfg: Settings, now: int, r: int) {
    IsSlot(cfg, r) && r > now && forall c :: IsSlot(cfg, c) && c > now ==> r <= c
  }

  lemma SlotTime(t: int, d: int, hour: int)
    requires 0 <= hour < 24
    ensures TimeOfDay(t) == hour * HOUR && DayOf(t) == d <==> t == d * DAY + hour * HOUR
  {
    if t == d * DAY + hour * HOUR {
      DayOfUnique(t, d);
    }
    assert t == DayOf(t) * DAY + TimeOfDay(t);
  }

  /** Slots lie whole periods apart, so a slot at most one period after `now` is the next one. */
  lemma LeastSlot(cfg: Settings, now: int, r: int)
    requires 0 <= cfg.hour < 24 && IsSlot(cfg, r) && r > now
    requires cfg.plan == Daily ==> r - DAY <= now
    requires cfg.plan == Weekly ==> r - 7 * DAY <= now
    requires cfg.plan == Daily || cfg.plan == Weekly
    ensures IsNextSlot(cfg, now, r)
  {
    forall c | IsSlot(cfg, c) && c > now ensures r <= c {
      SlotTime(c, DayOf(c), cfg.hour);
      SlotTime(r, DayOf(r), cfg.hour);
      if cfg.plan == Weekly {
        SameWeekday(DayOf(c), DayOf(r));
        WholeWeeks(DayOf(r) - DayOf(c));
      }
    }
  }

  method NextDaily(cfg: Settings, now: int) returns (candidate: int)
    requires 0 <= cfg.hour < 24 && cfg.plan == Daily
    ensures IsNextSlot(cfg, now, candidate)
  {
    candidate := AtHour(now, cfg.hour);
    DayAndHour(now, 0);
    SlotTime(candidate, DayOf(now), cfg.hour);
    while candidate <= now
      invariant TimeOfDay(candidate) == cfg.hour * HOUR && candidate - DAY <= now
      decreases now - candidate
    {
      SlotTime(candidate, DayOf(candidate), cfg.hour);
      SlotTime(candidate + DAY, DayOf(candidate) + 1, cfg.hour);
      candidate := candidate + DAY;
    }
    LeastSlot(cfg, now, candidate);
  }

  /** The candidate of step `m` of the weekly search is returned. */
  predicate Matches(cfg: Settings, now: int, m: int) {
    WeekdayIndex(DayOf(now) + m) == cfg.weekday && AtHour(now, cfg.hour) + m * DAY > now
  }

  lemma FirstMatchIsNext(cfg: Settings, now: int, m: int)
    requires 0 <= cfg.hour < 24 && cfg.plan == Weekly
    requires 0 <= m <= 7 && Matches(cfg, now, m) && (m == 7 ==> !Matches(cfg, now, 0))
    ensures IsNextSlot(cfg, now, AtHour(now, cfg.hour) + m * DAY)
  {
    var r := AtHour(now, cfg.hour) + m * DAY;
    SlotTime(r, DayOf(now) + m, cfg.hour);
    DayAndHour(now, 0);
    WeekdayIndexCounts(DayOf(now), 7);
    LeastSlot(cfg, now, r);
  }

  /** A weekday outside the week never matches, and the search then gives up after eight days. */
  method NextWeekly(cfg: Settings, now: int) returns (candidate: int)
    requires 0 <= cfg.hour < 24 && cfg.plan == Weekly
    ensures 0 <= cfg.weekday < 7 ==> IsNextSlot(cfg, now, candidate)
    ensures !(0 <= cfg.weekday < 7) ==> candidate == AtHour(now, cfg.hour) + 8 * DAY
  {
    candidate := AtHour(now, cfg.hour);
    for n := 0 to 8
      invariant candidate == AtHour(now, cfg.hour) + n * DAY
      invariant forall m :: 0 <= m < n ==> !Matches(cfg, now, m)
    {
      SlotTime(candidate, DayOf(now) + n, cfg.hour);
      if WeekdayIndex(DayOf(candidate)) == cfg.weekday && candidate > now {
        FirstMatchIsNext(cfg, now, n);
        return;
      }
      candidate := candidate + DAY;
    }
    if 0 <= cfg.weekday < 7 {
      var m := TargetWithinWeek(cfg, now);
    }
  }

  /** One of the seven days after today matches. */
  lemma TargetWithinWeek(cfg: Settings, now: int) returns (m: int)
    requires 0 <= cfg.weekday < 7 && 0 <= cfg.hour < 24
    ensures 1 <= m <= 7 && Matches(cfg, now, m)
  {
    m := (cfg.weekday - WeekdayIndex(DayOf(now)) - 1) % 7 + 1;
    WeekdayIndexCounts(DayOf(now), m);
    DayAndHour(now, 0);
  }

  /** `next_run`: nothing when disabled, a whole hour in the hourly plans, the next configured instant otherwise. */
  method PromisedRun(cfg: Settings, now: int) returns (r: Option<int>)
    requires 0 <= cfg.hour < 24
    ensures r.None? <==> !cfg.enabled
    ensures r.Some? && cfg.plan == Hourly ==> r.value % HOUR == 0 && r.value - HOUR <= now < r.value
    ensures r.Some? && cfg.plan == Hours ==>
              var gap := HoursBetween(cfg.everyHours) * HOUR;
              r.value % HOUR == 0 && r.value - gap <= now < r.value - gap + HOUR
    ensures r.Some? && (cfg.plan == Daily || (cfg.plan == Weekly && 0 <= cfg.weekday < 7)) ==>
              IsNextSlot(cfg, now, r.value)
    ensures r.Some? && cfg.plan == Weekly && !(0 <= cfg.weekday < 7) ==> r.value == AtHour(now, cfg.hour) + 8 * DAY
  {
    if !cfg.enabled {
      return None;
    }
    match cfg.plan {
      case Hourly =>
        r := Some(now / HOUR * HOUR + HOUR);
      case Hours =>
        MultipleOfHour(now / HOUR + Every(cfg));
        r := Some(now / HOUR * HOUR + Every(cfg) * HOUR);
      case Daily =>
        var candidate := NextDaily(cfg, now);
        r := Some(candidate);
      case Weekly =>
        var candidate := NextWeekly(cfg, now);
        r := Some(candidate);
    }
  }

  lemma MultipleOfHour(k: int)
    ensures (k * HOUR) % HOUR == 0
  {}

  /**
   After an automatic weekly run at `run`, the promised instant is one week later at the configured hour, and a
   backup is really due then exactly when the run was at most four hours late.
   */
  lemma PromiseIsKept(cfg: Settings, run: int, previous: Option<int>, promised: int)
    requires WeeklySettings(cfg) && IsDue(cfg, run, previous) && IsNextSlot(cfg, run, promised)
    ensures promised == AtHour(run, cfg.hour) + 7 * DAY
    ensures IsDue(cfg, promised, Some(run)) <==> run <= AtHour(run, cfg.hour) + 4 * HOUR
  {
    var expected := AtHour(run, cfg.hour) + 7 * DAY;
    DayAndHour(run, cfg.hour);
    SlotTime(expected, DayOf(run) + 7, cfg.hour);
    WeekdayIndexCounts(DayOf(run), 7);
    LeastSlot(cfg, run, expected);
    DayAndHour(expected, cfg.hour);
  }
}
