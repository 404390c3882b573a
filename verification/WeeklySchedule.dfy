/** The weekly schedule over whole runs, and the instants `next_run` promises. */
module WeeklySchedule {
  import opened Prelude
  import opened Calendar
  import opened Schedule

  /** The event list of a scheduler left alone: ticks only, each at most `gap` after the one before, runs instantaneous. */
  predicate Ticking(events: seq<Event>, gap: int) {
    && events != []
    && (forall i :: 0 <= i < |events| ==> events[i].auto && events[i].ok && events[i].took == 0)
    && (forall i :: 0 < i < |events| ==> events[i - 1].at < events[i].at <= events[i - 1].at + gap)
  }

  predicate WeeklySettings(cfg: Settings) {
    cfg.enabled && cfg.plan == Weekly && 0 <= cfg.hour < 24 && 0 <= cfg.weekday < 7
  }

  lemma {:induction false} TicksIncrease(events: seq<Event>, gap: int, i: nat, j: nat)
    requires Ticking(events, gap) && i < j < |events|
    ensures events[i].at < events[j].at
    decreases j
  {
    if i + 1 < j {
      TicksIncrease(events, gap, i, j - 1);
    }
  }

  lemma TickingIsSequential(events: seq<Event>, gap: int)
    requires Ticking(events, gap)
    ensures Sequential(events)
  {
    forall i, j | 0 <= i < j < |events| ensures events[i].at + events[i].took <= events[j].at {
      TicksIncrease(events, gap, i, j);
    }
  }

  /** The first tick at or after `t`; it is less than one gap late. */
  lemma {:induction false} FirstTick(events: seq<Event>, gap: int, t: int, last: nat) returns (k: nat)
    requires Ticking(events, gap) && 0 < gap && last < |events|
    requires events[0].at <= t <= events[last].at
    ensures k <= last && t <= events[k].at < t + gap
    ensures k > 0 ==> events[k - 1].at < t
    decreases last
  {
    if last == 0 || events[last - 1].at < t {
      k := last;
    } else {
      k := FirstTick(events, gap, t, last - 1);
    }
  }

  /** A run happens on a target day, at the configured hour or later. */
  lemma FiresOnTarget(cfg: Settings, events: seq<Event>, i: nat)
    requires WeeklySettings(cfg) && Fires(cfg, events, i)
    ensures WeekdayIndex(DayOf(events[i].at)) == cfg.weekday
    ensures DayOf(events[i].at) * DAY + cfg.hour * HOUR <= events[i].at < DayOf(events[i].at) * DAY + DAY
  {
    DayAndHour(events[i].at, cfg.hour);
  }

  lemma DayAndHour(t: int, hour: int)
    ensures DayOf(t) * DAY <= t < DayOf(t) * DAY + DAY
    ensures HourOf(t) >= hour <==> t >= DayOf(t) * DAY + hour * HOUR
  {
    var d := DayOf(t);
    assert t == d * DAY + TimeOfDay(t);
    HourBound(TimeOfDay(t), hour);
  }

  lemma HourBound(m: int, hour: int)
    requires 0 <= m < DAY
    ensures m / HOUR >= hour <==> m >= hour * HOUR
  {}

  lemma DayOfUnique(t: int, d: int)
    requires d * DAY <= t < d * DAY + DAY
    ensures DayOf(t) == d
  {}

  /** The last run before tick `k` is the tick that made it. */
  lemma {:induction false} LastIsTick(cfg: Settings, events: seq<Event>, gap: int, k: nat) returns (i: nat)
    requires Ticking(events, gap) && k <= |events| && LastBefore(cfg, events, k).Some?
    ensures i < k && Fires(cfg, events, i) && LastBefore(cfg, events, k) == Some(events[i].at)
  {
    if Fires(cfg, events, k - 1) {
      i := k - 1;
    } else {
      i := LastIsTick(cfg, events, gap, k - 1);
    }
  }

  /** Two runs never happen on one day. */
  lemma AtMostOnePerDay(cfg: Settings, events: seq<Event>, gap: int, i: nat, j: nat)
    requires WeeklySettings(cfg) && Ticking(events, gap) && i < j
    requires Fires(cfg, events, i) && Fires(cfg, events, j)
    ensures DayOf(events[i].at) + 7 <= DayOf(events[j].at)
  {
    TickingIsSequential(events, gap);
    LastCovers(cfg, events, i, j);
    var p := LastIsTick(cfg, events, gap, j);
    FiresOnTarget(cfg, events, i);
    FiresOnTarget(cfg, events, j);
    WeeksApart(events[i].at, events[j].at);
  }

  lemma WeeksApart(a: int, b: int)
    requires WeekdayIndex(DayOf(a)) == WeekdayIndex(DayOf(b))
    requires b - a >= 6 * DAY + 20 * HOUR
    ensures DayOf(a) + 7 <= DayOf(b)
  {
    SameWeekday(DayOf(a), DayOf(b));
    DayAndHour(a, 0);
    DayAndHour(b, 0);
    WholeWeeks(DayOf(b) - DayOf(a));
  }

  lemma WholeWeeks(k: int)
    ensures k % 7 == 0 && k > 0 ==> k >= 7
  {}

  function Max(a: int, b: int): int { if a >= b then a else b }

  /** From this instant on, a run is due on target day `d` whatever the week before looked like. */
  function SureInstant(cfg: Settings, d: Day): int { d * DAY + Max(cfg.hour, 20) * HOUR }

  lemma SomeRun(cfg: Settings, events: seq<Event>, d: Day) returns (i: nat)
    requires WeeklySettings(cfg) && Ticking(events, HOUR) && WeekdayIndex(d) == cfg.weekday
    requires events[0].at <= SureInstant(cfg, d) <= events[|events| - 1].at
    ensures Fires(cfg, events, i) && DayOf(events[i].at) == d
  {
    hide LastBefore, WeekdayIndex;
    i := FirstTick(events, HOUR, SureInstant(cfg, d), |events| - 1);
    DayOfUnique(events[i].at, d);
    DayAndHour(events[i].at, cfg.hour);
    if LastBefore(cfg, events, i).Some? {
      var p := LastIsTick(cfg, events, HOUR, i);
      TicksIncrease(events, HOUR, p, i);
      FiresOnTarget(cfg, events, p);
      EarlierWeek(events[p].at, d);
      if DayOf(events[p].at) == d {
        i := p;
      }
    }
  }

  /**
   If ticks are at most one hour apart and cover the evening of a target day, exactly one run happens on that day.
   */
  lemma ExactlyOneRun(cfg: Settings, events: seq<Event>, d: Day) returns (i: nat)
    requires WeeklySettings(cfg) && Ticking(events, HOUR) && WeekdayIndex(d) == cfg.weekday
    requires events[0].at <= SureInstant(cfg, d) <= events[|events| - 1].at
    ensures Fires(cfg, events, i) && DayOf(events[i].at) == d
    ensures forall j :: Fires(cfg, events, j) && DayOf(events[j].at) == d ==> j == i
  {
    i := SomeRun(cfg, events, d);
    forall j | Fires(cfg, events, j) && DayOf(events[j].at) == d ensures j == i {
      if j < i {
        AtMostOnePerDay(cfg, events, HOUR, j, i);
      } else if i < j {
        AtMostOnePerDay(cfg, events, HOUR, i, j);
      }
    }
  }

  lemma EarlierWeek(p: int, d: Day)
    requires WeekdayIndex(DayOf(p)) == WeekdayIndex(d) && DayOf(p) <= d
    ensures DayOf(p) == d || p < (d - 6) * DAY
  {
    SameWeekday(DayOf(p), d);
    WholeWeeks(d - DayOf(p));
    DayAndHour(p, 0);
  }

  /** A run in between would have been recorded. */
  lemma RunBetween(cfg: Settings, events: seq<Event>, i: nat, m: nat, k: nat)
    requires Ticking(events, HOUR) && i < m < k < |events| && Fires(cfg, events, m)
    ensures LastBefore(cfg, events, k) != Some(events[i].at)
  {
    TickingIsSequential(events, HOUR);
    LastCovers(cfg, events, m, k);
    TicksIncrease(events, HOUR, i, m);
  }

  lemma CoversNextWeek(cfg: Settings, events: seq<Event>, i: nat, k: nat)
    requires WeeklySettings(cfg) && Ticking(events, HOUR) && i < k < |events|
    requires DayOf(events[k].at) > DayOf(events[i].at) + 7
    ensures events[0].at <= SureInstant(cfg, DayOf(events[i].at) + 7) <= events[|events| - 1].at
  {
    TicksIncreaseTo(events, 0, i);
    TicksIncreaseTo(events, k, |events| - 1);
    DayAndHour(events[i].at, 0);
    DayAndHour(events[k].at, 0);
  }

  /** A run only happens on the target weekday, and consecutive runs are exactly one week apart. */
  lemma ConsecutiveRuns(cfg: Settings, events: seq<Event>, i: nat, k: nat)
    requires WeeklySettings(cfg) && Ticking(events, HOUR) && i < k
    requires Fires(cfg, events, i) && Fires(cfg, events, k) && LastBefore(cfg, events, k) == Some(events[i].at)
    ensures WeekdayIndex(DayOf(events[i].at)) == cfg.weekday
    ensures DayOf(events[k].at) == DayOf(events[i].at) + 7
  {
    FiresOnTarget(cfg, events, i);
    AtMostOnePerDay(cfg, events, HOUR, i, k);
    var d := DayOf(events[i].at) + 7;
    if DayOf(events[k].at) > d {
      CoversNextWeek(cfg, events, i, k);
      WeekdayIndexCounts(DayOf(events[i].at), 7);
      var m := ExactlyOneRun(cfg, events, d);
      TickOrder(events, i, m);
      TickOrder(events, m, k);
      RunBetween(cfg, events, i, m, k);
    }
  }

  lemma TicksIncreaseTo(events: seq<Event>, i: nat, j: nat)
    requires Ticking(events, HOUR) && i <= j < |events|
    ensures events[i].at <= events[j].at
  {
    if i < j {
      TicksIncrease(events, HOUR, i, j);
    }
  }

  lemma TickOrder(events: seq<Event>, i: nat, j: nat)
    requires Ticking(events, HOUR) && i < |events| && j < |events|
    requires DayOf(events[i].at) < DayOf(events[j].at)
    ensures i < j
  {
    if j <= i {
      TicksIncreaseTo(events, j, i);
    }
  }

  // ---------------------------------------------------------------- drifting back

  /** The earliest instant of day `d` at which a run is due after a last run at `p`. */
  function DueInstant(cfg: Settings, p: int, d: Day): int {
    Max(d * DAY + cfg.hour * HOUR, p + 6 * DAY + 20 * HOUR)
  }

  /** The tick before a run came too early to run itself. */
  lemma TickBeforeIsEarly(cfg: Settings, events: seq<Event>, i: nat, k: nat, d: Day)
    requires WeeklySettings(cfg) && Ticking(events, HOUR) && i < k
    requires Fires(cfg, events, k) && LastBefore(cfg, events, k) == Some(events[i].at) && DayOf(events[k].at) == d
    ensures events[k - 1].at < DueInstant(cfg, events[i].at, d)
  {
    var before := events[k - 1].at;
    DayAndHour(events[k].at, 0);
    if d * DAY <= before {
      DayOfUnique(before, d);
      DayAndHour(before, cfg.hour);
    }
  }

  /**
   When ticks are at most `gap` apart, a run is less than one gap late against the configured hour or against
   four hours before the time of the previous run, whichever is later.
   */
  lemma RunDriftsBack(cfg: Settings, events: seq<Event>, gap: int, i: nat, k: nat)
    requires WeeklySettings(cfg) && 0 < gap <= HOUR && Ticking(events, gap) && i < k
    requires Fires(cfg, events, i) && Fires(cfg, events, k) && LastBefore(cfg, events, k) == Some(events[i].at)
    ensures TimeOfDay(events[k].at) < Max(cfg.hour * HOUR, TimeOfDay(events[i].at) - 4 * HOUR) + gap
  {
    assert Ticking(events, HOUR);
    ConsecutiveRuns(cfg, events, i, k);
    TickBeforeIsEarly(cfg, events, i, k, DayOf(events[k].at));
    LateAgainst(cfg, events[i].at, events[k].at, gap);
  }

  lemma LateAgainst(cfg: Settings, p: int, t: int, gap: int)
    requires DayOf(t) == DayOf(p) + 7 && t < DueInstant(cfg, p, DayOf(t)) + gap
    ensures TimeOfDay(t) < Max(cfg.hour * HOUR, TimeOfDay(p) - 4 * HOUR) + gap
  {
    assert p == DayOf(p) * DAY + TimeOfDay(p) && t == DayOf(t) * DAY + TimeOfDay(t);
  }

  /** `runs` are the positions of consecutive automatic runs. */
  predicate Consecutive(cfg: Settings, events: seq<Event>, runs: seq<nat>) {
    && (forall m :: 0 <= m < |runs| ==> Fires(cfg, events, runs[m]))
    && (forall m :: 0 < m < |runs| ==>
          runs[m - 1] < runs[m] && LastBefore(cfg, events, runs[m]) == Some(events[runs[m - 1]].at))
  }

  /** After `m` weeks a late start has drifted back by `m` times four hours less one gap. */
  lemma {:induction false} RunsDriftBack(cfg: Settings, events: seq<Event>, gap: int, runs: seq<nat>, m: nat)
    requires WeeklySettings(cfg) && 0 < gap <= HOUR && Ticking(events, gap)
    requires Consecutive(cfg, events, runs) && 0 < m < |runs|
    ensures TimeOfDay(events[runs[m]].at)
         < Max(cfg.hour * HOUR, TimeOfDay(events[runs[0]].at) - m * (4 * HOUR - gap) - gap) + gap
    decreases m
  {
    RunDriftsBack(cfg, events, gap, runs[m - 1], runs[m]);
    if m > 1 {
      RunsDriftBack(cfg, events, gap, runs, m - 1);
      var step := 4 * HOUR - gap;
      assert m * step == (m - 1) * step + step;
    }
  }

  lemma EightSteps(m: nat, step: int)
    requires m >= 8 && step >= 3 * HOUR
    ensures m * step >= DAY
  {
    assert m * step == 8 * step + (m - 8) * step && (m - 8) * step >= 0;
  }

  /** From the eighth week on every run starts less than one gap after the configured hour. */
  lemma RunsSettle(cfg: Settings, events: seq<Event>, gap: int, runs: seq<nat>, m: nat)
    requires WeeklySettings(cfg) && 0 < gap <= HOUR && Ticking(events, gap)
    requires Consecutive(cfg, events, runs) && 8 <= m < |runs|
    ensures cfg.hour * HOUR <= TimeOfDay(events[runs[m]].at) < cfg.hour * HOUR + gap
  {
    RunsDriftBack(cfg, events, gap, runs, m);
    FiresOnTarget(cfg, events, runs[m]);
    EightSteps(m, 4 * HOUR - gap);
  }
}
