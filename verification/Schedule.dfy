/**
 The backup schedule: when a run is due, when the next one is promised, and what follows for whole runs.

 Times are microseconds of the local wall clock, counted from the start of day 0, so the calendar day of `t` is
 `t / DAY`. Both times of a comparison carry the same zone, so differences are differences of wall-clock times.
 */
module Schedule {
  import opened Prelude
  import opened Calendar

  const HOUR: int := 3_600_000_000
  const DAY: int := 24 * HOUR

  function DayOf(t: int): Day { t / DAY }
  function TimeOfDay(t: int): int { t % DAY }
  function HourOf(t: int): int { TimeOfDay(t) / HOUR }

  datatype Plan = Hourly | Hours | Daily | Weekly

  datatype Settings = Settings(enabled: bool, plan: Plan, hour: int, weekday: int, everyHours: int)

  /** `max(1, int(backup_every_hours or 12))` */
  function Every(cfg: Settings): int {
    var hours := if cfg.everyHours == 0 then 12 else cfg.everyHours;
    if hours < 1 then 1 else hours
  }

  predicate IsDue(cfg: Settings, now: int, previous: Option<int>) {
    cfg.enabled &&
    match cfg.plan
    case Hourly => previous.None? || now - previous.value >= HOUR
    case Hours => previous.None? || now - previous.value >= Every(cfg) * HOUR
    case Weekly =>
      WeekdayIndex(DayOf(now)) == cfg.weekday && HourOf(now) >= cfg.hour
      && (previous.None? || now - previous.value >= 6 * DAY + 20 * HOUR)
    case Daily =>
      HourOf(now) >= cfg.hour
      && (previous.None? || DayOf(previous.value) != DayOf(now) || now - previous.value >= 20 * HOUR)
  }

  // ---------------------------------------------------------------- runs

  /** A scheduler tick (`auto`) or a run started by hand; a run takes `took` and may fail. */
  datatype Event = Event(at: int, auto: bool, ok: bool, took: nat)

  /** The event starts a backup. */
  predicate Starts(cfg: Settings, last: Option<int>, e: Event) {
    e.auto ==> IsDue(cfg, e.at, last)
  }

  /** The recorded time of the last successful run after the event. */
  function After(cfg: Settings, last: Option<int>, e: Event): Option<int> {
    if Starts(cfg, last, e) && e.ok then Some(e.at + e.took) else last
  }

  /** The scheduler of one replica with its settings row; `history` remembers every tick and manual run, `started` its answers. */
  class Scheduler {
    const cfg: Settings
    var last: Option<int>
    ghost var history: seq<Event>
    ghost var started: seq<bool>

    ghost predicate Valid()
      reads this
    {
      && Sequential(history) && last == LastBefore(cfg, history, |history|)
      && AreAnswers(cfg, history, started)
    }

    constructor (cfg: Settings)
      ensures Valid() && this.cfg == cfg && history == [] && started == []
    {
      this.cfg := cfg;
      last, history, started := None, [], [];
    }

    /**
     One tick or manual run; the settings row is updated only when the backup succeeds. Under each plan a tick starts a
     run exactly when it comes late enough after the end of every run so far that has succeeded, however that was
     started; under the daily and weekly plans also the hour has to be reached.
     */
    method Handle(e: Event) returns (ran: bool)
      requires Valid() && (history != [] ==> history[|history| - 1].at + history[|history| - 1].took <= e.at)
      modifies this
      ensures Valid() && history == old(history) + [e] && started == old(started) + [ran]
      ensures ran <==> !e.auto || ShouldRun(cfg, old(history), old(started), e.at)
      ensures e.auto && ran && cfg.plan == Daily && cfg.hour >= 4 ==>
                forall i :: 0 <= i < |old(history)| && Succeeds(cfg, history, i) ==> DayOf(history[i].at) != DayOf(e.at)
    {
      hide IsDue, Sequential, ShouldRun, StartsWell, AreAnswers, DayOf, Succeeds;
      ghost var n := |history|;
      AppendIsSequential(history, e);
      AnswersStay(cfg, history, started, e);
      if e.auto {
        TickRule(cfg, history, started, e);
      }
      history := history + [e];
      NewDate(cfg, history, n);
      ran := !e.auto || IsDue(cfg, e.at, last);
      started := started + [ran];
      if ran && e.ok {
        last := Some(e.at + e.took);
      }
    }
  }

  lemma NewDate(cfg: Settings, events: seq<Event>, j: nat)
    requires Sequential(events)
    ensures Fires(cfg, events, j) && cfg.plan == Daily && cfg.hour >= 4 ==>
              forall i :: 0 <= i < j && Succeeds(cfg, events, i) ==> DayOf(events[i].at) != DayOf(events[j].at)
  {
    hide DayOf, IsDue, Sequential, LastBefore;
    if Fires(cfg, events, j) && cfg.plan == Daily && cfg.hour >= 4 {
      forall i | 0 <= i < j && Succeeds(cfg, events, i) { DailyAtMostOnce(cfg, events, i, j); }
    }
  }

  /** `started` says which of the events have started a run. */
  predicate AreAnswers(cfg: Settings, history: seq<Event>, started: seq<bool>) {
    && |started| == |history|
    && forall i :: 0 <= i < |history| ==> started[i] == Starts(cfg, LastBefore(cfg, history, i), history[i])
  }

  /** Every successful run has ended at least `gap` ago. */
  predicate AllEndedBefore(history: seq<Event>, started: seq<bool>, now: int, gap: int)
    requires |history| == |started|
  {
    forall i :: 0 <= i < |history| && started[i] && history[i].ok ==> now - EndOf(history, i) >= gap
  }

  /** Whether an automatic run has to start now, from nothing but the settings and the runs so far. */
  predicate ShouldRun(cfg: Settings, history: seq<Event>, started: seq<bool>, now: int)
    requires |history| == |started|
  {
    cfg.enabled &&
    match cfg.plan
    case Hourly => AllEndedBefore(history, started, now, HOUR)
    case Hours => AllEndedBefore(history, started, now, HoursBetween(cfg.everyHours) * HOUR)
    case Daily =>
      && now % DAY >= cfg.hour * HOUR
      && forall i :: 0 <= i < |history| && started[i] && history[i].ok ==>
           DayOf(EndOf(history, i)) != DayOf(now) || now - EndOf(history, i) >= 20 * HOUR
    case Weekly =>
      && WeekdayIndex(DayOf(now)) == cfg.weekday && now % DAY >= cfg.hour * HOUR
      && AllEndedBefore(history, started, now, 6 * DAY + 20 * HOUR)
  }

  lemma AnswersStay(cfg: Settings, history: seq<Event>, started: seq<bool>, e: Event)
    requires AreAnswers(cfg, history, started)
    ensures AreAnswers(cfg, history + [e], started + [Starts(cfg, LastBefore(cfg, history, |history|), e)])
    ensures LastBefore(cfg, history + [e], |history|) == LastBefore(cfg, history, |history|)
  {
    hide Starts;
    forall i | 0 <= i <= |history| ensures LastBefore(cfg, history + [e], i) == LastBefore(cfg, history, i) {
      LastOfPrefix(cfg, history, [e], i);
    }
  }

  lemma TickRule(cfg: Settings, history: seq<Event>, started: seq<bool>, e: Event)
    requires AreAnswers(cfg, history, started) && Sequential(history + [e]) && e.auto
    ensures IsDue(cfg, e.at, LastBefore(cfg, history, |history|)) <==> ShouldRun(cfg, history, started, e.at)
  {
    hide IsDue, Starts, Sequential, DayOf, WeekdayIndex;
    var all, n := history + [e], |history|;
    AnswersStay(cfg, history, started, e);
    assert forall m :: 0 <= m < n ==> all[m] == history[m] && (StartsWell(cfg, all, m) <==> started[m] && history[m].ok) by {
      SameAnswers(cfg, history, started, e);
    }
    hide StartsWell;
    StartsExactly(cfg, all, n);
  }

  lemma SameAnswers(cfg: Settings, history: seq<Event>, started: seq<bool>, e: Event)
    requires AreAnswers(cfg, history, started)
    ensures forall m :: 0 <= m < |history| ==> (StartsWell(cfg, history + [e], m) <==> started[m] && history[m].ok)
  {
    hide Starts;
    forall m | 0 <= m < |history| ensures StartsWell(cfg, history + [e], m) <==> started[m] && history[m].ok {
      LastOfPrefix(cfg, history, [e], m);
    }
  }

  /** The documented distance of the every-n-hours plan: twelve hours when it is not set, at least one. */
  function HoursBetween(everyHours: int): int {
    if everyHours == 0 then 12 else if everyHours < 0 then 1 else everyHours
  }

  lemma AppendIsSequential(events: seq<Event>, e: Event)
    requires Sequential(events)
    requires events != [] ==> events[|events| - 1].at + events[|events| - 1].took <= e.at
    ensures Sequential(events + [e])
  {}

  lemma {:induction false} LastOfPrefix(cfg: Settings, events: seq<Event>, more: seq<Event>, i: nat)
    requires i <= |events|
    ensures LastBefore(cfg, events + more, i) == LastBefore(cfg, events, i)
    decreases i
  {
    if i > 0 {
      LastOfPrefix(cfg, events, more, i - 1);
    }
  }

  /** The recorded last run just before event `i`. */
  function LastBefore(cfg: Settings, events: seq<Event>, i: nat): Option<int>
    requires i <= |events|
  {
    if i == 0 then None else After(cfg, LastBefore(cfg, events, i - 1), events[i - 1])
  }

  predicate Fires(cfg: Settings, events: seq<Event>, i: int) {
    0 <= i < |events| && events[i].auto && IsDue(cfg, events[i].at, LastBefore(cfg, events, i))
  }

  /** Event `i` is an automatic run that succeeds. */
  predicate Succeeds(cfg: Settings, events: seq<Event>, i: int) {
    Fires(cfg, events, i) && events[i].ok
  }

  /** One replica handles one event after the other. */
  predicate Sequential(events: seq<Event>) {
    forall i, j :: 0 <= i < j < |events| ==> events[i].at + events[i].took <= events[j].at
  }

  /** Once a run has succeeded, the recorded last run never falls behind it. */
  lemma {:induction false} LastCovers(cfg: Settings, events: seq<Event>, i: nat, j: nat)
    requires Sequential(events) && i < j <= |events| && Succeeds(cfg, events, i)
    ensures LastBefore(cfg, events, j).Some?
    ensures events[i].at + events[i].took <= LastBefore(cfg, events, j).value
    decreases j
  {
    if i + 1 < j {
      LastCovers(cfg, events, i, j - 1);
    }
  }

  /** The recorded last run is the end of an earlier successful run. */
  lemma {:induction false} LastIsEarlier(cfg: Settings, events: seq<Event>, j: nat)
    requires Sequential(events) && j <= |events|
    ensures var last := LastBefore(cfg, events, j);
            last.Some? ==>
              exists i :: 0 <= i < j && Starts(cfg, LastBefore(cfg, events, i), events[i]) && events[i].ok
                          && last.value == events[i].at + events[i].took
  {
    if j > 0 {
      LastIsEarlier(cfg, events, j - 1);
    }
  }

  // ---------------------------------------------------------------- when a tick starts a run

  /** What is recorded is the end of the latest run that succeeded. */
  lemma {:induction false} LastIsLatest(cfg: Settings, events: seq<Event>, j: nat)
    requires Sequential(events) && j <= |events|
    ensures var last := LastBefore(cfg, events, j);
            && (forall m :: 0 <= m < j && StartsWell(cfg, events, m) ==> last.Some? && EndOf(events, m) <= last.value)
            && (last.Some? ==> exists m :: 0 <= m < j && StartsWell(cfg, events, m) && EndOf(events, m) == last.value)
    decreases j
  {
    hide Starts;
    if j > 0 {
      LastIsLatest(cfg, events, j - 1);
      if StartsWell(cfg, events, j - 1) {
        assert EndOf(events, j - 1) == LastBefore(cfg, events, j).value;
      }
    }
  }

  function EndOf(events: seq<Event>, m: nat): int
    requires m < |events|
  {
    events[m].at + events[m].took
  }

  /** No run has ended in success before event `j` less than `gap` ago. */
  predicate NoSuccessWithin(cfg: Settings, events: seq<Event>, j: nat, gap: int)
    requires j < |events|
  {
    forall m :: 0 <= m < j && StartsWell(cfg, events, m) ==> events[j].at - EndOf(events, m) >= gap
  }

  lemma LatestDecides(cfg: Settings, events: seq<Event>, j: nat, gap: int)
    requires Sequential(events) && j < |events|
    ensures var last := LastBefore(cfg, events, j);
            NoSuccessWithin(cfg, events, j, gap) <==> last.None? || events[j].at - last.value >= gap
  {
    LastIsLatest(cfg, events, j);
  }

  lemma LatestDayDecides(cfg: Settings, events: seq<Event>, j: nat)
    requires Sequential(events) && j < |events|
    ensures var last, now := LastBefore(cfg, events, j), events[j].at;
            (forall m :: 0 <= m < j && StartsWell(cfg, events, m) ==>
               DayOf(EndOf(events, m)) != DayOf(now) || now - EndOf(events, m) >= 20 * HOUR)
            <==> last.None? || DayOf(last.value) != DayOf(now) || now - last.value >= 20 * HOUR
  {
    hide DayOf, StartsWell;
    LastIsLatest(cfg, events, j);
    var last, now := LastBefore(cfg, events, j), events[j].at;
    forall m | 0 <= m < j && StartsWell(cfg, events, m) && DayOf(last.value) != DayOf(now)
      ensures DayOf(EndOf(events, m)) != DayOf(now)
    {
      var k :| 0 <= k < j && StartsWell(cfg, events, k) && EndOf(events, k) == last.value;
      assert EndOf(events, k) <= now by { assert EndOf(events, k) == events[k].at + events[k].took; }
      DaysInBetween(EndOf(events, m), last.value, now);
    }
  }

  lemma DaysInBetween(a: int, b: int, c: int)
    requires a <= b <= c
    ensures DayOf(a) == DayOf(c) ==> DayOf(b) == DayOf(c)
  {
    if DayOf(a) == DayOf(c) {
      DayBetween(a, b, c);
    }
  }

  /**
   An automatic tick starts a run exactly when automatic backups are enabled and every run so far that has succeeded ended
   long enough ago: an hour, n hours, another date or twenty hours, or nearly a week; the hour and the weekday have to
   be right as well. So with no success yet the first tick, from the hour on, starts a run.
   */
  lemma StartsExactly(cfg: Settings, events: seq<Event>, j: nat)
    requires Sequential(events) && j < |events| && events[j].auto
    ensures !cfg.enabled ==> !Fires(cfg, events, j)
    ensures cfg.enabled && cfg.plan == Hourly ==>
              (Fires(cfg, events, j) <==> NoSuccessWithin(cfg, events, j, HOUR))
    ensures cfg.enabled && cfg.plan == Hours ==>
              (Fires(cfg, events, j) <==> NoSuccessWithin(cfg, events, j, HoursBetween(cfg.everyHours) * HOUR))
    ensures cfg.enabled && cfg.plan == Daily ==>
              (Fires(cfg, events, j) <==>
                && events[j].at % DAY >= cfg.hour * HOUR
                && forall m :: 0 <= m < j && StartsWell(cfg, events, m) ==>
                     DayOf(EndOf(events, m)) != DayOf(events[j].at) || events[j].at - EndOf(events, m) >= 20 * HOUR)
    ensures cfg.enabled && cfg.plan == Weekly ==>
              (Fires(cfg, events, j) <==>
                && WeekdayIndex(DayOf(events[j].at)) == cfg.weekday && events[j].at % DAY >= cfg.hour * HOUR
                && NoSuccessWithin(cfg, events, j, 6 * DAY + 20 * HOUR))
  {
    HourReached(events[j].at, cfg.hour);
    hide StartsWell, HourOf, DayOf;
    match cfg.plan
    case Hourly => LatestDecides(cfg, events, j, HOUR);
    case Hours => LatestDecides(cfg, events, j, HoursBetween(cfg.everyHours) * HOUR);
    case Daily => LatestDayDecides(cfg, events, j);
    case Weekly => LatestDecides(cfg, events, j, 6 * DAY + 20 * HOUR);
  }

  lemma HourReached(t: int, hour: int)
    ensures HourOf(t) >= hour <==> t % DAY >= hour * HOUR
  {}

  // ---------------------------------------------------------------- every n hours

  /** In the every-n-hours mode an automatic run starts at least n hours after any earlier successful one. */
  lemma HoursAreSpaced(cfg: Settings, events: seq<Event>, i: nat, j: nat)
    requires cfg.plan == Hours && Sequential(events) && i < j
    requires Succeeds(cfg, events, i) && Fires(cfg, events, j)
    ensures events[j].at - (events[i].at + events[i].took) >= HoursBetween(cfg.everyHours) * HOUR
  {
    LastCovers(cfg, events, i, j);
  }

  /** Successful automatic runs among events `lo .. hi - 1`. */
  function Successes(cfg: Settings, events: seq<Event>, lo: nat, hi: nat): nat
    requires lo <= hi <= |events|
    decreases hi
  {
    if lo == hi then 0
    else Successes(cfg, events, lo, hi - 1) + if Succeeds(cfg, events, hi - 1) then 1 else 0
  }

  lemma {:induction false} LastSuccess(cfg: Settings, events: seq<Event>, lo: nat, hi: nat)
    returns (k: nat)
    requires cfg.plan == Hours && Sequential(events) && lo <= hi <= |events|
    requires Successes(cfg, events, lo, hi) > 0
    ensures lo <= k < hi && Succeeds(cfg, events, k)
    ensures (Successes(cfg, events, lo, hi) - 1) * (HoursBetween(cfg.everyHours) * HOUR) <= events[k].at - events[lo].at
    decreases hi
  {
    hide IsDue, LastBefore, HoursBetween;
    if !Succeeds(cfg, events, hi - 1) {
      k := LastSuccess(cfg, events, lo, hi - 1);
    } else {
      k := hi - 1;
      var before := Successes(cfg, events, lo, hi - 1);
      if before > 0 {
        var p := LastSuccess(cfg, events, lo, hi - 1);
        HoursAreSpaced(cfg, events, p, k);
        OneMore(before, HoursBetween(cfg.everyHours) * HOUR);
      }
    }
  }

  lemma OneMore(n: int, gap: int)
    ensures n * gap == (n - 1) * gap + gap
  {}

  /** Automatic runs that start among events `lo .. hi - 1`, and those of them that fail. */
  function Fired(cfg: Settings, events: seq<Event>, lo: nat, hi: nat): nat
    requires lo <= hi <= |events|
    decreases hi
  {
    if lo == hi then 0 else Fired(cfg, events, lo, hi - 1) + if Fires(cfg, events, hi - 1) then 1 else 0
  }

  function Failures(cfg: Settings, events: seq<Event>, lo: nat, hi: nat): nat
    requires lo <= hi <= |events|
    decreases hi
  {
    if lo == hi then 0
    else Failures(cfg, events, lo, hi - 1) + if Fires(cfg, events, hi - 1) && !events[hi - 1].ok then 1 else 0
  }

  lemma {:induction false} FiredAddUp(cfg: Settings, events: seq<Event>, lo: nat, hi: nat)
    requires lo <= hi <= |events|
    ensures Fired(cfg, events, lo, hi) == Successes(cfg, events, lo, hi) + Failures(cfg, events, lo, hi)
    decreases hi
  {
    hide Fires;
    if lo < hi {
      FiredAddUp(cfg, events, lo, hi - 1);
    }
  }

  /**
   So at most `width / n hours + 1` automatic runs start in a window of `width` in which none fails, and every failure
   adds at most one more.
   */
  lemma HoursWindowBound(cfg: Settings, events: seq<Event>, lo: nat, hi: nat, width: nat)
    requires cfg.plan == Hours && Sequential(events) && lo <= hi <= |events|
    requires forall i :: lo <= i < hi ==> events[i].at <= events[lo].at + width
    ensures Fired(cfg, events, lo, hi) <= width / (HoursBetween(cfg.everyHours) * HOUR) + 1 + Failures(cfg, events, lo, hi)
  {
    var n, gap := Successes(cfg, events, lo, hi), HoursBetween(cfg.everyHours) * HOUR;
    FiredAddUp(cfg, events, lo, hi);
    if n > 0 {
      var k := LastSuccess(cfg, events, lo, hi);
      assert (n - 1) * gap <= width;
      DivideBound(n - 1, gap, width);
    }
  }

  /** A failed automatic run is tried again at the next tick, under the daily and weekly plans if that is on the same date. */
  lemma FailedRunIsRetried(cfg: Settings, events: seq<Event>, i: nat)
    requires Sequential(events) && i + 1 < |events| && Fires(cfg, events, i) && !events[i].ok && events[i + 1].auto
    requires cfg.plan == Daily || cfg.plan == Weekly ==> DayOf(events[i].at) == DayOf(events[i + 1].at)
    ensures Fires(cfg, events, i + 1)
  {
    LaterSameDay(cfg, events[i].at, events[i + 1].at);
  }

  lemma LaterSameDay(cfg: Settings, a: int, b: int)
    requires a <= b
    ensures DayOf(a) == DayOf(b) && HourOf(a) >= cfg.hour ==> HourOf(b) >= cfg.hour
  {}

  lemma DivideBound(n: nat, gap: int, width: nat)
    requires gap > 0 && n * gap <= width
    ensures n <= width / gap
  {
    var q := width / gap;
    assert width == q * gap + width % gap;
    assert (q + 1) * gap == q * gap + gap;
    MultiplyCancels(n, q + 1, gap);
  }

  lemma MultiplyCancels(n: int, m: int, gap: int)
    requires gap > 0
    ensures n * gap < m * gap ==> n < m
  {
    if n >= m {
      assert (n - m) * gap >= 0;
      assert n * gap == m * gap + (n - m) * gap;
    }
  }

  // ---------------------------------------------------------------- daily

  lemma SameDayClose(a: int, b: int)
    requires DayOf(a) == DayOf(b)
    ensures b - a < DAY && b - a == TimeOfDay(b) - TimeOfDay(a)
  {}

  lemma DayBetween(a: int, b: int, c: int)
    requires a <= b <= c && DayOf(a) == DayOf(c)
    ensures DayOf(b) == DayOf(c)
  {}

  /** Two successful automatic runs on one date are at least twenty hours apart. */
  lemma DailySameDate(cfg: Settings, events: seq<Event>, i: nat, j: nat)
    requires cfg.plan == Daily && Sequential(events) && i < j
    requires Succeeds(cfg, events, i) && Fires(cfg, events, j)
    requires DayOf(events[i].at) == DayOf(events[j].at)
    ensures events[j].at - events[i].at >= 20 * HOUR
  {
    LastCovers(cfg, events, i, j);
    LastIsEarlier(cfg, events, j);
    var last := LastBefore(cfg, events, j).value;
    DayBetween(events[i].at, last, events[j].at);
  }

  /** With an hour of four or later, no automatic run starts on the date of an earlier successful one. */
  lemma DailyAtMostOnce(cfg: Settings, events: seq<Event>, i: nat, j: nat)
    requires cfg.plan == Daily && Sequential(events) && i < j && cfg.hour >= 4
    requires Succeeds(cfg, events, i) && Fires(cfg, events, j)
    ensures DayOf(events[i].at) != DayOf(events[j].at)
  {
    assert TimeOfDay(events[i].at) >= 4 * HOUR;
    if DayOf(events[i].at) == DayOf(events[j].at) {
      DailySameDate(cfg, events, i, j);
      SameDayClose(events[i].at, events[j].at);
    }
  }

  /**
   Exactly, for every hour: after an automatic run, a later tick on the same date starts another one if and only if
   neither that run nor any started in between, automatic or by hand, has succeeded, or the last success is at least
   twenty hours old.
   */
  lemma DailyRunsAgainIff(cfg: Settings, events: seq<Event>, i: nat, j: nat)
    requires cfg.plan == Daily && Sequential(events) && i < j < |events|
    requires Fires(cfg, events, i) && events[j].auto && DayOf(events[i].at) == DayOf(events[j].at)
    ensures Fires(cfg, events, j) <==>
            || NoneSucceeds(cfg, events, i, j)
            || (LastBefore(cfg, events, j).Some? && events[j].at - LastBefore(cfg, events, j).value >= 20 * HOUR)
  {
    LaterSameDay(cfg, events[i].at, events[j].at);
    LastAfterStarts(cfg, events, i, j);
    if !NoneSucceeds(cfg, events, i, j) {
      DayBetween(events[i].at, LastBefore(cfg, events, j).value, events[j].at);
    } else if LastBefore(cfg, events, i).Some? {
      SameOrLater(LastBefore(cfg, events, i).value, events[i].at, events[j].at);
    }
  }

  /** With an hour of four or later, a date sees another automatic run exactly when no run since has succeeded. */
  lemma LateHourRunsAgainIff(cfg: Settings, events: seq<Event>, i: nat, j: nat)
    requires cfg.plan == Daily && Sequential(events) && i < j < |events| && cfg.hour >= 4
    requires Fires(cfg, events, i) && events[j].auto && DayOf(events[i].at) == DayOf(events[j].at)
    ensures Fires(cfg, events, j) <==> NoneSucceeds(cfg, events, i, j)
  {
    DailyRunsAgainIff(cfg, events, i, j);
    LastAfterStarts(cfg, events, i, j);
    if !NoneSucceeds(cfg, events, i, j) {
      var last := LastBefore(cfg, events, j).value;
      DayBetween(events[i].at, last, events[j].at);
      SameDayClose(last, events[j].at);
      SameDayClose(events[i].at, last);
    }
  }

  /** No event from `i` on and before `j` is a run that succeeds. */
  predicate NoneSucceeds(cfg: Settings, events: seq<Event>, i: nat, j: nat)
    requires i <= j <= |events|
  {
    forall m :: i <= m < j ==> !StartsWell(cfg, events, m)
  }

  predicate StartsWell(cfg: Settings, events: seq<Event>, m: nat)
    requires m < |events|
  {
    Starts(cfg, LastBefore(cfg, events, m), events[m]) && events[m].ok
  }

  /** What is recorded at `j`: what was recorded at `i`, or the end of a run started since. */
  lemma {:induction false} LastAfterStarts(cfg: Settings, events: seq<Event>, i: nat, j: nat)
    requires Sequential(events) && i < j < |events|
    ensures if NoneSucceeds(cfg, events, i, j) then LastBefore(cfg, events, j) == LastBefore(cfg, events, i)
            else LastBefore(cfg, events, j).Some? && events[i].at <= LastBefore(cfg, events, j).value <= events[j].at
    decreases j
  {
    hide Starts;
    if StartsWell(cfg, events, j - 1) {
      assert LastBefore(cfg, events, j) == Some(events[j - 1].at + events[j - 1].took);
      assert events[j - 1].at + events[j - 1].took <= events[j].at;
    } else {
      assert LastBefore(cfg, events, j) == LastBefore(cfg, events, j - 1);
      if i + 1 < j {
        LastAfterStarts(cfg, events, i, j - 1);
        assert events[j - 1].at + events[j - 1].took <= events[j].at;
      }
      assert NoneSucceeds(cfg, events, i, j) <==> NoneSucceeds(cfg, events, i, j - 1);
    }
  }

  /** Being due on a date does not wear off during that date. */
  lemma SameOrLater(last: int, a: int, b: int)
    requires a <= b && DayOf(a) == DayOf(b)
    ensures DayOf(last) != DayOf(a) || a - last >= 20 * HOUR ==> DayOf(last) != DayOf(b) || b - last >= 20 * HOUR
  {}

  /** With any hour, of three automatic runs on one date the first or the second has failed. */
  lemma DailyAtMostTwice(cfg: Settings, events: seq<Event>, i: nat, j: nat, k: nat)
    requires cfg.plan == Daily && Sequential(events) && i < j < k
    requires Fires(cfg, events, i) && Fires(cfg, events, j) && Fires(cfg, events, k)
    requires DayOf(events[i].at) == DayOf(events[j].at) == DayOf(events[k].at)
    ensures !events[i].ok || !events[j].ok
  {
    if events[i].ok && events[j].ok {
      DailySameDate(cfg, events, i, j);
      DailySameDate(cfg, events, j, k);
      SameDayClose(events[i].at, events[k].at);
    }
  }

  /** Before four o'clock two successful runs on one date do happen: one at the hour, one twenty hours later. */
  lemma EarlyHourRunsTwice(cfg: Settings) returns (events: seq<Event>)
    requires cfg.enabled && cfg.plan == Daily && 0 <= cfg.hour < 4
    ensures |events| == 2 && Sequential(events) && Succeeds(cfg, events, 0) && Succeeds(cfg, events, 1)
    ensures DayOf(events[0].at) == DayOf(events[1].at)
  {
    var first, second := cfg.hour * HOUR, (cfg.hour + 20) * HOUR;
    events := [Event(first, true, true, 0), Event(second, true, true, 0)];
    assert DayOf(first) == 0 == DayOf(second) && HourOf(first) == cfg.hour && HourOf(second) == cfg.hour + 20;
    assert LastBefore(cfg, events, 0) == None;
    assert LastBefore(cfg, events, 1) == Some(first);
  }
}
