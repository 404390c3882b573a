/** The per-user token bucket and the cooldown of heavy actions. */
module Throttle {
  import opened Prelude

  type User = int

  datatype Limits = Limits(rate: real, burst: nat, cooldown: real)

  predicate GoodLimits(lim: Limits) { lim.rate > 0.0 }

  const HEAVY_ACTIONS: seq<string> := ["p:generate", "p:regenerate", "p:preview"]

  /** The first heavy action the payload starts with. */
  function HeavyAction(payload: string): Option<string> {
    if HEAVY_ACTIONS[0] <= payload then Some(HEAVY_ACTIONS[0])
    else if HEAVY_ACTIONS[1] <= payload then Some(HEAVY_ACTIONS[1])
    else if HEAVY_ACTIONS[2] <= payload then Some(HEAVY_ACTIONS[2])
    else None
  }

  datatype Event = Event(user: User, payload: string, now: real)

  /** `tokens[u]` holds the tokens left after the user's last counted event, and its time. */
  datatype State = State(tokens: map<User, (real, real)>, heavy: map<(User, string), real>)

  const INITIAL: State := State(map[], map[])

  datatype Verdict = Suppressed | Refused | Accepted

  function MinReal(a: real, b: real): real { if a <= b then a else b }

  /** The tokens the user holds at time `now`. */
  function Level(lim: Limits, s: State, u: User, now: real): real
    requires GoodLimits(lim)
  {
    var held := if u in s.tokens then s.tokens[u] else (lim.burst as real, now);
    MinReal(lim.burst as real, held.0 + (now - held.1) / lim.rate)
  }

  /** The same heavy action was let through less than one cooldown ago. */
  predicate CoolingDown(lim: Limits, s: State, e: Event) {
    var action := HeavyAction(e.payload);
    action.Some? &&
    var key := (e.user, action.value);
    e.now - (if key in s.heavy then s.heavy[key] else 0.0) < lim.cooldown
  }

  function Judge(lim: Limits, s: State, e: Event): Verdict
    requires GoodLimits(lim)
  {
    if CoolingDown(lim, s, e) then Suppressed
    else if Level(lim, s, e.user, e.now) < 1.0 then Refused
    else Accepted
  }

  /** The state after an event. A suppressed event leaves it alone; a refused heavy action still restarts its cooldown. */
  function Next(lim: Limits, s: State, e: Event): State
    requires GoodLimits(lim)
  {
    var verdict := Judge(lim, s, e);
    if verdict == Suppressed then s
    else
      var action := HeavyAction(e.payload);
      var level := Level(lim, s, e.user, e.now);
      State(s.tokens[e.user := (if verdict == Accepted then level - 1.0 else level, e.now)],
            if action.Some? then s.heavy[(e.user, action.value) := e.now] else s.heavy)
  }

  /** The middleware object with its two dictionaries; `history` remembers the events it has handled. */
  class Middleware {
    const lim: Limits
    var tokens: map<User, (real, real)>
    var heavy: map<(User, string), real>
    ghost var history: seq<Event>

    ghost predicate Valid()
      reads this
    {
      GoodLimits(lim) && InOrder(history) && Current() == StateAt(lim, history, |history|)
    }

    function Current(): State
      reads this
    {
      State(tokens, heavy)
    }

    constructor (lim: Limits)
      requires GoodLimits(lim)
      ensures Valid() && this.lim == lim && history == []
    {
      this.lim := lim;
      tokens, heavy, history := map[], map[], [];
    }

    /** The cooldown of heavy actions, then the bucket. */
    method Decide(e: Event) returns (passed: bool)
      requires GoodLimits(lim)
      modifies this`tokens, this`heavy
      ensures passed <==> Judge(lim, old(Current()), e) == Accepted
      ensures Current() == Next(lim, old(Current()), e)
    {
      var action := HeavyAction(e.payload);
      if action.Some? {
        var key := (e.user, action.value);
        var last := if key in heavy then heavy[key] else 0.0;
        if e.now - last < lim.cooldown {
          return false;
        }
        heavy := heavy[key := e.now];
      }
      var held := if e.user in tokens then tokens[e.user] else (lim.burst as real, e.now);
      var level := MinReal(lim.burst as real, held.0 + (e.now - held.1) / lim.rate);
      if level < 1.0 {
        tokens := tokens[e.user := (level, e.now)];
        return false;
      }
      tokens := tokens[e.user := (level - 1.0, e.now)];
      return true;
    }

    /**
     Handles one event of a known user; the event goes on to its handler exactly when it is accepted. Whatever window
     of the past is looked at, it then still holds no more accepted events of the user than the burst and its length
     allow; an accepted event takes one token, and nothing changes for anybody else.
     */
    method Handle(e: Event) returns (passed: bool)
      requires Valid() && (history != [] ==> history[|history| - 1].now <= e.now)
      modifies this
      ensures Valid() && history == old(history) + [e]
      ensures passed <==> VerdictAt(lim, history, |old(history)|) == Accepted
      ensures forall lo :: 0 <= lo < |history| ==> WindowIsBounded(lim, history, e.user, lo, |history|)
      ensures Level(lim, Current(), e.user, e.now) == Level(lim, old(Current()), e.user, e.now) - if passed then 1.0 else 0.0
      ensures forall u :: u != e.user ==> SameFor(u, old(Current()), Current())
    {
      hide Judge, Next, Level, WindowIsBounded, InOrder, SameFor;
      HandleFacts(lim, history, e);
      passed := Decide(e);
      history := history + [e];
    }
  }

  /** What one more event adds to a run. */
  lemma HandleFacts(lim: Limits, events: seq<Event>, e: Event)
    requires GoodLimits(lim) && InOrder(events) && (events != [] ==> events[|events| - 1].now <= e.now)
    ensures var s, all := StateAt(lim, events, |events|), events + [e];
            && InOrder(all) && StateAt(lim, all, |all|) == Next(lim, s, e) && VerdictAt(lim, all, |events|) == Judge(lim, s, e)
            && Level(lim, Next(lim, s, e), e.user, e.now) ==
               Level(lim, s, e.user, e.now) - (if Judge(lim, s, e) == Accepted then 1.0 else 0.0)
            && (forall u :: u != e.user ==> SameFor(u, s, Next(lim, s, e)))
            && (forall lo :: 0 <= lo < |all| ==> WindowIsBounded(lim, all, e.user, lo, |all|))
  {
    var s, all := StateAt(lim, events, |events|), events + [e];
    AppendInOrder(events, e);
    StateOfPrefix(lim, events, [e], |events|);
    StaysSane(lim, events, |events|, e.now);
    LevelAfter(lim, s, e, e.user);
    forall u | u != e.user ensures SameFor(u, s, Next(lim, s, e)) {
      OthersAreSame(lim, s, e, u);
    }
    hide WindowIsBounded;
    forall lo | 0 <= lo < |all| ensures WindowIsBounded(lim, all, e.user, lo, |all|) {
      AcceptedAreBounded(lim, all, e.user, lo, |all|);
    }
  }

  lemma OthersAreSame(lim: Limits, s: State, e: Event, u: User)
    requires GoodLimits(lim) && u != e.user
    ensures SameFor(u, s, Next(lim, s, e))
  {
    HeavyActionListed(e.payload);
  }

  // ---------------------------------------------------------------- runs

  /** The state before event `i` of a run. */
  function StateAt(lim: Limits, events: seq<Event>, i: nat): State
    requires GoodLimits(lim) && i <= |events|
  {
    if i == 0 then INITIAL else Next(lim, StateAt(lim, events, i - 1), events[i - 1])
  }

  function VerdictAt(lim: Limits, events: seq<Event>, i: nat): Verdict
    requires GoodLimits(lim) && i < |events|
  {
    Judge(lim, StateAt(lim, events, i), events[i])
  }

  /** The clock is monotonic. */
  predicate InOrder(events: seq<Event>) {
    forall i, j :: 0 <= i < j < |events| ==> events[i].now <= events[j].now
  }

  /** Accepted events of user `u` among events `lo .. hi - 1`. */
  function AcceptedCount(lim: Limits, events: seq<Event>, u: User, lo: nat, hi: nat): nat
    requires GoodLimits(lim) && lo <= hi <= |events|
    decreases hi
  {
    if lo == hi then 0
    else AcceptedCount(lim, events, u, lo, hi - 1)
         + if events[hi - 1].user == u && VerdictAt(lim, events, hi - 1) == Accepted then 1 else 0
  }

  lemma AppendInOrder(events: seq<Event>, e: Event)
    requires InOrder(events) && (events != [] ==> events[|events| - 1].now <= e.now)
    ensures InOrder(events + [e])
  {}

  /** User `u`'s accepted events in the window number at most the burst plus the window's length over the rate. */
  predicate WindowIsBounded(lim: Limits, events: seq<Event>, u: User, lo: nat, hi: nat)
    requires GoodLimits(lim) && lo < hi <= |events|
  {
    AcceptedCount(lim, events, u, lo, hi) as real <= lim.burst as real + (events[hi - 1].now - events[lo].now) / lim.rate
  }

  /** No user's tokens exceed the burst or fall below zero, and none is recorded in the future. */
  predicate Sane(lim: Limits, s: State, now: real) {
    forall u <- s.tokens :: 0.0 <= s.tokens[u].0 <= lim.burst as real && s.tokens[u].1 <= now
  }

  lemma LevelBounds(lim: Limits, s: State, u: User, now: real)
    requires GoodLimits(lim) && Sane(lim, s, now)
    ensures 0.0 <= Level(lim, s, u, now) <= lim.burst as real
  {
    if u in s.tokens {
      QuotientNonNegative(now - s.tokens[u].1, lim.rate);
    }
  }

  lemma QuotientNonNegative(x: real, rate: real)
    requires x >= 0.0 && rate > 0.0
    ensures x / rate >= 0.0
  {}

  lemma {:induction false} StaysSane(lim: Limits, events: seq<Event>, i: nat, now: real)
    requires GoodLimits(lim) && InOrder(events) && i <= |events|
    requires forall j :: 0 <= j < i ==> events[j].now <= now
    ensures Sane(lim, StateAt(lim, events, i), now)
    decreases i
  {
    if i > 0 {
      var e := events[i - 1];
      StaysSane(lim, events, i - 1, e.now);
      StaysSane(lim, events, i - 1, now);
      LevelBounds(lim, StateAt(lim, events, i - 1), e.user, e.now);
    }
  }

  lemma QuotientAdds(x: real, y: real, rate: real)
    requires rate > 0.0
    ensures (x + y) / rate == x / rate + y / rate
  {}

  /** Between two instants a user's level grows by at most the time that passes divided by the rate. */
  lemma LevelGrowth(lim: Limits, s: State, u: User, t0: real, t1: real)
    requires GoodLimits(lim) && Sane(lim, s, t0) && t0 <= t1
    ensures Level(lim, s, u, t1) <= Level(lim, s, u, t0) + (t1 - t0) / lim.rate
  {
    QuotientNonNegative(t1 - t0, lim.rate);
    if u in s.tokens {
      QuotientAdds(t0 - s.tokens[u].1, t1 - t0, lim.rate);
    }
  }

  /** One event changes its user's level by the token it takes, and nobody else's. */
  lemma LevelAfter(lim: Limits, s: State, e: Event, u: User)
    requires GoodLimits(lim) && Sane(lim, s, e.now)
    ensures Level(lim, Next(lim, s, e), u, e.now) ==
            Level(lim, s, u, e.now) - if u == e.user && Judge(lim, s, e) == Accepted then 1.0 else 0.0
  {
    assert (e.now - e.now) / lim.rate == 0.0;
    LevelBounds(lim, s, u, e.now);
  }

  /** The level of user `u` just after event `i - 1`, at the time of that event. */
  function LevelAt(lim: Limits, events: seq<Event>, u: User, i: nat): real
    requires GoodLimits(lim) && 0 < i <= |events|
  {
    Level(lim, StateAt(lim, events, i), u, events[i - 1].now)
  }

  lemma LevelStep(lim: Limits, events: seq<Event>, u: User, i: nat)
    requires GoodLimits(lim) && InOrder(events) && i < |events|
    ensures (AcceptedCount(lim, events, u, i, i + 1)) as real + LevelAt(lim, events, u, i + 1) ==
            Level(lim, StateAt(lim, events, i), u, events[i].now)
    ensures i > 0 ==> Level(lim, StateAt(lim, events, i), u, events[i].now)
                      <= LevelAt(lim, events, u, i) + (events[i].now - events[i - 1].now) / lim.rate
  {
    StaysSane(lim, events, i, events[i].now);
    LevelAfter(lim, StateAt(lim, events, i), events[i], u);
    assert AcceptedCount(lim, events, u, i, i) == 0;
    if i > 0 {
      StaysSane(lim, events, i, events[i - 1].now);
      LevelGrowth(lim, StateAt(lim, events, i), u, events[i - 1].now, events[i].now);
    }
  }

  lemma CountStep(lim: Limits, events: seq<Event>, u: User, lo: nat, i: nat)
    requires GoodLimits(lim) && lo <= i < |events|
    ensures AcceptedCount(lim, events, u, lo, i + 1) ==
            AcceptedCount(lim, events, u, lo, i) + AcceptedCount(lim, events, u, i, i + 1)
  {
    assert AcceptedCount(lim, events, u, i, i) == 0;
  }

  /** Accepted events plus what is left never exceed what was there plus what has been refilled. */
  lemma {:induction false} TokensAreConserved(lim: Limits, events: seq<Event>, u: User, lo: nat, hi: nat)
    requires GoodLimits(lim) && InOrder(events) && lo < hi <= |events|
    ensures AcceptedCount(lim, events, u, lo, hi) as real + LevelAt(lim, events, u, hi)
         <= Level(lim, StateAt(lim, events, lo), u, events[lo].now)
            + (events[hi - 1].now - events[lo].now) / lim.rate
    decreases hi
  {
    hide AcceptedCount, LevelAt, Level, StateAt, InOrder;
    LevelStep(lim, events, u, hi - 1);
    if lo + 1 < hi {
      TokensAreConserved(lim, events, u, lo, hi - 1);
      CountStep(lim, events, u, lo, hi - 1);
      QuotientAdds(events[hi - 2].now - events[lo].now, events[hi - 1].now - events[hi - 2].now, lim.rate);
    } else {
      assert (events[lo].now - events[lo].now) / lim.rate == 0.0;
    }
  }

  /** In any window of any run, one user's accepted events number at most the burst plus the window's length over the rate. */
  lemma AcceptedAreBounded(lim: Limits, events: seq<Event>, u: User, lo: nat, hi: nat)
    requires GoodLimits(lim) && InOrder(events) && lo < hi <= |events|
    ensures WindowIsBounded(lim, events, u, lo, hi)
  {
    TokensAreConserved(lim, events, u, lo, hi);
    StaysSane(lim, events, lo, events[lo].now);
    StaysSane(lim, events, hi, events[hi - 1].now);
    LevelBounds(lim, StateAt(lim, events, lo), u, events[lo].now);
    LevelBounds(lim, StateAt(lim, events, hi), u, events[hi - 1].now);
  }

  /** User `u`'s events are at least `rate` seconds apart. */
  predicate Patient(lim: Limits, events: seq<Event>, u: User) {
    forall i, j :: 0 <= i < j < |events| && events[i].user == u && events[j].user == u ==>
      events[j].now - events[i].now >= lim.rate
  }

  lemma {:induction false} LastSeenIsEvent(lim: Limits, events: seq<Event>, u: User, i: nat)
    requires GoodLimits(lim) && i <= |events| && u in StateAt(lim, events, i).tokens
    ensures exists j :: 0 <= j < i && events[j].user == u && StateAt(lim, events, i).tokens[u].1 == events[j].now
    decreases i
  {
    if i > 0 {
      var e := events[i - 1];
      if e.user != u || VerdictAt(lim, events, i - 1) == Suppressed {
        LastSeenIsEvent(lim, events, u, i - 1);
      }
    }
  }

  lemma QuotientAtLeastOne(x: real, rate: real)
    requires rate > 0.0 && x >= rate
    ensures x / rate >= 1.0
  {}

  /** With a positive burst, a user whose events are at least `rate` seconds apart is never refused. */
  lemma PatientUserPasses(lim: Limits, events: seq<Event>, u: User, i: nat)
    requires GoodLimits(lim) && lim.burst >= 1 && InOrder(events) && Patient(lim, events, u)
    requires i < |events| && events[i].user == u
    ensures VerdictAt(lim, events, i) != Refused
  {
    var s := StateAt(lim, events, i);
    StaysSane(lim, events, i, events[i].now);
    if u in s.tokens {
      LastSeenIsEvent(lim, events, u, i);
      QuotientAtLeastOne(events[i].now - s.tokens[u].1, lim.rate);
    }
  }

  /** With an empty burst everybody is refused, so the bound above is the exact condition. */
  lemma EmptyBurstRefuses(lim: Limits, events: seq<Event>, i: nat)
    requires GoodLimits(lim) && lim.burst == 0 && i < |events|
    ensures VerdictAt(lim, events, i) != Accepted
  {}

  /** Event `i` got past the cooldown of heavy action `action`. */
  predicate PassesCooldown(lim: Limits, events: seq<Event>, i: int, u: User, action: string)
    requires GoodLimits(lim)
  {
    0 <= i < |events| && events[i].user == u && HeavyAction(events[i].payload) == Some(action)
    && VerdictAt(lim, events, i) != Suppressed
  }

  lemma {:induction false} CooldownIsRecorded(lim: Limits, events: seq<Event>, i: nat, j: nat, u: User, action: string)
    requires GoodLimits(lim) && InOrder(events) && i < j <= |events| && PassesCooldown(lim, events, i, u, action)
    ensures var s := StateAt(lim, events, j);
            (u, action) in s.heavy && events[i].now <= s.heavy[(u, action)]
    decreases j
  {
    if i + 1 < j {
      CooldownIsRecorded(lim, events, i, j - 1, u, action);
    }
  }

  /** Two passes of one user's same heavy action are at least one cooldown apart. */
  lemma HeavyActionsAreSpaced(lim: Limits, events: seq<Event>, i: nat, j: nat, u: User, action: string)
    requires GoodLimits(lim) && InOrder(events) && i < j
    requires PassesCooldown(lim, events, i, u, action) && PassesCooldown(lim, events, j, u, action)
    ensures events[j].now - events[i].now >= lim.cooldown
  {
    CooldownIsRecorded(lim, events, i, j, u, action);
  }

  /** The payload belongs to one of the three heavy actions. */
  predicate IsHeavy(payload: string, action: string) {
    action in {"p:generate", "p:regenerate", "p:preview"} && action <= payload
  }

  lemma HeavyMeans(payload: string, action: string)
    ensures HeavyAction(payload) == Some(action) <==> IsHeavy(payload, action)
  {
    assert "p:generate"[2] == 'g' && "p:regenerate"[2] == 'r' && "p:preview"[2] == 'p';
    assert forall a: string :: a <= payload && |a| > 2 ==> payload[2] == a[2];
  }

  /** What is remembered is the latest pass of the user's action. */
  lemma {:induction false} LatestPass(lim: Limits, events: seq<Event>, i: nat, u: User, action: string)
    requires GoodLimits(lim) && InOrder(events) && i <= |events|
    ensures var heavy := StateAt(lim, events, i).heavy;
            && ((u, action) in heavy <==> exists j :: 0 <= j < i && PassesCooldown(lim, events, j, u, action))
            && ((u, action) in heavy ==>
                  exists j :: 0 <= j < i && PassesCooldown(lim, events, j, u, action) && events[j].now == heavy[(u, action)])
    decreases i
  {
    hide HeavyAction, Level, CoolingDown, InOrder;
    if i > 0 {
      LatestPass(lim, events, i - 1, u, action);
      if PassesCooldown(lim, events, i - 1, u, action) {
        assert (u, action) in StateAt(lim, events, i).heavy;
      }
    }
  }

  /**
   A heavy action is suppressed exactly when one of the same user and kind has passed less than one cooldown before, or,
   when none has ever passed, while the clock itself is below the cooldown. Nothing else is suppressed.
   */
  lemma SuppressedExactly(lim: Limits, events: seq<Event>, i: nat)
    requires GoodLimits(lim) && InOrder(events) && i < |events|
    ensures var e := events[i];
            VerdictAt(lim, events, i) == Suppressed <==>
              exists action: string ::
                && IsHeavy(e.payload, action)
                && if exists j :: 0 <= j < i && PassesCooldown(lim, events, j, e.user, action)
                   then exists j :: 0 <= j < i && PassesCooldown(lim, events, j, e.user, action) && e.now - events[j].now < lim.cooldown
                   else e.now < lim.cooldown
  {
    var e := events[i];
    var action := HeavyAction(e.payload);
    if action.Some? {
      HeavyMeans(e.payload, action.value);
      LatestPass(lim, events, i, e.user, action.value);
      forall j | 0 <= j < i && PassesCooldown(lim, events, j, e.user, action.value)
        ensures events[j].now <= StateAt(lim, events, i).heavy[(e.user, action.value)]
      {
        CooldownIsRecorded(lim, events, j, i, e.user, action.value);
      }
    }
    forall a: string | IsHeavy(e.payload, a) ensures action == Some(a) {
      HeavyMeans(e.payload, a);
    }
    hide HeavyAction, IsHeavy, PassesCooldown, Level, InOrder;
  }

  /** With a clock past the cooldown, a heavy action that the user has not asked for within one cooldown is not suppressed. */
  lemma QuietActionPasses(lim: Limits, events: seq<Event>, i: nat)
    requires GoodLimits(lim) && InOrder(events) && i < |events| && events[i].now >= lim.cooldown
    requires forall j, action: string ::
               (0 <= j < i && events[j].user == events[i].user && IsHeavy(events[j].payload, action)
                && IsHeavy(events[i].payload, action)) ==> events[i].now - events[j].now >= lim.cooldown
    ensures VerdictAt(lim, events, i) != Suppressed
  {
    SuppressedExactly(lim, events, i);
    forall j, action: string | PassesCooldown(lim, events, j, events[i].user, action) ensures IsHeavy(events[j].payload, action) {
      HeavyMeans(events[j].payload, action);
    }
    hide PassesCooldown, VerdictAt, IsHeavy;
  }

  /** Nobody's level falls by more than the accepted events. */
  lemma {:induction false} LevelIsKept(lim: Limits, events: seq<Event>, u: User, i: nat, now: real)
    requires GoodLimits(lim) && InOrder(events) && i <= |events| && (i > 0 ==> events[i - 1].now <= now)
    ensures Level(lim, StateAt(lim, events, i), u, now) >= lim.burst as real - AcceptedCount(lim, events, u, 0, i) as real
    decreases i
  {
    if i > 0 {
      var e := events[i - 1];
      LevelIsKept(lim, events, u, i - 1, e.now);
      StaysSane(lim, events, i - 1, e.now);
      StaysSane(lim, events, i, e.now);
      LevelAfter(lim, StateAt(lim, events, i - 1), e, u);
      LevelRises(lim, StateAt(lim, events, i), u, e.now, now);
      hide Level, Sane, InOrder;
    } else {
      assert (now - now) / lim.rate == 0.0;
    }
  }

  lemma LevelRises(lim: Limits, s: State, u: User, t0: real, t1: real)
    requires GoodLimits(lim) && Sane(lim, s, t0) && t0 <= t1
    ensures Level(lim, s, u, t0) <= Level(lim, s, u, t1)
  {
    QuotientNonNegative(t1 - t0, lim.rate);
    if u in s.tokens {
      QuotientAdds(t0 - s.tokens[u].1, t1 - t0, lim.rate);
    }
  }

  /** Until the burst is used up a user is never refused, however fast the events come. */
  lemma FirstBurstPasses(lim: Limits, events: seq<Event>, i: nat)
    requires GoodLimits(lim) && InOrder(events) && i < |events|
    requires AcceptedCount(lim, events, events[i].user, 0, i) < lim.burst
    ensures VerdictAt(lim, events, i) != Refused
  {
    LevelIsKept(lim, events, events[i].user, i, events[i].now);
  }

  // ---------------------------------------------------------------- users do not affect each other

  /** The two states agree on everything about user `u`. */
  predicate SameFor(u: User, a: State, b: State) {
    && (u in a.tokens <==> u in b.tokens) && (u in a.tokens ==> a.tokens[u] == b.tokens[u])
    && forall action <- HEAVY_ACTIONS ::
         ((u, action) in a.heavy <==> (u, action) in b.heavy)
         && ((u, action) in a.heavy ==> a.heavy[(u, action)] == b.heavy[(u, action)])
  }

  function EventsOf(events: seq<Event>, u: User): seq<Event> {
    if events == [] then []
    else EventsOf(events[..|events| - 1], u)
         + if events[|events| - 1].user == u then [events[|events| - 1]] else []
  }

  lemma HeavyActionListed(payload: string)
    ensures HeavyAction(payload).Some? ==> HeavyAction(payload).value in HEAVY_ACTIONS
  {}

  lemma NextAgrees(lim: Limits, a: State, b: State, e: Event)
    requires GoodLimits(lim) && SameFor(e.user, a, b)
    ensures Judge(lim, a, e) == Judge(lim, b, e) && SameFor(e.user, Next(lim, a, e), Next(lim, b, e))
  {
    HeavyActionListed(e.payload);
  }

  lemma {:induction false} StateOfPrefix(lim: Limits, events: seq<Event>, more: seq<Event>, i: nat)
    requires GoodLimits(lim) && i <= |events|
    ensures StateAt(lim, events + more, i) == StateAt(lim, events, i)
    decreases i
  {
    if i > 0 {
      StateOfPrefix(lim, events, more, i - 1);
    }
  }

  lemma EventsOfAppend(init: seq<Event>, last: Event, u: User)
    ensures EventsOf(init + [last], u) == if last.user == u then EventsOf(init, u) + [last] else EventsOf(init, u)
  {
    var all := init + [last];
    assert all[..|all| - 1] == init && all[|all| - 1] == last;
    assert EventsOf(init, u) + [] == EventsOf(init, u);
  }

  lemma SameForChain(u: User, a: State, b: State, c: State)
    requires SameFor(u, a, b) && SameFor(u, a, c)
    ensures SameFor(u, b, c)
  {}

  lemma SameForItself(u: User, a: State)
    ensures SameFor(u, a, a)
  {}

  /** What a user experiences in a run depends on that user's events only. */
  lemma {:induction false} UsersAreIsolated(lim: Limits, events: seq<Event>, u: User)
    requires GoodLimits(lim)
    ensures var own := EventsOf(events, u);
            SameFor(u, StateAt(lim, events, |events|), StateAt(lim, own, |own|))
    decreases |events|
  {
    if events != [] {
      hide Next, Judge, SameFor, EventsOf;
      var init, last := events[..|events| - 1], events[|events| - 1];
      UsersAreIsolated(lim, init, u);
      assert events == init + [last];
      StateOfPrefix(lim, init, [last], |init|);
      var own := EventsOf(init, u);
      if last.user == u {
        StateOfPrefix(lim, own, [last], |own|);
        NextAgrees(lim, StateAt(lim, init, |init|), StateAt(lim, own, |own|), last);
        EventsOfAppend(init, last, u);
      } else {
        OthersAreSame(lim, StateAt(lim, init, |init|), last, u);
        SameForChain(u, StateAt(lim, init, |init|), StateAt(lim, events, |events|), StateAt(lim, own, |own|));
        EventsOfAppend(init, last, u);
      }
    } else {
      SameForItself(u, INITIAL);
    }
  }
}
