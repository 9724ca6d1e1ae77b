/**
  What a cron expression fires on, and the search for the next time (cron.py, `_day_matches` and
  `next_after`), in a zone at a fixed distance from UTC. Instants are whole seconds of Unix time.
 */
module CronTimes {
  import opened Options
  import opened Calendar
  import opened CronFields

  const MAX_SEARCH_DAYS := 4 * 366

  // the day number of 1 January 1970
  const EPOCH := 719163

  predicate DayMatches(c: Cron, d: Date, weekday: int) {
    Allows(c.month, d.month) &&
    if c.dayOfMonth.None? || c.dayOfWeek.None? then Allows(c.dayOfMonth, d.day) && Allows(c.dayOfWeek, weekday)
    else Allows(c.dayOfMonth, d.day) || Allows(c.dayOfWeek, weekday)
  }

  /** Restricting both day fields asks for either; leaving one open asks for the other. */
  lemma {:induction false} DayFieldsCombine(c: Cron, d: Date, weekday: int)
    ensures var byDay, byWeekday := c.(dayOfWeek := None), c.(dayOfMonth := None);
            DayMatches(c, d, weekday)
            <==> if c.dayOfMonth.Some? && c.dayOfWeek.Some?
                 then DayMatches(byDay, d, weekday) || DayMatches(byWeekday, d, weekday)
                 else DayMatches(byDay, d, weekday) && DayMatches(byWeekday, d, weekday)
  {
  }

  predicate DayFires(c: Cron, day: int) {
    DayMatches(c, FromOrdinal(day), Weekday(day))
  }

  /** A second of the day at which the clock shows an allowed hour and minute. */
  predicate TimeFires(c: Cron, second: int) {
    0 <= second < 86400 && second % 60 == 0 && Allows(c.hour, second / 3600) && Allows(c.minute, second % 3600 / 60)
  }

  /** The day the clock in the zone shows. */
  function LocalDay(zone: int, t: int): int {
    EPOCH + (t + zone) / 86400
  }

  function Midnight(zone: int, day: int): int {
    (day - EPOCH) * 86400 - zone
  }

  predicate Fires(c: Cron, zone: int, t: int) {
    DayFires(c, LocalDay(zone, t)) && TimeFires(c, (t + zone) % 86400)
  }

  /** The starting day of a search. */
  function StartDay(zone: int, after: real): int {
    LocalDay(zone, after.Floor)
  }

  predicate Upcoming(c: Cron, zone: int, after: real, t: int) {
    Fires(c, zone, t) && t as real > after
  }

  lemma {:induction false} DayAndSecond(zone: int, day: int, second: int)
    requires 0 <= second < 86400
    ensures LocalDay(zone, Midnight(zone, day) + second) == day
    ensures (Midnight(zone, day) + second + zone) % 86400 == second
  {
  }

  lemma {:induction false} SplitInstant(zone: int, t: int)
    ensures t == Midnight(zone, LocalDay(zone, t)) + (t + zone) % 86400
  {
  }

  /** A search never has to look before its starting day, and all of a later day lies ahead. */
  lemma {:induction false} AheadByDay(zone: int, after: real, t: int)
    ensures t as real > after ==> LocalDay(zone, t) >= StartDay(zone, after)
    ensures LocalDay(zone, t) > StartDay(zone, after) ==> t as real > after
  {
  }

  // ----- one day -----------------------------------------------------------------------------------

  /** A time of one day worth considering: on the starting day only what is still to come. */
  predicate Candidate(c: Cron, filtered: bool, after: real, midnight: int, t: int) {
    TimeFires(c, t - midnight) && (filtered ==> t as real > after)
  }

  /** The earliest candidate of a day. */
  method FirstOfDay(c: Cron, filtered: bool, after: real, midnight: int) returns (best: Option<int>)
    ensures best.None? ==> forall t :: !Candidate(c, filtered, after, midnight, t)
    ensures best.Some? ==> Candidate(c, filtered, after, midnight, best.value)
    ensures best.Some? ==> forall t :: Candidate(c, filtered, after, midnight, t) ==> best.value <= t
  {
    hide Candidate;
    best := None;
    NoneSeen(c, filtered, after, midnight);
    for h := 0 to 24
      invariant BestBefore(c, filtered, after, midnight, best, h * 60)
    {
      for m := 0 to 60
        invariant BestBefore(c, filtered, after, midnight, best, h * 60 + m)
      {
        var t := midnight + h * 3600 + m * 60;
        MinuteStep(c, filtered, after, midnight, best, h, m);
        if Allows(c.hour, h) && Allows(c.minute, m) && (!filtered || t as real > after) {
          if best.None? || t < best.value {
            best := Some(t);
          }
        }
      }
    }
    AllSeen(c, filtered, after, midnight, best);
  }

  /** `best` is the earliest candidate among the day's first `minutes` minutes. */
  ghost predicate BestBefore(c: Cron, filtered: bool, after: real, midnight: int, best: Option<int>, minutes: int) {
    match best
    case None => forall t :: Candidate(c, filtered, after, midnight, t) ==> t - midnight >= minutes * 60
    case Some(b) =>
      && Candidate(c, filtered, after, midnight, b) && b - midnight < minutes * 60
      && forall t :: Candidate(c, filtered, after, midnight, t) ==> b <= t
  }

  lemma {:induction false} NoneSeen(c: Cron, filtered: bool, after: real, midnight: int)
    ensures BestBefore(c, filtered, after, midnight, None, 0)
  {
  }

  lemma {:induction false} MinuteStep(c: Cron, filtered: bool, after: real, midnight: int, best: Option<int>, h: int, m: int)
    requires 0 <= h < 24 && 0 <= m < 60 && BestBefore(c, filtered, after, midnight, best, h * 60 + m)
    ensures var t := midnight + h * 3600 + m * 60;
            var hit := Allows(c.hour, h) && Allows(c.minute, m) && (!filtered || t as real > after);
            var next := if hit && (best.None? || t < best.value) then Some(t) else best;
            BestBefore(c, filtered, after, midnight, next, h * 60 + m + 1)
  {
    var second := h * 3600 + m * 60;
    assert second / 3600 == h && second % 3600 / 60 == m && second % 60 == 0;
    forall t | Candidate(c, filtered, after, midnight, t) && second <= t - midnight < second + 60 ensures t - midnight == second {
    }
  }

  lemma {:induction false} AllSeen(c: Cron, filtered: bool, after: real, midnight: int, best: Option<int>)
    requires BestBefore(c, filtered, after, midnight, best, 1440)
    ensures best.None? ==> forall t :: !Candidate(c, filtered, after, midnight, t)
  {
  }

  // ----- the search --------------------------------------------------------------------------------

  lemma {:induction false} CandidatesAreUpcoming(c: Cron, zone: int, after: real, day: int, filtered: bool, t: int)
    requires day >= StartDay(zone, after) && DayFires(c, day) && filtered == (day == StartDay(zone, after))
    ensures Candidate(c, filtered, after, Midnight(zone, day), t)
            <==> Upcoming(c, zone, after, t) && LocalDay(zone, t) == day
  {
    hide DayFires;
    AheadByDay(zone, after, t);
    SplitInstant(zone, t);
    if TimeFires(c, t - Midnight(zone, day)) {
      DayAndSecond(zone, day, t - Midnight(zone, day));
    }
  }

  ghost predicate NoneBefore(c: Cron, zone: int, after: real, day: int) {
    forall t :: Upcoming(c, zone, after, t) ==> LocalDay(zone, t) >= day
  }

  /** The earliest time strictly after `after` at which the expression fires. It is refused exactly
      when no such time lies on the starting day or within the 1463 days after it. */
  method NextAfter(c: Cron, zone: int, after: real) returns (next: Result<int>)
    ensures next.Ok? ==> Upcoming(c, zone, after, next.value)
    ensures next.Ok? ==> forall t :: Upcoming(c, zone, after, t) ==> next.value <= t
    ensures next.Ok? <==> InWindow(c, zone, after)
  {
    hide Upcoming, DayFires, LocalDay, Candidate, Fires;
    var start := StartDay(zone, after);
    NoneYet(c, zone, after);
    for offset := 0 to MAX_SEARCH_DAYS
      invariant NoneBefore(c, zone, after, start + offset)
    {
      var day := start + offset;
      if DayFires(c, day) {
        var best := FirstOfDay(c, offset == 0, after, Midnight(zone, day));
        if best.Some? {
          FoundOnDay(c, zone, after, day, offset == 0, best.value);
          return Ok(best.value);
        }
        NotOnDay(c, zone, after, day, offset == 0);
      } else {
        OtherDay(c, zone, after, day);
      }
    }
    next := Err("no occurrence");
  }

  /** Something fires after `after` and before the window closes. */
  ghost predicate InWindow(c: Cron, zone: int, after: real) {
    exists t :: Upcoming(c, zone, after, t) && LocalDay(zone, t) < StartDay(zone, after) + MAX_SEARCH_DAYS
  }

  lemma {:induction false} NoneYet(c: Cron, zone: int, after: real)
    ensures NoneBefore(c, zone, after, StartDay(zone, after))
  {
  }

  lemma {:induction false} OtherDay(c: Cron, zone: int, after: real, day: int)
    requires NoneBefore(c, zone, after, day) && !DayFires(c, day)
    ensures NoneBefore(c, zone, after, day + 1)
  {
  }

  lemma {:induction false} NotOnDay(c: Cron, zone: int, after: real, day: int, filtered: bool)
    requires NoneBefore(c, zone, after, day) && day >= StartDay(zone, after) && DayFires(c, day)
    requires filtered == (day == StartDay(zone, after))
    requires forall t :: !Candidate(c, filtered, after, Midnight(zone, day), t)
    ensures NoneBefore(c, zone, after, day + 1)
  {
    hide LocalDay, DayFires, Candidate, Upcoming, Midnight;
    forall t | Upcoming(c, zone, after, t) ensures LocalDay(zone, t) >= day + 1 {
      CandidatesAreUpcoming(c, zone, after, day, filtered, t);
    }
  }

  lemma {:induction false} FoundOnDay(c: Cron, zone: int, after: real, day: int, filtered: bool, best: int)
    requires NoneBefore(c, zone, after, day) && DayFires(c, day)
    requires StartDay(zone, after) <= day < StartDay(zone, after) + MAX_SEARCH_DAYS && filtered == (day == StartDay(zone, after))
    requires Candidate(c, filtered, after, Midnight(zone, day), best)
    requires forall t :: Candidate(c, filtered, after, Midnight(zone, day), t) ==> best <= t
    ensures Upcoming(c, zone, after, best) && InWindow(c, zone, after)
    ensures forall t :: Upcoming(c, zone, after, t) ==> best <= t
  {
    CandidatesAreUpcoming(c, zone, after, day, filtered, best);
    forall t | Upcoming(c, zone, after, t) ensures best <= t {
      CandidatesAreUpcoming(c, zone, after, day, filtered, t);
      if LocalDay(zone, t) > day {
        LaterDay(zone, best, t);
      }
    }
  }

  lemma {:induction false} LaterDay(zone: int, s: int, t: int)
    requires LocalDay(zone, s) < LocalDay(zone, t)
    ensures s < t
  {
  }
}
