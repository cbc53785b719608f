/** The forward-looking calendar queries agree with the plain status of each minute. */
module CalendarProofs {
  import opened Text
  import opened CivilDate
  import opened Calendar

  /** Sessions in their usual order: pre-market, regular hours around lunch, after
      hours; an early close falls inside the regular day or before the after hours. */
  predicate WellOrdered(ex: Exchange) {
    && HoursOk(ex.hours)
    && forall d | d in ex.holidays && ex.holidays[d].early >= 0 :: CloseOk(ex.hours, ex.holidays[d].early)
  }

  predicate CloseOk(h: Hours, close: int) {
    h.open < close < MINUTES && (h.after.Some? ==> close <= h.after.value.open)
  }

  predicate HoursOk(h: Hours) {
    && 0 <= h.open < h.close < MINUTES
    && (h.pre.Some? ==> 0 <= h.pre.value.open < h.pre.value.close <= h.open)
    && (h.lunch.Some? ==> h.open <= h.lunch.value.open < h.lunch.value.close <= h.close)
    && (h.after.Some? ==> h.close <= h.after.value.open < h.after.value.close < MINUTES)
  }

  lemma ScheduleIsOk(ex: Exchange, day: int)
    requires WellOrdered(ex) && OnTimeline(day)
    ensures HoursOk(ex.hours) && CloseOk(ex.hours, ScheduleOf(ex, day).close)
  {}

  /** It is lunch, and an early close comes before lunch is over: the one boundary
      at which the status does not change. */
  predicate ClosesDuringLunch(h: Hours, sched: DaySchedule, minute: int) {
    !sched.fullHoliday && h.lunch.Some? && h.lunch.value.open <= minute < sched.close < h.lunch.value.close
  }

  lemma BoundaryCases(h: Hours, s: DaySchedule, b: int)
    ensures b in Boundaries(h, s) <==>
      || b == h.open || b == s.close
      || (h.pre.Some? && (b == h.pre.value.open || b == h.pre.value.close))
      || (h.lunch.Some? && (b == h.lunch.value.open || b == h.lunch.value.close))
      || (h.after.Some? && (b == h.after.value.open || b == h.after.value.close))
  {}

  lemma AllBoundaries(h: Hours, s: DaySchedule)
    ensures h.open in Boundaries(h, s) && s.close in Boundaries(h, s)
    ensures h.pre.Some? ==> h.pre.value.open in Boundaries(h, s) && h.pre.value.close in Boundaries(h, s)
    ensures h.lunch.Some? ==> h.lunch.value.open in Boundaries(h, s) && h.lunch.value.close in Boundaries(h, s)
    ensures h.after.Some? ==> h.after.value.open in Boundaries(h, s) && h.after.value.close in Boundaries(h, s)
  {
    BoundaryCases(h, s, h.open);
    BoundaryCases(h, s, s.close);
    if h.pre.Some? {
      BoundaryCases(h, s, h.pre.value.open);
      BoundaryCases(h, s, h.pre.value.close);
    }
    if h.lunch.Some? {
      BoundaryCases(h, s, h.lunch.value.open);
      BoundaryCases(h, s, h.lunch.value.close);
    }
    if h.after.Some? {
      BoundaryCases(h, s, h.after.value.open);
      BoundaryCases(h, s, h.after.value.close);
    }
  }

  /** Between boundaries the status stays. */
  lemma StatusConstant(h: Hours, s: DaySchedule, a: int, b: int)
    requires a <= b && forall x | x in Boundaries(h, s) :: x <= a || b < x
    ensures StatusOn(h, s, a) == StatusOn(h, s, b)
  {
    AllBoundaries(h, s);
    hide Boundaries;
  }

  /** At the next boundary it changes, unless that is an early close during lunch. */
  lemma StatusChanges(h: Hours, s: DaySchedule, minute: int, b: int)
    requires HoursOk(h) && CloseOk(h, s.close) && !s.fullHoliday
    requires b in Boundaries(h, s) && b > minute && forall x | x in Boundaries(h, s) :: x <= minute || b <= x
    ensures StatusOn(h, s, b) != StatusOn(h, s, minute) <==> !ClosesDuringLunch(h, s, minute)
  {
    AllBoundaries(h, s);
    BoundaryCases(h, s, b);
    hide Boundaries;
  }

  lemma ClosedAtNight(h: Hours, s: DaySchedule, minute: int)
    requires HoursOk(h) && CloseOk(h, s.close)
    requires forall x | x in Boundaries(h, s) :: x <= minute
    ensures StatusOn(h, s, minute) == Closed
  {
    AllBoundaries(h, s);
    hide Boundaries;
  }

  lemma FirstSession(h: Hours, s: DaySchedule, minute: int)
    requires HoursOk(h) && CloseOk(h, s.close) && !s.fullHoliday && minute <= FirstBoundary(h)
    ensures StatusOn(h, s, minute) == Closed <==> minute < FirstBoundary(h)
  {}

  // --------------------------------------------------------- minutes until change

  lemma SplitTime(day: int, minute: int)
    requires 0 <= minute < MINUTES
    ensures (day * MINUTES + minute) / MINUTES == day && (day * MINUTES + minute) % MINUTES == minute
  {}

  lemma StatusAtTime(ex: Exchange, day: int, minute: int)
    requires OnTimeline(day) && 0 <= minute < MINUTES
    ensures (day * MINUTES + minute) / MINUTES == day
    ensures StatusAt(ex, day * MINUTES + minute) == StatusOn(ex.hours, ScheduleOf(ex, day), minute)
  {
    SplitTime(day, minute);
  }

  /** The change is later today. */
  lemma ChangeToday(ex: Exchange, day: int, minute: int, best: int)
    requires WellOrdered(ex) && OnTimeline(day) && 0 <= minute < MINUTES && Trading(ex, day)
    requires best == NextOf(Boundaries(ex.hours, ScheduleOf(ex, day)), minute) && best >= 0
    ensures minute < best < MINUTES
    ensures forall k | minute <= k < best ::
              StatusOn(ex.hours, ScheduleOf(ex, day), k) == StatusOn(ex.hours, ScheduleOf(ex, day), minute)
    ensures StatusOn(ex.hours, ScheduleOf(ex, day), best) != StatusOn(ex.hours, ScheduleOf(ex, day), minute)
            <==> !ClosesDuringLunch(ex.hours, ScheduleOf(ex, day), minute)
  {
    hide StatusOn, Boundaries, ScheduleOf;
    var h, s := ex.hours, ScheduleOf(ex, day);
    ScheduleIsOk(ex, day);
    NextOfIs(Boundaries(h, s), minute);
    BoundaryCases(h, s, best);
    forall k | minute <= k < best
      ensures StatusOn(h, s, k) == StatusOn(h, s, minute)
    {
      StatusConstant(h, s, minute, k);
    }
    StatusChanges(h, s, minute, best);
  }

  /** Nothing is left today: the market stays closed until midnight. */
  lemma QuietEvening(ex: Exchange, day: int, minute: int)
    requires WellOrdered(ex) && OnTimeline(day) && 0 <= minute < MINUTES
    requires Trading(ex, day) ==> NextOf(Boundaries(ex.hours, ScheduleOf(ex, day)), minute) < 0
    ensures forall k | minute <= k < MINUTES :: StatusOn(ex.hours, ScheduleOf(ex, day), k) == Closed
  {
    var h, s := ex.hours, ScheduleOf(ex, day);
    ScheduleIsOk(ex, day);
    if Trading(ex, day) {
      hide StatusOn, Boundaries, ScheduleOf;
      NextOfIs(Boundaries(h, s), minute);
      forall k | minute <= k < MINUTES
        ensures StatusOn(h, s, k) == Closed
      {
        ClosedAtNight(h, s, k);
      }
    }
  }

  /** From this evening to just before the first session of the next trading day
      every minute is closed, and that session's first minute is not. */
  lemma ClosedUntil(ex: Exchange, day: int, minute: int, step: nat, d: int, m: int)
    requires WellOrdered(ex) && OnTimeline(day) && OnTimeline(day + step) && 0 <= minute < MINUTES && step > 0
    requires forall k | minute <= k < MINUTES :: StatusOn(ex.hours, ScheduleOf(ex, day), k) == Closed
    requires forall e | day + 1 <= e < day + step :: !Trading(ex, e)
    requires Trading(ex, day + step)
    requires day <= d <= day + step && 0 <= m < MINUTES
    requires d == day ==> minute <= m
    requires d == day + step ==> m <= FirstBoundary(ex.hours)
    ensures StatusOn(ex.hours, ScheduleOf(ex, d), m) == Closed <==> d < day + step || m < FirstBoundary(ex.hours)
  {
    hide ScheduleOf, Trading, StatusOn, WellOrdered, FirstBoundary;
    if d == day + step {
      OpensFirst(ex, d, m);
    } else if d != day {
      HolidayIsClosed(ex, d, m);
    }
  }

  lemma OpensFirst(ex: Exchange, d: int, m: int)
    requires WellOrdered(ex) && OnTimeline(d) && Trading(ex, d) && m <= FirstBoundary(ex.hours)
    ensures StatusOn(ex.hours, ScheduleOf(ex, d), m) == Closed <==> m < FirstBoundary(ex.hours)
  {
    ScheduleIsOk(ex, d);
    TradingIs(ex, d);
    hide ScheduleOf, Trading;
    FirstSession(ex.hours, ScheduleOf(ex, d), m);
  }

  lemma HolidayIsClosed(ex: Exchange, d: int, m: int)
    requires OnTimeline(d) && !Trading(ex, d)
    ensures StatusOn(ex.hours, ScheduleOf(ex, d), m) == Closed
  {
    TradingIs(ex, d);
    hide ScheduleOf, Trading;
  }

  lemma DayOfTime(t: int, day: int, minute: int, last: int, first: int)
    requires day * MINUTES + minute <= t <= last * MINUTES + first
    requires 0 <= minute < MINUTES && 0 <= first < MINUTES
    ensures var d, m := t / MINUTES, t % MINUTES;
            && day <= d <= last && 0 <= m < MINUTES && t == d * MINUTES + m
            && (d == day ==> minute <= m) && (d == last ==> m <= first)
            && (t < last * MINUTES + first <==> d < last || m < first)
  {}

  lemma TradingIs(ex: Exchange, day: int)
    requires OnTimeline(day)
    ensures Trading(ex, day) <==> !ScheduleOf(ex, day).fullHoliday
  {}

  /** The status at time u is the status at time t. */
  predicate SameStatus(ex: Exchange, t: int, u: int) {
    OnTimeline(t / 1440) && OnTimeline(u / 1440) && StatusAt(ex, u) == StatusAt(ex, t)
  }

  /** The result of calendar_minutes_until_change: -1 exactly when nothing is left
      today and none of the next 30 days trades; otherwise the status is constant up
      to that minute, across holidays and weekends, and changes there if and only if
      it is not lunch with an early close ahead. */
  lemma MinutesUntilChangeIsLeast(ex: Exchange, day: int, minute: int)
    requires WellOrdered(ex) && OnTimeline(day) && OnTimeline(day + LOOK_AHEAD) && 0 <= minute < MINUTES
    ensures var t := day * 1440 + minute;
            var n := MinutesUntilChange(ex, day, minute);
            && (n == -1 <==> NothingAhead(ex, day, minute))
            && (n != -1 ==>
                 && n > 0 && OnTimeline((t + n) / 1440)
                 && (forall u | t <= u < t + n :: SameStatus(ex, t, u))
                 && (!SameStatus(ex, t, t + n) <==> !ClosesDuringLunch(ex.hours, ScheduleOf(ex, day), minute)))
  {
    hide StatusAt, StatusOn, ScheduleOf, Boundaries, NextTrading, NextOf, Trading;
    var h, s := ex.hours, ScheduleOf(ex, day);
    var t := day * MINUTES + minute;
    TradingIs(ex, day);
    ScheduleIsOk(ex, day);
    NextOfIs(Boundaries(h, s), minute);
    var best := if s.fullHoliday then -1 else NextOf(Boundaries(h, s), minute);
    if best >= 0 {
      LaterToday(ex, day, minute, best);
    } else {
      NextTradingIs(ex, day, 1, LOOK_AHEAD);
      NotDuringLunch(h, s, minute);
      match NextTrading(ex, day, 1, LOOK_AHEAD) {
        case None =>
        case Some(step) => LaterDay(ex, day, minute, step);
      }
    }
  }

  /** The case exists on every weekday: lunch from 12:00 to 13:00, an early close at 12:30.
      At 12:10 the answer is 20 minutes, and the status then is the same. */
  lemma EarlyCloseInLunch(day: int)
    requires OnTimeline(day) && OnTimeline(day + LOOK_AHEAD) && Weekday(day) != 0 && Weekday(day) != 6
    ensures var date := DateText(day);
            var ex := Exchange(Hours(570, 960, None, Some(Span(720, 780)), None),
                               map[date := Holiday(date, false, 750)], "");
            var t := day * MINUTES + 730;
            && WellOrdered(ex) && ClosesDuringLunch(ex.hours, ScheduleOf(ex, day), 730)
            && MinutesUntilChange(ex, day, 730) == 20 && SameStatus(ex, t, t + 20)
  {
    hide DateText;
    var date := DateText(day);
    var ex := Exchange(Hours(570, 960, None, Some(Span(720, 780)), None), map[date := Holiday(date, false, 750)], "");
    var s := ScheduleOf(ex, day);
    assert s == DaySchedule(false, 750, 750);
    AllBoundaries(ex.hours, s);
    NextOfIs(Boundaries(ex.hours, s), 730);
    forall b | b in Boundaries(ex.hours, s)
      ensures b <= 730 || b >= 750
    {
      BoundaryCases(ex.hours, s, b);
    }
    hide ScheduleOf, Boundaries, NextOf;
    assert NextOf(Boundaries(ex.hours, s), 730) == 750;
    MinutesUntilChangeIsLeast(ex, day, 730);
    TradingIs(ex, day);
  }

  lemma LaterToday(ex: Exchange, day: int, minute: int, best: int)
    requires WellOrdered(ex) && OnTimeline(day) && 0 <= minute < MINUTES && Trading(ex, day)
    requires best == NextOf(Boundaries(ex.hours, ScheduleOf(ex, day)), minute) && best >= 0
    ensures var t := day * MINUTES + minute;
            && best > minute && OnTimeline((t + (best - minute)) / MINUTES)
            && (forall u | t <= u < t + (best - minute) :: SameStatus(ex, t, u))
            && (!SameStatus(ex, t, t + (best - minute)) <==> !ClosesDuringLunch(ex.hours, ScheduleOf(ex, day), minute))
  {
    hide StatusAt, StatusOn, ScheduleOf, Boundaries, NextOf, Trading;
    var t := day * MINUTES + minute;
    ChangeToday(ex, day, minute, best);
    StatusAtTime(ex, day, minute);
    StatusAtTime(ex, day, best);
    assert t + (best - minute) == day * MINUTES + best;
    forall u | t <= u < t + (best - minute)
      ensures SameStatus(ex, t, u)
    {
      StatusAtTime(ex, day, u - day * MINUTES);
    }
  }

  lemma LaterDay(ex: Exchange, day: int, minute: int, step: nat)
    requires WellOrdered(ex) && OnTimeline(day) && OnTimeline(day + step) && 0 <= minute < MINUTES && step > 0
    requires Trading(ex, day) ==> NextOf(Boundaries(ex.hours, ScheduleOf(ex, day)), minute) < 0
    requires forall e | day + 1 <= e < day + step :: !Trading(ex, e)
    requires Trading(ex, day + step)
    ensures var t := day * MINUTES + minute;
            var n := MINUTES - minute + (step - 1) * MINUTES + FirstBoundary(ex.hours);
            && n > 0 && OnTimeline((t + n) / MINUTES)
            && (forall u | t <= u < t + n :: SameStatus(ex, t, u))
            && !SameStatus(ex, t, t + n)
  {
    hide StatusOn, ScheduleOf, Boundaries, NextOf, Trading;
    var t := day * MINUTES + minute;
    var end := (day + step) * MINUTES + FirstBoundary(ex.hours);
    assert end == t + (MINUTES - minute + (step - 1) * MINUTES + FirstBoundary(ex.hours));
    QuietEvening(ex, day, minute);
    ScheduleIsOk(ex, day);
    forall u | t <= u <= end
      ensures OnTimeline(u / MINUTES) && (StatusAt(ex, u) == Closed <==> u < end)
    {
      DayOfTime(u, day, minute, day + step, FirstBoundary(ex.hours));
      ClosedUntil(ex, day, minute, step, u / MINUTES, u % MINUTES);
    }
  }

  lemma NotDuringLunch(h: Hours, s: DaySchedule, minute: int)
    requires minute >= 0
    requires s.fullHoliday || NextOf(Boundaries(h, s), minute) < 0
    ensures !ClosesDuringLunch(h, s, minute)
  {
    if !s.fullHoliday {
      NextOfIs(Boundaries(h, s), minute);
      AllBoundaries(h, s);
    }
  }

  /** No boundary is left today and the look-ahead finds no trading day. */
  ghost predicate NothingAhead(ex: Exchange, day: int, minute: int)
    requires OnTimeline(day) && OnTimeline(day + LOOK_AHEAD)
  {
    && (Trading(ex, day) ==> forall b | b in Boundaries(ex.hours, ScheduleOf(ex, day)) :: b <= minute)
    && forall d | day + 1 <= d <= day + 30 :: !Trading(ex, d)
  }

  // -------------------------------------------------------------- next boundary

  predicate IsTarget(ex: Exchange, wantOpen: bool, m: Moment)
    requires OnTimeline(m.day)
  {
    Trading(ex, m.day) && m.minute == Target(ex, wantOpen, m.day)
  }

  /** Once past the generation range, always past it. */
  lemma PastRangeStays(ex: Exchange, day: int, later: int)
    requires OnTimeline(day) && OnTimeline(later) && day <= later && PastRange(ex, day)
    ensures PastRange(ex, later)
  {
    if day < later {
      DateIsPrintable(day);
      DateIsPrintable(later);
      DayNumberOfDate(day);
      DayNumberOfDate(later);
      FormatOrder(DateOf(day), DateOf(later));
      LessTransitive(ex.rangeEnd, DateText(day), DateText(later));
    }
  }

  /** From a step on, the search returns the earliest boundary later than now within
      the window and the generation range, and nothing only when there is none. */
  lemma {:induction false} NextBoundaryFrom(ex: Exchange, wantOpen: bool, now: Moment, step: nat, m: Moment)
    requires OnTimeline(now.day) && OnTimeline(now.day + SEARCH_DAYS)
    requires now.day + step <= m.day <= now.day + SEARCH_DAYS
    requires IsTarget(ex, wantOpen, m) && Before(now, m) && !PastRange(ex, m.day)
    ensures var r := NextBoundary(ex, wantOpen, now, step);
            r.Some? && (r.value == m || Before(r.value, m))
    decreases SEARCH_DAYS + 1 - step
  {
    hide Trading, Target, PastRange;
    var day := now.day + step;
    if PastRange(ex, day) {
      PastRangeStays(ex, day, m.day);
    } else if !Trading(ex, day) || (step == 0 && Target(ex, wantOpen, day) <= now.minute) {
      NextBoundaryFrom(ex, wantOpen, now, step + 1, m);
    }
  }

  lemma {:induction false} NextBoundaryFound(ex: Exchange, wantOpen: bool, now: Moment, step: nat)
    requires OnTimeline(now.day) && OnTimeline(now.day + SEARCH_DAYS)
    ensures var r := NextBoundary(ex, wantOpen, now, step);
            r.Some? ==>
              && now.day + step <= r.value.day <= now.day + SEARCH_DAYS
              && IsTarget(ex, wantOpen, r.value) && Before(now, r.value) && !PastRange(ex, r.value.day)
    decreases SEARCH_DAYS + 1 - step
  {
    hide Trading, Target, PastRange;
    if step <= SEARCH_DAYS {
      var day := now.day + step;
      if !PastRange(ex, day) && (!Trading(ex, day) || (step == 0 && Target(ex, wantOpen, day) <= now.minute)) {
        NextBoundaryFound(ex, wantOpen, now, step + 1);
      }
    }
  }

  /** calendar_next_open_time and calendar_next_close_time: the earliest open, or
      close, strictly later than now; 0 only when none lies within 400 days and the
      generation range. */
  lemma NextBoundaryIsEarliest(ex: Exchange, wantOpen: bool, now: Moment, m: Moment)
    requires OnTimeline(now.day) && OnTimeline(now.day + SEARCH_DAYS)
    requires now.day <= m.day <= now.day + 400
    ensures var r := NextBoundary(ex, wantOpen, now, 0);
            && (r.Some? ==> now.day <= r.value.day <= now.day + 400 && Before(now, r.value)
                            && IsTarget(ex, wantOpen, r.value) && !PastRange(ex, r.value.day))
            && (IsTarget(ex, wantOpen, m) && Before(now, m) && !PastRange(ex, m.day) ==>
                r.Some? && (r.value == m || Before(r.value, m)))
  {
    hide NextBoundary, IsTarget, PastRange;
    NextBoundaryFound(ex, wantOpen, now, 0);
    if IsTarget(ex, wantOpen, m) && Before(now, m) && !PastRange(ex, m.day) {
      NextBoundaryFrom(ex, wantOpen, now, 0, m);
    }
  }
}
