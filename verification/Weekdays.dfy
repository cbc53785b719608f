/** The weekday of a civil date, counted on from a known one and by Zeller's congruence,
    the days on which an exchange trades, and its status in each minute. */
module Weekdays {
  import opened Text
  import opened CivilDate
  import opened Calendar
  import opened CalendarProofs

  function WeekdayOf(t: Date): (w: int)
    requires Valid(t)
    ensures 0 <= w < 7
  {
    Weekday(DayNumber(t))
  }

  /** 2000-01-01 was a Saturday. */
  lemma Anchor()
    ensures Valid(Date(2000, 1, 1)) && WeekdayOf(Date(2000, 1, 1)) == 6
  {}

  /** The day after a date has the next weekday. */
  lemma NextWeekday(t: Date)
    requires Valid(t)
    ensures WeekdayOf(NextDay(t)) == (WeekdayOf(t) + 1) % 7
  {
    NextDayNumber(t);
    hide DayNumber;
    OneMore(DayNumber(t) + 4);
  }

  lemma OneMore(a: int)
    ensures (a + 1) % 7 == (a % 7 + 1) % 7
  {}

  // ---------------------------------------------------------- Zeller's congruence

  /** January and February count as months 13 and 14 of the year before; the result of the
      congruence starts at Saturday, this one at Sunday. */
  function Zeller(t: Date): int
    requires Valid(t)
  {
    var y, m := if t.m <= 2 then t.y - 1 else t.y, if t.m <= 2 then t.m + 12 else t.m;
    (t.d + 13 * (m + 1) / 5 + y + y / 4 - y / 100 + y / 400 + 6) % 7
  }

  /** Leap days up to the end of a year, counted from a fixed one. */
  function LeapDays(y: int): int {
    y / 4 - y / 100 + y / 400
  }

  lemma YearTerms(y: int)
    ensures YearStart(y) == 365 * (y - 1970) + LeapDays(y - 1) - 477
  {
    var p := y - 1;
    Shift4(p, 492);
    Shift100(p, 19);
    Shift400(p, 4);
    assert y - 1900 - 69 == p - 4 * 492 && y - 1900 - 1 == p - 100 * 19 && y - 1900 + 299 == p - 400 * 4;
  }

  lemma Shift4(p: int, k: int)
    ensures (p - 4 * k) / 4 == p / 4 - k
  {}

  lemma Shift100(p: int, k: int)
    ensures (p - 100 * k) / 100 == p / 100 - k
  {}

  lemma Shift400(p: int, k: int)
    ensures (p - 400 * k) / 400 == p / 400 - k
  {}

  /** The days before each month, from January on. */
  lemma MonthTerms(y: int, m: int)
    requires 1 <= m <= 12
    ensures DaysBefore(y, m) ==
            [0, 31, 59, 90, 120, 151, 181, 212, 243, 273, 304, 334][m - 1] + if m > 2 && Leap(y) then 1 else 0
  {
    assert DaysBefore(y, 3) == 31 + MonthLength(y, 2);
    if m > 3 {
      assert DaysBefore(y, 5) == DaysBefore(y, 3) + 31 + 30;
      assert DaysBefore(y, 8) == DaysBefore(y, 5) + 31 + 30 + 31;
      assert DaysBefore(y, 10) == DaysBefore(y, 8) + 31 + 30;
    }
  }

  /** The weekday by day numbers is the weekday by the congruence, in every year. */
  lemma WeekdayIsZeller(t: Date)
    requires Valid(t)
    ensures WeekdayOf(t) == Zeller(t)
  {
    var y, m := t.y, t.m;
    YearTerms(y);
    YearTerms(y + 1);
    YearStep(y);
    MonthTerms(y, m);
    var shifted := if m <= 2 then y - 1 else y;
    var month := 13 * ((if m <= 2 then m + 12 else m) + 1) / 5;
    assert Zeller(t) == (t.d + month + shifted + LeapDays(shifted) + 6) % 7;
    var k := 52 * y + [-102795, -102791, -102783, -102779, -102775, -102771,
                       -102767, -102763, -102759, -102755, -102751, -102747][m - 1];
    hide YearStart, DaysBefore, Leap, LeapDays;
    assert WeekdayOf(t) == (DayNumber(t) + 4) % 7;
    SameMod7(DayNumber(t) + 4, t.d + month + shifted + LeapDays(shifted) + 6, k);
  }

  lemma SameMod7(a: int, b: int, k: int)
    requires a == b + 7 * k
    ensures a % 7 == b % 7
  {}

  // ---------------------------------------------------------------- trading days

  predicate IsWorkday(t: Date)
    requires Valid(t)
  {
    Zeller(t) in {1, 2, 3, 4, 5}
  }

  /** An exchange trades exactly on the days from Monday to Friday that its table does not
      close. */
  lemma TradesIff(ex: Exchange, day: int)
    requires OnTimeline(day)
    ensures Trading(ex, day) <==>
            IsWorkday(DateOf(day)) && !(DateText(day) in ex.holidays && ex.holidays[DateText(day)].closed)
  {
    WeekdayIsZeller(DateOf(day));
    DayNumberOfDate(day);
    hide DateText, DateOf, Zeller, DayNumber;
  }

  /** On such a day the session ends at its own early close, where the table has one. */
  lemma ClosesAt(ex: Exchange, day: int)
    requires OnTimeline(day) && Trading(ex, day)
    ensures var early := DateText(day) in ex.holidays && ex.holidays[DateText(day)].early >= 0;
            && ScheduleOf(ex, day).close == (if early then ex.holidays[DateText(day)].early else ex.hours.close)
            && (ScheduleOf(ex, day).early >= 0 <==> early)
  {
    hide DateText;
  }

  // ------------------------------------------------------------------ the status

  predicate In(span: Option<Span>, minute: int) {
    span.Some? && span.value.open <= minute && minute < span.value.close
  }

  /** The early close of a day, if its table has one. */
  function EarlyCloseOf(ex: Exchange, day: int): Option<int>
    requires OnTimeline(day)
  {
    if DateText(day) in ex.holidays && ex.holidays[DateText(day)].early >= 0
    then Some(ex.holidays[DateText(day)].early) else None
  }

  /** Each status, by the hours of the exchange and the entry of the day: regular hours are
      open, or closing early, up to the close of the day and outside lunch. */
  lemma StatusIs(ex: Exchange, day: int, minute: int)
    requires WellOrdered(ex) && OnTimeline(day)
    ensures var h, early := ex.hours, EarlyCloseOf(ex, day);
            var status := StatusOn(h, ScheduleOf(ex, day), minute);
            var trades := Trading(ex, day);
            var regular := h.open <= minute && minute < (if early.Some? then early.value else h.close);
            && (status == Pre <==> trades && In(h.pre, minute))
            && (status == LunchBreak <==> trades && In(h.lunch, minute))
            && (status == Open <==> trades && regular && !In(h.lunch, minute) && early.None?)
            && (status == EarlyClose <==> trades && regular && !In(h.lunch, minute) && early.Some?)
            && (status == AfterHours <==> trades && In(h.after, minute))
  {
    ScheduleIsOk(ex, day);
    if Trading(ex, day) {
      ClosesAt(ex, day);
    }
    hide DateText;
  }
}
