/** The exchange calendar of src/calendar.c: the status at each minute of a local
    timeline of days and minutes, and what the forward-looking queries should say. */
module Calendar {
  import opened Text
  import opened CivilDate

  const MINUTES: int := 1440
  const LOOK_AHEAD: nat := 30
  const SEARCH_DAYS: nat := 400
  /** 9999-12-31: beyond it formatted dates no longer have ten characters. */
  const LAST_DAY: int := 2932896

  datatype Status = Closed | Pre | LunchBreak | Open | EarlyClose | AfterHours
  datatype Span = Span(open: int, close: int)

  /** A holiday table entry; early is -1 unless the day closes early. */
  datatype Holiday = Holiday(date: string, closed: bool, early: int)

  datatype Hours = Hours(open: int, close: int, pre: Option<Span>, lunch: Option<Span>, after: Option<Span>)

  datatype Exchange = Exchange(hours: Hours, holidays: map<string, Holiday>, rangeEnd: string)

  datatype DaySchedule = DaySchedule(fullHoliday: bool, early: int, close: int)

  predicate OnTimeline(day: int) {
    0 <= day <= LAST_DAY
  }

  lemma DateIsPrintable(day: int)
    requires OnTimeline(day)
    ensures Printable(DateOf(day))
  {
    var t := DateOf(day);
    DayNumberOfDate(day);
    DayNumberOfDate(0);
    LastDayNumber();
    if Earlier(t, Date(1970, 1, 1)) {
      EarlierIsBefore(t, Date(1970, 1, 1));
    }
    if Earlier(Date(9999, 12, 31), t) {
      EarlierIsBefore(Date(9999, 12, 31), t);
    }
  }

  lemma LastDayNumber()
    ensures DayNumber(Date(9999, 12, 31)) == LAST_DAY
  {
    DaysInYear(9999);
  }

  function DateText(day: int): string
    requires OnTimeline(day)
  {
    DateIsPrintable(day);
    FormatDate(DateOf(day))
  }

  /** compute_day_schedule */
  function ScheduleOf(ex: Exchange, day: int): DaySchedule
    requires OnTimeline(day)
  {
    var weekend := Weekday(day) == 0 || Weekday(day) == 6;
    var date := DateText(day);
    if !weekend && date in ex.holidays then
      var h := ex.holidays[date];
      if h.closed then DaySchedule(true, -1, ex.hours.close)
      else if h.early >= 0 then DaySchedule(false, h.early, h.early)
      else DaySchedule(false, -1, ex.hours.close)
    else DaySchedule(weekend, -1, ex.hours.close)
  }

  predicate Within(span: Option<Span>, minute: int) {
    span.Some? && span.value.open <= minute < span.value.close
  }

  function StatusOn(hours: Hours, sched: DaySchedule, minute: int): Status {
    if sched.fullHoliday then Closed
    else if Within(hours.pre, minute) then Pre
    else if Within(hours.lunch, minute) then LunchBreak
    else if hours.open <= minute < sched.close then if sched.early >= 0 then EarlyClose else Open
    else if Within(hours.after, minute) then AfterHours
    else Closed
  }

  /** calendar_status at an absolute minute of the local timeline. */
  function StatusAt(ex: Exchange, t: int): Status
    requires OnTimeline(t / MINUTES)
  {
    StatusOn(ex.hours, ScheduleOf(ex, t / MINUTES), t % MINUTES)
  }

  predicate Trading(ex: Exchange, day: int)
    requires OnTimeline(day)
  {
    !ScheduleOf(ex, day).fullHoliday
  }

  // ----------------------------------------------------------- minutes to change

  /** The minutes at which a trading day's status may change. */
  function Boundaries(hours: Hours, sched: DaySchedule): seq<int> {
    Ends(hours.pre) + Ends(hours.lunch) + [hours.open, sched.close] + Ends(hours.after)
  }

  function Ends(span: Option<Span>): seq<int> {
    if span.Some? then [span.value.open, span.value.close] else []
  }

  /** The least boundary after a minute, or -1. */
  function NextOf(boundaries: seq<int>, minute: int): int {
    if boundaries == [] then -1
    else
      var b := boundaries[|boundaries| - 1];
      var best := NextOf(boundaries[..|boundaries| - 1], minute);
      if b > minute && (best < 0 || b < best) then b else best
  }

  lemma {:induction false} NextOfIs(boundaries: seq<int>, minute: int)
    requires minute >= 0
    ensures var best := NextOf(boundaries, minute);
            if best < 0 then best == -1 && forall b | b in boundaries :: b <= minute
            else best in boundaries && best > minute && forall b | b in boundaries :: b <= minute || best <= b
  {
    if boundaries != [] {
      var b, rest := boundaries[|boundaries| - 1], boundaries[..|boundaries| - 1];
      NextOfIs(rest, minute);
      assert forall x :: x in boundaries <==> x in rest || x == b;
    }
  }

  function FirstBoundary(hours: Hours): int {
    if hours.pre.Some? then hours.pre.value.open else hours.open
  }

  /** The first trading day among the days from `day` + step to `day` + last. */
  function NextTrading(ex: Exchange, day: int, step: nat, last: nat): Option<nat>
    requires OnTimeline(day) && OnTimeline(day + last)
    decreases last + 1 - step
  {
    if step > last then None
    else if Trading(ex, day + step) then Some(step)
    else NextTrading(ex, day, step + 1, last)
  }

  lemma {:induction false} NextTradingIs(ex: Exchange, day: int, step: nat, last: nat)
    requires OnTimeline(day) && OnTimeline(day + last)
    ensures match NextTrading(ex, day, step, last)
            case Some(k) => step <= k <= last && Trading(ex, day + k)
                            && forall d | day + step <= d < day + k :: !Trading(ex, d)
            case None => forall d | day + step <= d <= day + last :: !Trading(ex, d)
    decreases last + 1 - step
  {
    hide Trading;
    if step <= last && !Trading(ex, day + step) {
      NextTradingIs(ex, day, step + 1, last);
    }
  }

  /** calendar_minutes_until_change */
  function MinutesUntilChange(ex: Exchange, day: int, minute: int): int
    requires OnTimeline(day) && OnTimeline(day + LOOK_AHEAD)
  {
    var sched := ScheduleOf(ex, day);
    var best := if sched.fullHoliday then -1 else NextOf(Boundaries(ex.hours, sched), minute);
    if best >= 0 then best - minute
    else match NextTrading(ex, day, 1, LOOK_AHEAD)
      case None => -1
      case Some(step) => MINUTES - minute + (step - 1) * MINUTES + FirstBoundary(ex.hours)
  }

  // ------------------------------------------------------------- next boundary

  datatype Moment = Moment(day: int, minute: int)

  predicate Before(a: Moment, b: Moment) {
    a.day < b.day || (a.day == b.day && a.minute < b.minute)
  }

  predicate PastRange(ex: Exchange, day: int)
    requires OnTimeline(day)
  {
    ex.rangeEnd != "" && Less(ex.rangeEnd, DateText(day))
  }

  function Target(ex: Exchange, wantOpen: bool, day: int): int
    requires OnTimeline(day)
  {
    if wantOpen then ex.hours.open else ScheduleOf(ex, day).close
  }

  /** find_next_boundary from a step on; None stands for the returned 0. */
  function NextBoundary(ex: Exchange, wantOpen: bool, now: Moment, step: nat): Option<Moment>
    requires OnTimeline(now.day) && OnTimeline(now.day + SEARCH_DAYS)
    decreases SEARCH_DAYS + 1 - step
  {
    if step > SEARCH_DAYS then None
    else
      var day := now.day + step;
      if PastRange(ex, day) then None
      else if !Trading(ex, day) || (step == 0 && Target(ex, wantOpen, day) <= now.minute)
      then NextBoundary(ex, wantOpen, now, step + 1)
      else Some(Moment(day, Target(ex, wantOpen, day)))
  }
}
