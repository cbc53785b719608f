/** The loops of src/calendar.c: the holiday table with its merge, sort and binary
    search, and the queries over it. */
module CalendarCode {
  import opened Text
  import opened CivilDate
  import opened Calendar

  const CAPACITY: nat := 128

  /** One object of a holiday array, as extract_str fills the three buffers. */
  datatype RawHoliday = RawHoliday(date: string, status: string, earlyClose: string)

  /** parse_hhmm */
  function ParseHhmm(s: string): int {
    match ScanInt(s)
    case None => -1
    case Some((h, rest)) =>
      if rest == "" || rest[0] != ':' then -1
      else match ScanInt(rest[1..])
        case None => -1
        case Some((m, _)) => if h < 0 || h > 23 || m < 0 || m > 59 then -1 else h * 60 + m
  }

  /** A printed time is read as its minute of the day exactly when it is one. */
  lemma ParsesTime(h: int, m: int, rest: string)
    requires rest == "" || !IsDigit(rest[0])
    ensures ParseHhmm(Decimal(h) + (":" + (Decimal(m) + rest))) ==
            if 0 <= h < 24 && 0 <= m < 60 then 60 * h + m else -1
  {
    var after := ":" + (Decimal(m) + rest);
    ScanDecimal(h, after);
    assert after[0] == ':' && after[1..] == Decimal(m) + rest;
    ScanDecimal(m, rest);
    hide ScanInt, Decimal;
  }

  /** A number without a time behind it is none. */
  lemma ParsesNoTime(h: int, rest: string)
    requires rest == "" || (!IsDigit(rest[0]) && rest[0] != ':') || (rest[0] == ':' && ScanInt(rest[1..]).None?)
    ensures ParseHhmm(Decimal(h) + rest) == -1
  {
    ScanDecimal(h, rest);
    hide ScanInt, Decimal;
  }

  function ToHoliday(r: RawHoliday): Holiday {
    Holiday(r.date, r.status == "closed", if r.status == "early_close" then ParseHhmm(r.earlyClose) else -1)
  }

  /** An entry closes its day, ends it at a time, or does neither, as its status says. */
  lemma EntryMeans(date: string, status: string, h: nat, m: nat)
    requires h < 24 && m < 60
    ensures ToHoliday(RawHoliday(date, status, Decimal(h) + (":" + (Decimal(m) + "")))) ==
            if status == "closed" then Holiday(date, true, -1)
            else if status == "early_close" then Holiday(date, false, 60 * h + m)
            else Holiday(date, false, -1)
  {
    ParsesTime(h, m, "");
    hide ParseHhmm, Decimal;
  }

  /** The plain map a sequence of entries describes: the last entry for a date wins,
      and once the table is full only dates already in it are still updated. */
  function Merge(m: map<string, Holiday>, raws: seq<RawHoliday>): map<string, Holiday>
    decreases raws
  {
    if raws == [] then m else Merge(MergeOne(m, raws[0]), raws[1..])
  }

  function MergeOne(m: map<string, Holiday>, r: RawHoliday): map<string, Holiday> {
    if r.date == "" || (r.date !in m && |m| >= CAPACITY) then m else m[r.date := ToHoliday(r)]
  }

  /** The last entry for a date, if any. */
  function LastFor(raws: seq<RawHoliday>, date: string): Option<Holiday> {
    if raws == [] then None
    else if raws[|raws| - 1].date == date then Some(ToHoliday(raws[|raws| - 1]))
    else LastFor(raws[..|raws| - 1], date)
  }

  function DatesOf(raws: seq<RawHoliday>): set<string> {
    set r | r in raws && r.date != "" :: r.date
  }

  function Lookup(m: map<string, Holiday>, date: string): Option<Holiday> {
    if date in m then Some(m[date]) else None
  }

  lemma {:induction false} MergeLast(m: map<string, Holiday>, raws: seq<RawHoliday>, r: RawHoliday)
    ensures Merge(m, raws + [r]) == MergeOne(Merge(m, raws), r)
    decreases raws
  {
    hide MergeOne;
    if raws == [] {
      assert (raws + [r])[1..] == [];
    } else {
      assert (raws + [r])[1..] == raws[1..] + [r];
      MergeLast(MergeOne(m, raws[0]), raws[1..], r);
    }
  }

  lemma DatesOfAppend(init: seq<RawHoliday>, r: RawHoliday)
    ensures DatesOf(init + [r]) == DatesOf(init) + (if r.date == "" then {} else {r.date})
  {
    var raws := init + [r];
    assert raws[|init|] == r;
    forall d | d in DatesOf(init)
      ensures d in DatesOf(raws)
    {
      var k :| 0 <= k < |init| && init[k].date == d;
      assert raws[k].date == d;
    }
  }

  /** Within capacity the loaded table is the map in which the last entry wins. */
  lemma {:induction false} LastEntryWins(raws: seq<RawHoliday>, date: string)
    requires |DatesOf(raws)| <= 128 && date != ""
    ensures Lookup(Merge(map[], raws), date) == LastFor(raws, date)
    ensures Merge(map[], raws).Keys == DatesOf(raws)
    decreases |raws|
  {
    hide ToHoliday;
    if raws == [] {
      assert DatesOf(raws) == {};
    } else {
      var init, r := raws[..|raws| - 1], raws[|raws| - 1];
      assert raws == init + [r];
      DatesOfAppend(init, r);
      hide DatesOf;
      SubsetSize(DatesOf(init), DatesOf(raws));
      LastEntryWins(init, date);
      MergeLast(map[], init, r);
      var m := Merge(map[], init);
      assert m.Keys == DatesOf(init);
      assert |m| == |m.Keys|;
      if r.date != "" && r.date !in m {
        assert DatesOf(raws) == m.Keys + {r.date};
      }
    }
  }

  lemma {:induction false} LastForConcat(a: seq<RawHoliday>, b: seq<RawHoliday>, date: string)
    ensures LastFor(a + b, date) == if LastFor(b, date).Some? then LastFor(b, date) else LastFor(a, date)
    decreases |b|
  {
    if b == [] {
      assert a + b == a;
    } else {
      var init := b[..|b| - 1];
      assert (a + b)[..|a + b| - 1] == a + init;
      LastForConcat(a, init, date);
    }
  }

  /** The reading in which explicit entries are authoritative and generated ones only fill
      gaps, with ad hoc closures over both. */
  function Authoritative(explicit: seq<RawHoliday>, generated: seq<RawHoliday>, adHoc: seq<RawHoliday>,
                         date: string): Option<Holiday> {
    if LastFor(adHoc, date).Some? then LastFor(adHoc, date)
    else if LastFor(explicit, date).Some? then LastFor(explicit, date)
    else LastFor(generated, date)
  }

  /** Within capacity a loaded exchange follows that reading for a date exactly when an ad
      hoc entry decides it, or it is not in both other arrays with different entries. */
  lemma ExplicitDecidesIff(explicit: seq<RawHoliday>, generated: seq<RawHoliday>, adHoc: seq<RawHoliday>,
                           date: string)
    requires |DatesOf(explicit + generated + adHoc)| <= CAPACITY && date != ""
    ensures Lookup(Merge(map[], explicit + generated + adHoc), date) == Authoritative(explicit, generated, adHoc, date)
            <==>
            || LastFor(adHoc, date).Some?
            || LastFor(explicit, date).None? || LastFor(generated, date).None?
            || LastFor(explicit, date) == LastFor(generated, date)
  {
    hide LastFor, Merge, DatesOf;
    LastEntryWins(explicit + generated + adHoc, date);
    LastForConcat(explicit + generated, adHoc, date);
    LastForConcat(explicit, generated, date);
  }

  /** A full holiday the registry states explicitly is loaded as the early close that was
      generated for it. */
  lemma GeneratedOverridesExplicit(date: string)
    requires date != ""
    ensures var closed := RawHoliday(date, "closed", "");
            var early := RawHoliday(date, "early_close", "13:00");
            && Lookup(Merge(map[], [closed] + [early] + []), date) == Some(ToHoliday(early))
            && Authoritative([closed], [early], [], date) == Some(Holiday(date, true, -1))
            && !ToHoliday(early).closed
  {
    hide ParseHhmm;
    var closed := RawHoliday(date, "closed", "");
    var early := RawHoliday(date, "early_close", "13:00");
    assert [closed] + [early] + [] == [] + [closed] + [early];
    MergeLast(map[], [], closed);
    MergeLast(map[], [] + [closed], early);
  }

  lemma SubsetSize<T>(a: set<T>, b: set<T>)
    requires a <= b
    ensures |a| <= |b|
  {
    assert b == a + (b - a);
  }

  // ------------------------------------------------------------------ the table

  predicate Distinct(es: seq<Holiday>) {
    forall i, j | 0 <= i < j < |es| :: es[i].date != es[j].date
  }

  predicate Sorted(es: seq<Holiday>) {
    forall i, j | 0 <= i < j < |es| :: Less(es[i].date, es[j].date)
  }

  /** The entries are the map's values, each under its own date, none twice. */
  ghost predicate Represents(es: seq<Holiday>, m: map<string, Holiday>) {
    Distinct(es) && |es| == |m| && AllIn(es, m) && AllListed(es, m)
  }

  ghost predicate AllIn(es: seq<Holiday>, m: map<string, Holiday>) {
    forall i | 0 <= i < |es| :: es[i].date in m && m[es[i].date] == es[i]
  }

  ghost predicate AllListed(es: seq<Holiday>, m: map<string, Holiday>) {
    forall d | d in m :: Listed(es, d)
  }

  ghost predicate Listed(es: seq<Holiday>, date: string) {
    exists i :: 0 <= i < |es| && es[i].date == date
  }

  class HolidayTable {
    var entries: seq<Holiday>
    ghost var contents: map<string, Holiday>

    ghost predicate Valid()
      reads this
    {
      |entries| <= CAPACITY && Represents(entries, contents)
    }

    constructor ()
      ensures Valid() && contents == map[]
    {
      entries, contents := [], map[];
    }

    /** parse_holiday_array, on the objects of the array */
    method ParseArray(raws: seq<RawHoliday>)
      requires Valid()
      modifies this
      ensures Valid() && contents == Merge(old(contents), raws)
    {
      hide ParseHhmm;
      var k := 0;
      while k < |raws|
        invariant k <= |raws| && Valid()
        invariant Merge(old(contents), raws) == Merge(contents, raws[k..])
      {
        assert raws[k..][0] == raws[k] && raws[k..][1..] == raws[k + 1..];
        if raws[k].date != "" {
          PutEntry(ToHoliday(raws[k]));
        }
        k := k + 1;
      }
    }

    /** One entry: found by linear search and overwritten, appended, or dropped. */
    method PutEntry(h: Holiday)
      requires Valid()
      modifies this
      ensures Valid()
      ensures contents == if h.date !in old(contents) && |old(contents)| >= CAPACITY then old(contents)
                          else old(contents)[h.date := h]
    {
      var i := 0;
      while i < |entries| && entries[i].date != h.date
        invariant i <= |entries|
        invariant forall j | 0 <= j < i :: entries[j].date != h.date
      {
        i := i + 1;
      }
      if i < |entries| {
        UpdateRepresents(entries, contents, i, h);
        entries := entries[i := h];
        contents := contents[h.date := h];
      } else {
        NotRepresented(entries, contents, h.date);
        if |entries| < CAPACITY {
          AppendRepresents(entries, contents, h);
          entries := entries + [h];
          contents := contents[h.date := h];
        }
      }
    }

    /** The qsort by date, as an insertion sort. */
    method SortByDate()
      requires Valid()
      modifies this
      ensures Valid() && contents == old(contents) && Sorted(entries)
    {
      var i := 0;
      while i < |entries|
        invariant i <= |entries| && Valid() && contents == old(contents)
        invariant Sorted(entries[..i])
      {
        var j := Position(entries, i);
        var moved := Moved(entries, i, j);
        MovedRepresents(entries, contents, i, j);
        MovedSorted(entries, i, j);
        entries := moved;
        i := i + 1;
      }
      assert entries[..i] == entries;
    }

    /** find_holiday */
    method Find(date: string) returns (r: Option<Holiday>)
      requires Valid() && Sorted(entries)
      ensures r == Lookup(contents, date)
    {
      var lo, hi := 0, |entries| - 1;
      while lo <= hi
        invariant 0 <= lo <= hi + 1 <= |entries|
        invariant forall i | 0 <= i < |entries| :: entries[i].date == date ==> lo <= i <= hi
      {
        var mid := lo + (hi - lo) / 2;
        if entries[mid].date == date {
          return Some(entries[mid]);
        }
        LessTotal(entries[mid].date, date);
        if Less(entries[mid].date, date) {
          forall i | 0 <= i <= mid
            ensures entries[i].date != date
          {
            LessTotal(date, date);
            if i < mid {
              LessTransitive(entries[i].date, entries[mid].date, date);
            }
          }
          lo := mid + 1;
        } else {
          forall i | mid <= i < |entries|
            ensures entries[i].date != date
          {
            LessTotal(date, date);
            if mid < i {
              LessTransitive(date, entries[mid].date, entries[i].date);
            }
          }
          hi := mid - 1;
        }
      }
      return None;
    }
  }

  lemma UpdateListed(es: seq<Holiday>, i: nat, h: Holiday, d: string)
    requires i < |es| && es[i].date == h.date && Listed(es, d)
    ensures Listed(es[i := h], d)
  {
    var k :| 0 <= k < |es| && es[k].date == d;
    assert es[i := h][k].date == d;
  }

  lemma UpdateAllIn(es: seq<Holiday>, m: map<string, Holiday>, i: nat, h: Holiday)
    requires AllIn(es, m) && Distinct(es) && i < |es| && es[i].date == h.date
    ensures AllIn(es[i := h], m[h.date := h]) && Distinct(es[i := h])
  {}

  lemma UpdateRepresents(es: seq<Holiday>, m: map<string, Holiday>, i: nat, h: Holiday)
    requires Represents(es, m) && i < |es| && es[i].date == h.date
    ensures Represents(es[i := h], m[h.date := h])
  {
    var m' := m[h.date := h];
    UpdateAllIn(es, m, i, h);
    assert h.date in m;
    assert m'.Keys == m.Keys;
    assert |m'| == |m'.Keys| == |m.Keys| == |m|;
    hide Distinct, AllIn;
    forall d | d in m'
      ensures Listed(es[i := h], d)
    {
      UpdateListed(es, i, h, d);
    }
  }

  lemma NotRepresented(es: seq<Holiday>, m: map<string, Holiday>, date: string)
    requires Represents(es, m) && forall i | 0 <= i < |es| :: es[i].date != date
    ensures date !in m
  {}

  lemma AppendDistinct(es: seq<Holiday>, m: map<string, Holiday>, h: Holiday)
    requires Distinct(es) && AllIn(es, m) && h.date !in m
    ensures Distinct(es + [h])
  {
    var es' := es + [h];
    forall i, j | 0 <= i < j < |es'|
      ensures es'[i].date != es'[j].date
    {
      assert es[i].date in m;
      if j < |es| {
        assert es[j].date in m;
      }
    }
  }

  lemma AppendAllIn(es: seq<Holiday>, m: map<string, Holiday>, h: Holiday)
    requires AllIn(es, m) && h.date !in m
    ensures AllIn(es + [h], m[h.date := h])
  {
    var es', m' := es + [h], m[h.date := h];
    forall i | 0 <= i < |es'|
      ensures es'[i].date in m' && m'[es'[i].date] == es'[i]
    {
      if i < |es| {
        assert es'[i] == es[i];
      }
    }
  }

  lemma AppendListed(es: seq<Holiday>, h: Holiday, d: string)
    requires d == h.date || Listed(es, d)
    ensures Listed(es + [h], d)
  {
    if d == h.date {
      assert (es + [h])[|es|].date == d;
    } else {
      var k :| 0 <= k < |es| && es[k].date == d;
      assert (es + [h])[k].date == d;
    }
  }

  lemma AppendRepresents(es: seq<Holiday>, m: map<string, Holiday>, h: Holiday)
    requires Represents(es, m) && h.date !in m
    ensures Represents(es + [h], m[h.date := h])
  {
    var m' := m[h.date := h];
    hide Distinct, AllIn, Listed;
    AppendDistinct(es, m, h);
    AppendAllIn(es, m, h);
    assert m'.Keys == m.Keys + {h.date};
    assert |m'| == |m'.Keys| == |m.Keys| + 1 == |m| + 1;
    forall d | d in m'
      ensures Listed(es + [h], d)
    {
      AppendListed(es, h, d);
    }
  }

  /** Where the i-th entry belongs among the sorted ones before it. */
  function Position(es: seq<Holiday>, i: nat): (j: nat)
    requires i < |es|
    ensures j <= i
  {
    PositionFrom(es, i, i)
  }

  function PositionFrom(es: seq<Holiday>, i: nat, j: nat): (p: nat)
    requires j <= i < |es|
    ensures p <= j
    ensures p > 0 ==> !Less(es[i].date, es[p - 1].date)
    ensures forall k | p <= k < j :: Less(es[i].date, es[k].date)
  {
    if j > 0 && Less(es[i].date, es[j - 1].date) then PositionFrom(es, i, j - 1) else j
  }

  function Moved(es: seq<Holiday>, i: nat, j: nat): (r: seq<Holiday>)
    requires j <= i < |es|
    ensures |r| == |es|
  {
    es[..j] + [es[i]] + es[j..i] + es[i + 1..]
  }

  /** Where an entry of the moved table was before. */
  function Source(i: nat, j: nat, k: nat): nat {
    if k < j || k > i then k else if k == j then i else k - 1
  }

  lemma MovedAt(es: seq<Holiday>, i: nat, j: nat, k: nat)
    requires j <= i < |es| && k < |es|
    ensures Source(i, j, k) < |es| && Moved(es, i, j)[k] == es[Source(i, j, k)]
  {}

  lemma MovedDistinct(es: seq<Holiday>, i: nat, j: nat)
    requires Distinct(es) && j <= i < |es|
    ensures Distinct(Moved(es, i, j))
  {
    var r := Moved(es, i, j);
    forall a, b | 0 <= a < b < |r|
      ensures r[a].date != r[b].date
    {
      MovedAt(es, i, j, a);
      MovedAt(es, i, j, b);
      var sa, sb := Source(i, j, a), Source(i, j, b);
      hide Moved;
      if sa < sb {
        assert es[sa].date != es[sb].date;
      } else {
        assert es[sb].date != es[sa].date;
      }
    }
  }

  lemma MovedAllIn(es: seq<Holiday>, m: map<string, Holiday>, i: nat, j: nat)
    requires AllIn(es, m) && j <= i < |es|
    ensures AllIn(Moved(es, i, j), m)
  {
    hide Moved;
    var r := Moved(es, i, j);
    forall k | 0 <= k < |r|
      ensures r[k].date in m && m[r[k].date] == r[k]
    {
      MovedAt(es, i, j, k);
    }
  }

  lemma MovedListed(es: seq<Holiday>, i: nat, j: nat, d: string)
    requires j <= i < |es| && Listed(es, d)
    ensures Listed(Moved(es, i, j), d)
  {
    hide Moved;
    var k :| 0 <= k < |es| && es[k].date == d;
    var k' := if k == i then j else if j <= k < i then k + 1 else k;
    MovedAt(es, i, j, k');
    assert Source(i, j, k') == k;
  }

  lemma MovedRepresents(es: seq<Holiday>, m: map<string, Holiday>, i: nat, j: nat)
    requires Represents(es, m) && j <= i < |es|
    ensures Represents(Moved(es, i, j), m)
  {
    hide Moved, Distinct, AllIn, Listed;
    MovedDistinct(es, i, j);
    MovedAllIn(es, m, i, j);
    forall d | d in m
      ensures Listed(Moved(es, i, j), d)
    {
      MovedListed(es, i, j, d);
    }
  }

  lemma MovedSorted(es: seq<Holiday>, i: nat, j: nat)
    requires i < |es| && Distinct(es) && Sorted(es[..i]) && j == Position(es, i)
    ensures Sorted(Moved(es, i, j)[..i + 1])
  {
    var r := Moved(es, i, j);
    forall a, b | 0 <= a < b < i + 1
      ensures Less(r[a].date, r[b].date)
    {
      MovedAt(es, i, j, a);
      MovedAt(es, i, j, b);
      var sa, sb := Source(i, j, a), Source(i, j, b);
      if sa != i && sb != i {
        assert es[..i][sa] == es[sa] && es[..i][sb] == es[sb];
      } else if sb == i {
        LessTotal(es[j - 1].date, es[i].date);
        if a < j - 1 {
          assert es[..i][a] == es[a] && es[..i][j - 1] == es[j - 1];
          LessTransitive(es[a].date, es[j - 1].date, es[i].date);
        }
      }
    }
  }

  // ---------------------------------------------------------------- the queries

  /** An exchange with its sorted holiday table. */
  class LoadedExchange {
    const hours: Hours
    const table: HolidayTable
    const rangeEnd: string

    ghost predicate Valid()
      reads this, table
    {
      table.Valid() && Sorted(table.entries)
    }

    ghost function Model(): Exchange
      reads this, table
    {
      Exchange(hours, table.contents, rangeEnd)
    }

    /** load_one_exchange, from the holiday arrays on */
    constructor (hours: Hours, rangeEnd: string, explicit: seq<RawHoliday>, generated: seq<RawHoliday>,
                 adHoc: seq<RawHoliday>)
      ensures Valid() && fresh(table)
      ensures Model() == Exchange(hours, Merge(map[], explicit + generated + adHoc), rangeEnd)
    {
      this.hours, this.rangeEnd := hours, rangeEnd;
      var t := new HolidayTable();
      t.ParseArray(explicit);
      t.ParseArray(generated);
      t.ParseArray(adHoc);
      MergeConcat(map[], explicit, generated);
      MergeConcat(map[], explicit + generated, adHoc);
      t.SortByDate();
      this.table := t;
    }

    method ComputeDaySchedule(date: Date) returns (sched: DaySchedule)
      requires Valid() && CivilDate.Valid(date) && OnTimeline(DayNumber(date))
      ensures sched == ScheduleOf(Model(), DayNumber(date))
    {
      var day := DayNumber(date);
      DateIsPrintable(day);
      DateOfDayNumber(date);
      hide DateOf, DayNumber, FormatDate;
      var wd := Weekday(day);
      var full := wd == 0 || wd == 6;
      var early := -1;
      if !full {
        var h := table.Find(FormatDate(date));
        if h.Some? {
          if h.value.closed {
            full := true;
          } else if h.value.early >= 0 {
            early := h.value.early;
          }
        }
      }
      sched := DaySchedule(full, early, if early >= 0 then early else hours.close);
    }

    /** calendar_minutes_until_change, at a local date and minute */
    method MinutesUntil(date: Date, minute: int) returns (r: int)
      requires Valid() && CivilDate.Valid(date)
      requires OnTimeline(DayNumber(date)) && OnTimeline(DayNumber(date) + LOOK_AHEAD)
      ensures r == MinutesUntilChange(Model(), DayNumber(date), minute)
    {
      hide DayNumber, DateOf, ScheduleOf, NextTrading, Boundaries;
      ghost var day := DayNumber(date);
      var sched := ComputeDaySchedule(date);
      if !sched.fullHoliday {
        var best := LeastAfter(Boundaries(hours, sched), minute);
        if best >= 0 {
          return best - minute;
        }
      }
      var d := date;
      var step := 1;
      while step <= LOOK_AHEAD
        invariant 1 <= step <= LOOK_AHEAD + 1
        invariant CivilDate.Valid(d) && DayNumber(d) == day + step - 1
        invariant NextTrading(Model(), day, 1, LOOK_AHEAD) == NextTrading(Model(), day, step, LOOK_AHEAD)
      {
        AddDaysNumber(d, 1);
        d := AddDays(d, 1);
        var next := ComputeDaySchedule(d);
        NextTradingStep(Model(), day, step, LOOK_AHEAD);
        if !next.fullHoliday {
          return MINUTES - minute + (step - 1) * MINUTES + FirstBoundary(hours);
        }
        step := step + 1;
      }
      NextTradingEnd(Model(), day, step, LOOK_AHEAD);
      return -1;
    }

    /** The scan of today's boundaries. */
    method LeastAfter(boundaries: seq<int>, minute: int) returns (best: int)
      ensures best == NextOf(boundaries, minute)
    {
      best := -1;
      var i := 0;
      while i < |boundaries|
        invariant i <= |boundaries|
        invariant best == NextOf(boundaries[..i], minute)
      {
        assert boundaries[..i + 1][..i] == boundaries[..i];
        if boundaries[i] > minute && (best < 0 || boundaries[i] < best) {
          best := boundaries[i];
        }
        i := i + 1;
      }
      assert boundaries[..i] == boundaries;
    }

    /** find_next_boundary, on the local timeline */
    method FindNextBoundary(date: Date, minute: int, wantOpen: bool) returns (r: Option<Moment>)
      requires Valid() && CivilDate.Valid(date)
      requires OnTimeline(DayNumber(date)) && OnTimeline(DayNumber(date) + SEARCH_DAYS)
      ensures r == NextBoundary(Model(), wantOpen, Moment(DayNumber(date), minute), 0)
    {
      hide DayNumber, DateOf, ScheduleOf, NextBoundary, FormatDate, Less;
      ghost var now := Moment(DayNumber(date), minute);
      var step := 0;
      while step <= SEARCH_DAYS
        invariant 0 <= step <= SEARCH_DAYS + 1
        invariant NextBoundary(Model(), wantOpen, now, 0) == NextBoundary(Model(), wantOpen, now, step)
      {
        var d := date;
        if step > 0 {
          AddDaysNumber(date, step);
          d := AddDays(date, step);
        }
        assert DayNumber(d) == now.day + step;
        NextBoundaryStep(Model(), wantOpen, now, step);
        DateIsPrintable(DayNumber(d));
        DateOfDayNumber(d);
        if rangeEnd != "" && Less(rangeEnd, FormatDate(d)) {
          return None;
        }
        var sched := ComputeDaySchedule(d);
        var target := if wantOpen then hours.open else sched.close;
        if !sched.fullHoliday && !(step == 0 && target <= minute) {
          return Some(Moment(DayNumber(d), target));
        }
        step := step + 1;
      }
      NextBoundaryEnd(Model(), wantOpen, now, step);
      return None;
    }
  }

  lemma {:induction false} MergeConcat(m: map<string, Holiday>, a: seq<RawHoliday>, b: seq<RawHoliday>)
    ensures Merge(m, a + b) == Merge(Merge(m, a), b)
    decreases a
  {
    hide MergeOne;
    if a == [] {
      assert a + b == b;
    } else {
      assert (a + b)[1..] == a[1..] + b;
      MergeConcat(MergeOne(m, a[0]), a[1..], b);
    }
  }

  lemma NextTradingStep(ex: Exchange, day: int, step: nat, last: nat)
    requires OnTimeline(day) && OnTimeline(day + last) && step <= last
    ensures NextTrading(ex, day, step, last) ==
            if !ScheduleOf(ex, day + step).fullHoliday then Some(step) else NextTrading(ex, day, step + 1, last)
  {}

  lemma NextTradingEnd(ex: Exchange, day: int, step: nat, last: nat)
    requires OnTimeline(day) && OnTimeline(day + last) && step > last
    ensures NextTrading(ex, day, step, last) == None
  {}

  lemma NextBoundaryStep(ex: Exchange, wantOpen: bool, now: Moment, step: nat)
    requires OnTimeline(now.day) && OnTimeline(now.day + SEARCH_DAYS) && step <= SEARCH_DAYS
    ensures var day := now.day + step;
            var sched := ScheduleOf(ex, day);
            var target := if wantOpen then ex.hours.open else sched.close;
            NextBoundary(ex, wantOpen, now, step) ==
            if ex.rangeEnd != "" && Less(ex.rangeEnd, DateText(day)) then None
            else if !sched.fullHoliday && !(step == 0 && target <= now.minute) then Some(Moment(day, target))
            else NextBoundary(ex, wantOpen, now, step + 1)
  {
    hide ScheduleOf, DateText, Less;
  }

  lemma NextBoundaryEnd(ex: Exchange, wantOpen: bool, now: Moment, step: nat)
    requires OnTimeline(now.day) && OnTimeline(now.day + SEARCH_DAYS) && step > SEARCH_DAYS
    ensures NextBoundary(ex, wantOpen, now, step) == None
  {}
}
