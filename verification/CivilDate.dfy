/** Calendar dates as src/calendar.c uses them through timegm and gmtime_r: day
    numbers by the formula of section 4.16 of POSIX.1-2017, and "YYYY-MM-DD" text. */
module CivilDate {
  import opened Text

  datatype Date = Date(y: int, m: int, d: int)

  predicate Leap(y: int) {
    y % 4 == 0 && (y % 100 != 0 || y % 400 == 0)
  }

  function MonthLength(y: int, m: int): int {
    if m == 2 then if Leap(y) then 29 else 28
    else if m == 4 || m == 6 || m == 9 || m == 11 then 30 else 31
  }

  predicate Valid(t: Date) {
    1 <= t.m <= 12 && 1 <= t.d <= MonthLength(t.y, t.m)
  }

  /** tm_yday of the first of a month */
  function DaysBefore(y: int, m: int): int
    requires 1 <= m <= 12
    decreases m
  {
    if m == 1 then 0 else DaysBefore(y, m - 1) + MonthLength(y, m - 1)
  }

  /** The POSIX terms that depend on the year alone, with floor division. */
  function YearStart(y: int): int {
    var ty := y - 1900;
    (ty - 70) * 365 + (ty - 69) / 4 - (ty - 1) / 100 + (ty + 299) / 400
  }

  /** Days since 1970-01-01. A day of the month out of range carries over. */
  function DayNumber(t: Date): int
    requires 1 <= t.m <= 12
  {
    YearStart(t.y) + DaysBefore(t.y, t.m) + t.d - 1
  }

  /** 0 = Sunday; 1970-01-01 was a Thursday. */
  function Weekday(day: int): int {
    (day + 4) % 7
  }

  function NextDay(t: Date): (n: Date)
    requires Valid(t)
    ensures Valid(n)
  {
    if t.d < MonthLength(t.y, t.m) then t.(d := t.d + 1)
    else if t.m < 12 then Date(t.y, t.m + 1, 1)
    else Date(t.y + 1, 1, 1)
  }

  function PreviousDay(t: Date): (p: Date)
    requires Valid(t)
    ensures Valid(p)
  {
    if t.d > 1 then t.(d := t.d - 1)
    else if t.m > 1 then Date(t.y, t.m - 1, MonthLength(t.y, t.m - 1))
    else Date(t.y - 1, 12, 31)
  }

  /** The date of a day number (gmtime_r), by counting from the epoch. */
  function DateOf(day: int): (t: Date)
    ensures Valid(t)
    decreases if day < 0 then -day else day
  {
    if day == 0 then Date(1970, 1, 1)
    else if day > 0 then NextDay(DateOf(day - 1))
    else PreviousDay(DateOf(day + 1))
  }

  /** add_days: timegm of the shifted day of the month, back through gmtime_r. */
  function AddDays(t: Date, days: int): (r: Date)
    requires Valid(t)
    ensures Valid(r)
  {
    DateOf(DayNumber(t.(d := t.d + days)))
  }

  lemma YearStep(y: int)
    ensures YearStart(y + 1) == YearStart(y) + 365 + (if Leap(y) then 1 else 0)
  {
    var ty := y - 1900;
    Fours(ty - 69);
    Hundreds(ty - 1);
    FourHundreds(ty + 299);
    LeapByRemainders(y);
  }

  lemma Fours(a: int)
    ensures (a + 1) / 4 == a / 4 + (if (a + 1) % 4 == 0 then 1 else 0)
  {}

  lemma Hundreds(a: int)
    ensures (a + 1) / 100 == a / 100 + (if (a + 1) % 100 == 0 then 1 else 0)
  {}

  lemma FourHundreds(a: int)
    ensures (a + 1) / 400 == a / 400 + (if (a + 1) % 400 == 0 then 1 else 0)
  {}

  lemma LeapByRemainders(y: int)
    ensures (y - 1968) % 4 == y % 4 && (y - 1900) % 100 == y % 100 && (y - 1600) % 400 == y % 400
    ensures y % 400 == 0 ==> y % 100 == 0
    ensures y % 100 == 0 ==> y % 4 == 0
  {
    Remainder4(y, 492);
    Remainder100(y, 19);
    Remainder400(y, 4);
    Multiple400(y);
    Multiple100(y);
  }

  lemma Remainder4(y: int, k: int)
    ensures (y - 4 * k) % 4 == y % 4
  {}

  lemma Remainder100(y: int, k: int)
    ensures (y - 100 * k) % 100 == y % 100
  {}

  lemma Remainder400(y: int, k: int)
    ensures (y - 400 * k) % 400 == y % 400
  {}

  lemma Multiple400(y: int)
    ensures y % 400 == 0 ==> y % 100 == 0
  {
    Remainder100(y, 4 * (y / 400));
  }

  lemma Multiple100(y: int)
    ensures y % 100 == 0 ==> y % 4 == 0
  {
    Remainder4(y, 25 * (y / 100));
  }

  lemma DaysInYear(y: int)
    ensures DaysBefore(y, 12) + 31 == 365 + (if Leap(y) then 1 else 0)
  {
    assert DaysBefore(y, 4) == 31 + MonthLength(y, 2) + 31;
    assert DaysBefore(y, 8) == DaysBefore(y, 4) + 30 + 31 + 30 + 31;
    assert DaysBefore(y, 12) == DaysBefore(y, 8) + 31 + 30 + 31 + 30;
  }

  lemma NextDayNumber(t: Date)
    requires Valid(t)
    ensures DayNumber(NextDay(t)) == DayNumber(t) + 1
  {
    if t.d == MonthLength(t.y, t.m) && t.m == 12 {
      YearStep(t.y);
      DaysInYear(t.y);
    }
  }

  lemma NextOfPrevious(t: Date)
    requires Valid(t)
    ensures NextDay(PreviousDay(t)) == t
  {}

  /** The date of a day number has that day number. */
  lemma {:induction false} DayNumberOfDate(day: int)
    ensures DayNumber(DateOf(day)) == day
    decreases if day < 0 then -day else day
  {
    if day > 0 {
      DayNumberOfDate(day - 1);
      NextDayNumber(DateOf(day - 1));
    } else if day < 0 {
      DayNumberOfDate(day + 1);
      NextOfPrevious(DateOf(day + 1));
      NextDayNumber(PreviousDay(DateOf(day + 1)));
    } else {
      assert YearStart(1970) == 0;
    }
  }

  // ----------------------------------------------------------- order of dates

  predicate Earlier(a: Date, b: Date) {
    a.y < b.y || (a.y == b.y && (a.m < b.m || (a.m == b.m && a.d < b.d)))
  }

  lemma {:induction false} MonthsAdd(y: int, m: int, n: int)
    requires 1 <= m < n <= 12
    ensures DaysBefore(y, n) >= DaysBefore(y, m) + MonthLength(y, m)
    decreases n
  {
    if m < n - 1 {
      MonthsAdd(y, m, n - 1);
    }
  }

  lemma {:induction false} YearsAdd(y: int, z: int)
    requires y < z
    ensures YearStart(z) >= YearStart(y) + 365 + (if Leap(y) then 1 else 0)
    decreases z - y
  {
    if y < z - 1 {
      YearsAdd(y, z - 1);
    }
    YearStep(z - 1);
    YearStep(y);
  }

  /** Calendar order is the order of day numbers. */
  lemma EarlierIsBefore(a: Date, b: Date)
    requires Valid(a) && Valid(b) && Earlier(a, b)
    ensures DayNumber(a) < DayNumber(b)
  {
    if a.y < b.y {
      YearsAdd(a.y, b.y);
      DaysInYear(a.y);
      if a.m < 12 {
        MonthsAdd(a.y, a.m, 12);
      }
      MonthsPositive(b.y, b.m);
    } else if a.m < b.m {
      MonthsAdd(a.y, a.m, b.m);
    }
  }

  lemma {:induction false} MonthsPositive(y: int, m: int)
    requires 1 <= m <= 12
    ensures DaysBefore(y, m) >= 0
    decreases m
  {
    if m > 1 {
      MonthsPositive(y, m - 1);
    }
  }

  /** Dates and day numbers correspond one to one. */
  lemma DateOfDayNumber(t: Date)
    requires Valid(t)
    ensures DateOf(DayNumber(t)) == t
  {
    var u := DateOf(DayNumber(t));
    DayNumberOfDate(DayNumber(t));
    if Earlier(t, u) {
      EarlierIsBefore(t, u);
    }
    if Earlier(u, t) {
      EarlierIsBefore(u, t);
    }
  }

  function Iterate(t: Date, n: nat): Date
    requires Valid(t)
    decreases n
  {
    if n == 0 then t else Iterate(AddDays(t, 1), n - 1)
  }

  lemma AddDaysNumber(t: Date, days: int)
    requires Valid(t)
    ensures DayNumber(AddDays(t, days)) == DayNumber(t) + days
  {
    DayNumberOfDate(DayNumber(t) + days);
  }

  /** Stepping one day n times is adding n days. */
  lemma {:induction false} AddDaysSteps(t: Date, n: nat)
    requires Valid(t)
    ensures Iterate(t, n) == AddDays(t, n)
    decreases n
  {
    hide AddDays, DateOf;
    if n == 0 {
      AddNoDays(t);
    } else {
      AddDaysSteps(AddDays(t, 1), n - 1);
      AddDaysTwice(t, n - 1);
    }
  }

  lemma AddNoDays(t: Date)
    requires Valid(t)
    ensures AddDays(t, 0) == t
  {
    DateOfDayNumber(t);
  }

  lemma AddDaysTwice(t: Date, n: int)
    requires Valid(t)
    ensures AddDays(AddDays(t, 1), n) == AddDays(t, n + 1)
  {
    AddDaysNumber(t, 1);
    ShiftNumber(AddDays(t, 1), n);
    ShiftNumber(t, n + 1);
  }

  lemma ShiftNumber(t: Date, n: int)
    requires 1 <= t.m <= 12
    ensures DayNumber(t.(d := t.d + n)) == DayNumber(t) + n
  {}

  // -------------------------------------------------------------------- text

  /** strcmp(a, b) < 0 */
  predicate Less(a: string, b: string) {
    b != "" && (a == "" || a[0] < b[0] || (a[0] == b[0] && Less(a[1..], b[1..])))
  }

  lemma {:induction false} LessTotal(a: string, b: string)
    ensures a == b || Less(a, b) || Less(b, a)
    ensures !(Less(a, b) && Less(b, a)) && !Less(a, a)
  {
    if a != "" && b != "" {
      LessTotal(a[1..], b[1..]);
      assert a[0] == b[0] && a[1..] == b[1..] ==> a == [a[0]] + a[1..] == b;
    }
    if a != "" {
      LessTotal(a[1..], a[1..]);
    }
  }

  lemma {:induction false} LessTransitive(a: string, b: string, c: string)
    requires Less(a, b) && Less(b, c)
    ensures Less(a, c)
  {
    if a != "" && a[0] == b[0] == c[0] {
      LessTransitive(a[1..], b[1..], c[1..]);
    }
  }

  /** printf "%0<width>d" of a number that fits. */
  function Fixed(n: nat, width: nat): (s: string)
    ensures |s| == width
    decreases width
  {
    if width == 0 then "" else Fixed(n / 10, width - 1) + [Digit(n % 10)]
  }

  predicate Printable(t: Date) {
    Valid(t) && 0 <= t.y <= 9999
  }

  function FormatDate(t: Date): string
    requires Printable(t)
  {
    Fixed(t.y, 4) + ("-" + (Fixed(t.m, 2) + ("-" + (Fixed(t.d, 2) + ""))))
  }

  lemma DigitOrder(a: nat, b: nat)
    requires a < 10 && b < 10
    ensures (Digit(a) < Digit(b) <==> a < b) && (Digit(a) == Digit(b) <==> a == b)
  {}

  function Pow10(n: nat): nat {
    if n == 0 then 1 else 10 * Pow10(n - 1)
  }

  lemma {:induction false} FixedOrder(a: nat, b: nat, width: nat, x: string, y: string)
    requires a < Pow10(width) && b < Pow10(width)
    ensures Less(Fixed(a, width) + x, Fixed(b, width) + y) <==> a < b || (a == b && Less(x, y))
    decreases width
  {
    if width == 0 {
      assert Fixed(a, 0) + x == x && Fixed(b, 0) + y == y;
    } else {
      var da, db := Digit(a % 10), Digit(b % 10);
      FixedOrder(a / 10, b / 10, width - 1, [da] + x, [db] + y);
      assert Fixed(a, width) + x == Fixed(a / 10, width - 1) + ([da] + x);
      assert Fixed(b, width) + y == Fixed(b / 10, width - 1) + ([db] + y);
      assert ([da] + x)[1..] == x && ([db] + y)[1..] == y;
      DigitOrder(a % 10, b % 10);
    }
  }

  lemma DashOrder(x: string, y: string)
    ensures Less("-" + x, "-" + y) <==> Less(x, y)
  {
    assert ("-" + x)[1..] == x && ("-" + y)[1..] == y;
  }

  lemma FormatLess(a: Date, b: Date)
    requires Printable(a) && Printable(b)
    ensures Less(FormatDate(a), FormatDate(b)) <==> Earlier(a, b)
  {
    assert Pow10(4) == 10000 && Pow10(2) == 100;
    hide Less, Fixed, Pow10;
    var da, db := Fixed(a.d, 2) + "", Fixed(b.d, 2) + "";
    FixedOrder(a.d, b.d, 2, "", "");
    LessTotal("", "");
    DashOrder(da, db);
    FixedOrder(a.m, b.m, 2, "-" + da, "-" + db);
    DashOrder(Fixed(a.m, 2) + ("-" + da), Fixed(b.m, 2) + ("-" + db));
    FixedOrder(a.y, b.y, 4, "-" + (Fixed(a.m, 2) + ("-" + da)), "-" + (Fixed(b.m, 2) + ("-" + db)));
  }

  /** String order of formatted dates is calendar order. */
  lemma FormatOrder(a: Date, b: Date)
    requires Printable(a) && Printable(b)
    ensures Less(FormatDate(a), FormatDate(b)) <==> Earlier(a, b)
    ensures Earlier(a, b) <==> DayNumber(a) < DayNumber(b)
    ensures FormatDate(a) == FormatDate(b) <==> a == b
  {
    FormatLess(a, b);
    FormatLess(b, a);
    LessTotal(FormatDate(a), FormatDate(a));
    if Earlier(a, b) {
      EarlierIsBefore(a, b);
    }
    if Earlier(b, a) {
      EarlierIsBefore(b, a);
    }
  }
}
