/** Dates of messages: mail_longdate, mail_cdate and mail_shortdate (Gregorian calendar). */
module Calendar {
  const BASEYEAR: nat := 1970

  /** The date fields of a message; year counts from BASEYEAR, and a month or day of zero is not set. */
  datatype Stamp = Stamp(year: nat, month: nat, day: nat, hours: nat, minutes: nat, seconds: nat,
                         zoccident: bool, zhours: nat, zminutes: nat)

  // ----- counting days -----

  predicate LeapYear(y: nat) {
    y % 4 == 0 && (y % 100 != 0 || y % 400 == 0)
  }

  function YearLength(y: nat): nat {
    if LeapYear(y) then 366 else 365
  }

  function MonthLength(y: nat, m: nat): nat {
    if m == 2 then if LeapYear(y) then 29 else 28
    else if m == 4 || m == 6 || m == 9 || m == 11 then 30
    else 31
  }

  /** The days of the years from BASEYEAR on, up to the given offset. */
  function DaysOfYears(year: nat): nat {
    if year == 0 then 0 else DaysOfYears(year - 1) + YearLength(BASEYEAR + year - 1)
  }

  /** The days of the months of a year before month m. */
  function DaysOfMonths(y: nat, m: nat): nat {
    if m <= 1 then 0 else DaysOfMonths(y, m - 1) + MonthLength(y, m - 1)
  }

  /** The days before a date. */
  function DayNumber(year: nat, month: nat, day: nat): nat
    requires day > 0
  {
    DaysOfYears(year) + DaysOfMonths(BASEYEAR + year, month) + (day - 1)
  }

  predicate ValidDate(year: nat, month: nat, day: nat) {
    1 <= month <= 12 && 1 <= day <= MonthLength(BASEYEAR + year, month)
  }

  function MonthOf(e: Stamp): nat {
    if e.month != 0 then e.month else 1
  }

  function DayOf(e: Stamp): (d: nat)
    ensures d > 0
  {
    if e.day != 0 then e.day else 1
  }

  // ----- mail_longdate -----

  /** The closed form of the day count. */
  function LongDays(e: Stamp): int {
    var m := if e.month != 0 then e.month else 1;
    var yr := e.year + BASEYEAR;
    (if e.day != 0 then e.day - 1 else 0)
    + 30 * (m - 1) + (m + if m > 8 then 1 else 0) / 2
    + (yr / 400 - BASEYEAR / 400) - (yr / 100 - BASEYEAR / 100)
    - (if m < 3 then if yr % 4 == 0 && (yr % 100 != 0 || yr % 400 == 0) then 1 else 0 else 2)
    + e.year * 365 + (e.year + BASEYEAR % 4) / 4
  }

  /** The leap days up to and including a year. */
  function Leaps(y: nat): int {
    y / 4 - y / 100 + y / 400
  }

  lemma {:induction false} LeapsStep(y: nat)
    ensures Leaps(y + 1) == Leaps(y) + if LeapYear(y + 1) then 1 else 0
  {
    DivStep(y, 4);
    DivStep(y, 100);
    DivStep(y, 400);
    Centuries(y + 1);
  }

  lemma Centuries(y: nat)
    ensures y % 100 == 0 ==> y % 4 == 0
    ensures y % 400 == 0 ==> y % 100 == 0
  {
    if y % 100 == 0 {
      assert y == 4 * (25 * (y / 100));
    }
    if y % 400 == 0 {
      assert y == 100 * (4 * (y / 400));
    }
  }

  lemma DivStep(y: nat, k: nat)
    requires k == 4 || k == 100 || k == 400
    ensures (y + 1) / k == y / k + if (y + 1) % k == 0 then 1 else 0
  {
    assert y == k * (y / k) + y % k;
  }

  lemma {:induction false} YearsClosed(year: nat)
    ensures DaysOfYears(year) == 365 * year + Leaps(BASEYEAR + year) - Leaps(BASEYEAR)
                                 - if LeapYear(BASEYEAR + year) then 1 else 0
  {
    if year > 0 {
      YearsClosed(year - 1);
      LeapsStep(BASEYEAR + year - 1);
    }
  }

  /** The closed form counts the days, month by month and year by year. */
  lemma {:induction false} LongDaysCount(e: Stamp)
    requires e.month <= 12
    ensures LongDays(e) == DayNumber(e.year, MonthOf(e), DayOf(e))
  {
    var (yr, m) := (BASEYEAR + e.year, MonthOf(e));
    YearsClosed(e.year);
    MonthsClosed(yr, m);
    assert (e.year + BASEYEAR % 4) / 4 == yr / 4 - 492;
  }

  lemma {:induction false} MonthsClosed(y: nat, m: nat)
    requires 1 <= m <= 12
    ensures DaysOfMonths(y, m) == 30 * (m - 1) + (m + if m > 8 then 1 else 0) / 2
                                  + if m < 3 then 0 else if LeapYear(y) then -1 else -2
  {
    if m > 1 {
      MonthsClosed(y, m - 1);
    }
  }

  /** Seconds since the beginning of BASEYEAR, in universal time; zero for the hours an oriental zone puts
      before it. */
  function LongDate(e: Stamp): int {
    var minutes := (LongDays(e) * 24 + e.hours) * 60 + e.minutes;
    var zone := e.zhours * 60 + e.zminutes;
    if e.zoccident then (minutes + zone) * 60 + e.seconds
    else if minutes < zone then 0
    else (minutes - zone) * 60 + e.seconds
  }

  /** The instant a stamp stands for. */
  function Instant(e: Stamp): int {
    var zone := e.zhours * 3600 + e.zminutes * 60;
    DayNumber(e.year, MonthOf(e), DayOf(e)) * 86400 + e.hours * 3600 + e.minutes * 60 + e.seconds
    + if e.zoccident then zone else -zone
  }

  /** mail_longdate is that instant, unless it lies before the beginning of time; second 60 is the first of the
      next minute. */
  lemma LongDateIsInstant(e: Stamp)
    requires e.month <= 12 && e.seconds <= 60
    ensures LongDate(e) == if Instant(e) < 0 then 0 else Instant(e)
  {
    LongDaysCount(e);
  }

  // ----- mail_cdate -----

  /** The weekday mail_cdate prints, Sunday being zero. */
  function CdateWeekday(e: Stamp): int {
    var d := if e.day != 0 then e.day else 1;
    var m0 := if e.month != 0 then e.month - 1 else 0;
    var y0 := e.year + BASEYEAR;
    var m := if m0 < 2 then m0 + 10 else m0 - 2;
    var y := if m0 < 2 then y0 - 1 else y0;
    (d + 2 + (7 + 31 * m) / 12 + y / 400 - y / 100 + y + y / 4) % 7
  }

  /** The number whose remainder is the weekday: March is the first month of a year. */
  function CdateSum(yr: nat, m: nat, d: nat): int
    requires 1 <= m <= 12 && yr > 0
  {
    if m < 3 then d + 2 + (7 + 31 * (m + 9)) / 12 + Leaps(yr - 1) + yr - 1
    else d + 2 + (7 + 31 * (m - 3)) / 12 + Leaps(yr) + yr
  }

  lemma CdateIsSum(e: Stamp)
    requires e.month <= 12
    ensures CdateWeekday(e) == CdateSum(BASEYEAR + e.year, MonthOf(e), DayOf(e)) % 7
  {
  }

  lemma {:induction false} SumFollowsCount(year: nat, m: nat, d: nat) returns (weeks: int)
    requires 1 <= m <= 12 && d > 0
    ensures CdateSum(BASEYEAR + year, m, d) == DayNumber(year, m, d) + 4 + 7 * weeks
  {
    hide DaysOfYears, DaysOfMonths, LeapYear, Leaps;
    var yr := BASEYEAR + year;
    YearsClosed(year);
    MonthsClosed(yr, m);
    LeapsStep(yr - 1);
    LeapsAtBase();
    var months := MonthPart(m);
    weeks := months - 52 * year;
  }

  lemma LeapsAtBase()
    ensures Leaps(BASEYEAR) == 477
  {
  }

  /** The weekday follows the day count: BASEYEAR began on a Thursday. */
  lemma {:induction false} WeekdayFollowsCount(e: Stamp)
    requires e.month <= 12
    ensures CdateWeekday(e) == (DayNumber(e.year, MonthOf(e), DayOf(e)) + 4) % 7
  {
    hide CdateWeekday, CdateSum, DayNumber;
    CdateIsSum(e);
    var weeks := SumFollowsCount(e.year, MonthOf(e), DayOf(e));
    var (x, y) := (CdateSum(BASEYEAR + e.year, MonthOf(e), DayOf(e)), DayNumber(e.year, MonthOf(e), DayOf(e)) + 4);
    assert x % 7 == y % 7;
  }

  /** The two month formulas differ by whole weeks. */
  lemma MonthPart(m: nat) returns (weeks: int)
    requires 1 <= m <= 12
    ensures 7 * weeks == if m < 3 then 2445 + (7 + 31 * (m + 9)) / 12 - 30 * (m - 1) - m / 2
                         else 2448 + (7 + 31 * (m - 3)) / 12 - 30 * (m - 1) - (m + if m > 8 then 1 else 0) / 2
  {
    weeks := if m == 1 then 353 else if m == 2 then 349 else if m == 3 then 341 else if m == 4 then 337
             else if m == 5 then 333 else if m == 6 then 329 else if m == 7 then 325 else if m == 8 then 321
             else if m == 9 then 317 else if m == 10 then 313 else if m == 11 then 309 else 305;
  }

  // ----- mail_shortdate -----

  /** An unsigned short: year, month and day in 7, 4 and 5 bits. */
  function ShortDate(year: nat, month: nat, day: nat): nat {
    (year * 512 + month * 32 + day) % 65536
  }

  predicate Earlier(y1: nat, m1: nat, d1: nat, y2: nat, m2: nat, d2: nat) {
    y1 < y2 || (y1 == y2 && (m1 < m2 || (m1 == m2 && d1 < d2)))
  }

  lemma {:induction false} YearsGrow(y1: nat, y2: nat)
    requires y1 < y2
    ensures DaysOfYears(y1) + YearLength(BASEYEAR + y1) <= DaysOfYears(y2)
  {
    if y1 + 1 < y2 {
      YearsGrow(y1, y2 - 1);
    }
  }

  lemma {:induction false} MonthsGrow(y: nat, m1: nat, m2: nat)
    requires 1 <= m1 < m2
    ensures DaysOfMonths(y, m1) + MonthLength(y, m1) <= DaysOfMonths(y, m2)
  {
    if m1 + 1 < m2 {
      MonthsGrow(y, m1, m2 - 1);
    }
  }

  lemma {:induction false} WithinYear(y: nat, m: nat)
    requires 1 <= m <= 12
    ensures DaysOfMonths(y, m) + MonthLength(y, m) <= YearLength(y)
  {
    MonthsClosed(y, m);
  }

  lemma {:induction false} EarlierCounts(y1: nat, m1: nat, d1: nat, y2: nat, m2: nat, d2: nat)
    requires ValidDate(y1, m1, d1) && ValidDate(y2, m2, d2) && Earlier(y1, m1, d1, y2, m2, d2)
    ensures DayNumber(y1, m1, d1) < DayNumber(y2, m2, d2)
  {
    if y1 < y2 {
      YearsGrow(y1, y2);
      WithinYear(BASEYEAR + y1, m1);
    } else if m1 < m2 {
      MonthsGrow(BASEYEAR + y1, m1, m2);
    }
  }

  lemma ShortDateFits(year: nat, month: nat, day: nat)
    requires ValidDate(year, month, day) && year < 128
    ensures ShortDate(year, month, day) == year * 512 + month * 32 + day && month < 16 && day < 32
  {
  }

  /** The fields do not overlap. */
  lemma FieldsOrder(y1: nat, m1: nat, d1: nat, y2: nat, m2: nat, d2: nat)
    requires m1 < 16 && m2 < 16 && d1 < 32 && d2 < 32
    ensures y1 * 512 + m1 * 32 + d1 < y2 * 512 + m2 * 32 + d2 <==> Earlier(y1, m1, d1, y2, m2, d2)
  {
  }

  /** As long as the year fits its field, short dates order valid dates as the calendar does. */
  lemma {:induction false} ShortDateOrders(y1: nat, m1: nat, d1: nat, y2: nat, m2: nat, d2: nat)
    requires ValidDate(y1, m1, d1) && ValidDate(y2, m2, d2) && y1 < 128 && y2 < 128
    ensures ShortDate(y1, m1, d1) < ShortDate(y2, m2, d2) <==> DayNumber(y1, m1, d1) < DayNumber(y2, m2, d2)
    ensures ShortDate(y1, m1, d1) == ShortDate(y2, m2, d2) <==> (y1, m1, d1) == (y2, m2, d2)
  {
    hide DayNumber, ShortDate, ValidDate;
    ShortDateFits(y1, m1, d1);
    ShortDateFits(y2, m2, d2);
    FieldsOrder(y1, m1, d1, y2, m2, d2);
    FieldsOrder(y2, m2, d2, y1, m1, d1);
    if Earlier(y1, m1, d1, y2, m2, d2) {
      EarlierCounts(y1, m1, d1, y2, m2, d2);
    } else if Earlier(y2, m2, d2, y1, m1, d1) {
      EarlierCounts(y2, m2, d2, y1, m1, d1);
    }
  }

  /** Beyond its field the year is cut off: every date of the next 128 years gets the short date of its day
      128 years before. */
  lemma ShortDateWraps(year: nat, month: nat, day: nat)
    ensures ShortDate(year + 128, month, day) == ShortDate(year, month, day)
  {
  }

  /** Short dates order the valid dates of the first n years as the day count does. */
  ghost predicate OrdersBelow(n: nat) {
    forall y1: nat, m1: nat, d1: nat, y2: nat, m2: nat, d2: nat ::
      ValidDate(y1, m1, d1) && ValidDate(y2, m2, d2) && y1 < n && y2 < n ==>
      (ShortDate(y1, m1, d1) < ShortDate(y2, m2, d2) <==> DayNumber(y1, m1, d1) < DayNumber(y2, m2, d2))
  }

  /** The first of January 2000 counts before that of 2100, but has the later short date. */
  lemma ShortDateFails()
    ensures ValidDate(30, 1, 1) && ValidDate(130, 1, 1) && DayNumber(30, 1, 1) < DayNumber(130, 1, 1)
    ensures ShortDate(130, 1, 1) < ShortDate(30, 1, 1)
  {
    hide DayNumber;
    EarlierCounts(30, 1, 1, 130, 1, 1);
  }

  /** They do exactly as long as no year offset reaches 128. */
  lemma {:induction false} ShortDateOrdersExactly(n: nat)
    ensures OrdersBelow(n) <==> n <= 128
  {
    hide DayNumber;
    if n <= 128 {
      forall y1: nat, m1: nat, d1: nat, y2: nat, m2: nat, d2: nat |
        ValidDate(y1, m1, d1) && ValidDate(y2, m2, d2) && y1 < n && y2 < n
        ensures ShortDate(y1, m1, d1) < ShortDate(y2, m2, d2) <==> DayNumber(y1, m1, d1) < DayNumber(y2, m2, d2)
      {
        ShortDateOrders(y1, m1, d1, y2, m2, d2);
      }
    } else {
      EarlierCounts(0, 1, 1, 128, 1, 1);
      ShortDateWraps(0, 1, 1);
    }
  }
}
