/** The day-number to date conversion behind cron matching, checked against the
    Gregorian calendar written down independently of it. */
module Calendar {

  datatype Date = Date(year: int, month: int, day: int)

  // ---------------------------------------------------------------- the calendar

  predicate IsLeap(year: int) {
    year % 4 == 0 && (year % 100 != 0 || year % 400 == 0)
  }

  function DaysInMonth(year: int, month: int): int
    requires 1 <= month <= 12
  {
    if month == 2 then (if IsLeap(year) then 29 else 28)
    else if month == 4 || month == 6 || month == 9 || month == 11 then 30
    else 31
  }

  predicate ValidDate(d: Date) {
    1 <= d.month <= 12 && 1 <= d.day <= DaysInMonth(d.year, d.month)
  }

  /** The next calendar day, by carrying from day to month to year. */
  function NextDay(d: Date): Date
    requires ValidDate(d)
  {
    if d.day < DaysInMonth(d.year, d.month) then d.(day := d.day + 1)
    else if d.month < 12 then Date(d.year, d.month + 1, 1)
    else Date(d.year + 1, 1, 1)
  }

  /** Days from 1 January of year 0 to 1 January of `year`; `/` rounds down. */
  function DaysBeforeYear(year: int): int {
    365 * year + (year + 3) / 4 - (year + 99) / 100 + (year + 399) / 400
  }

  function DaysBeforeMonth(year: int, month: int): int
    requires 1 <= month <= 12
  {
    if month == 1 then 0 else DaysBeforeMonth(year, month - 1) + DaysInMonth(year, month - 1)
  }

  /** Day number of a date, counted from 1 March of year 0. */
  function DaysFromCivil(d: Date): int
    requires ValidDate(d)
  {
    DaysBeforeYear(d.year) + DaysBeforeMonth(d.year, d.month) + d.day - 1 - 60
  }

  // ---------------------------------------------------------------- the program

  /** Integer division as the program's language has it: toward zero. */
  function TruncDiv(a: int, b: int): int
    requires b > 0
  {
    if a >= 0 then a / b else -((-a) / b)
  }

  function CivilFromDays(z: int): Date {
    var era := TruncDiv(if z >= 0 then z else z - 146_096, 146_097);
    DateInEra(era, z - era * 146_097)
  }

  /** The date of day `doe` of a 400-year era. */
  function DateInEra(era: int, doe: int): Date {
    var yoe := YearOfEra(doe);
    MarchDate(yoe + era * 400, doe - (365 * yoe + TruncDiv(yoe, 4) - TruncDiv(yoe, 100)))
  }

  /** The date of day `doy` of the year that began on 1 March of `y`. */
  function MarchDate(y: int, doy: int): Date {
    var mp := TruncDiv(5 * doy + 2, 153);
    var d := doy - TruncDiv(153 * mp + 2, 5) + 1;
    var m := if mp < 10 then mp + 3 else mp - 9;
    Date(if m <= 2 then y + 1 else y, m, d)
  }

  function YearOfEra(doe: int): int {
    TruncDiv(doe - TruncDiv(doe, 1460) + TruncDiv(doe, 36_524) - TruncDiv(doe, 146_096), 365)
  }

  /** First day of the March-based year `yoe` of an era. */
  function EraYearStart(yoe: int): int {
    365 * yoe + yoe / 4 - yoe / 100
  }

  lemma EraIsFloor(z: int)
    ensures TruncDiv(if z >= 0 then z else z - 146_096, 146_097) == z / 146_097
  {
    if z < 0 {
      var q := (146_096 - z) / 146_097;
      assert 146_097 * q <= 146_096 - z < 146_097 * (q + 1);
      assert z / 146_097 == -q;
    }
  }

  // A day of an era as century `c`, four-year cycle `f` and day `s` of that cycle.
  lemma YearOfEraInCentury(c: int, f: int, s: int)
    requires 0 <= c <= 3 && 0 <= f <= 24 && 0 <= s < 1461
    requires 1461 * f + s < 36_524 || (c == 3 && f == 24 && s == 1460)
    ensures YearOfEra(36_524 * c + 1461 * f + s) == 100 * c + 4 * f + (if s == 1460 then 3 else s / 365)
  {
    var doe := 36_524 * c + 1461 * f + s;
    var g := (24 * c + 1461 * f + s) / 1460;
    assert doe / 1460 == 25 * c + g;
    var delta := if f + s + 24 * c >= 1460 then 1 else 0;
    assert g == f + delta;
    if doe == 146_096 {
    } else {
      assert doe / 36_524 == c && doe / 146_096 == 0;
      assert doe - doe / 1460 + c == 365 * (100 * c + 4 * f) + s - delta;
    }
  }

  lemma EraYearStartInCentury(c: int, f: int, t: int)
    requires 0 <= f && 0 <= t < 4 && 4 * f + t < 100
    ensures EraYearStart(100 * c + 4 * f + t) == 36_524 * c + 1461 * f + 365 * t
  {
    assert (100 * c + 4 * f + t) / 4 == 25 * c + f;
    assert (100 * c + 4 * f + t) / 100 == c;
  }

  lemma YearOfEraBrackets(doe: int)
    requires 0 <= doe < 146_097
    ensures 0 <= YearOfEra(doe) < 400
    ensures EraYearStart(YearOfEra(doe)) <= doe
    ensures doe < EraYearStart(YearOfEra(doe) + 1) || (YearOfEra(doe) == 399 && doe == 146_096)
  {
    var c := if doe == 146_096 then 3 else doe / 36_524;
    var r := doe - 36_524 * c;
    var f := r / 1461;
    var s := r - 1461 * f;
    YearOfEraInCentury(c, f, s);
    var t := if s == 1460 then 3 else s / 365;
    EraYearStartInCentury(c, f, t);
    if t < 3 {
      EraYearStartInCentury(c, f, t + 1);
    } else if f < 24 {
      EraYearStartInCentury(c, f + 1, 0);
    } else {
      EraYearStartInCentury(c + 1, 0, 0);
    }
  }

  // ---------------------------------------------------------------- agreement

  lemma DaysBeforeMonthStep(year: int, month: int)
    requires 1 < month <= 12
    ensures DaysBeforeMonth(year, month) == DaysBeforeMonth(year, month - 1) + DaysInMonth(year, month - 1)
  {
  }

  lemma DaysBeforeMonthTable(year: int)
    ensures DaysBeforeMonth(year, 1) == 0
    ensures DaysBeforeMonth(year, 2) == 31
    ensures var march := if IsLeap(year) then 60 else 59;
      && DaysBeforeMonth(year, 3) == march
      && DaysBeforeMonth(year, 4) == march + 31
      && DaysBeforeMonth(year, 5) == march + 61
      && DaysBeforeMonth(year, 6) == march + 92
      && DaysBeforeMonth(year, 7) == march + 122
      && DaysBeforeMonth(year, 8) == march + 153
      && DaysBeforeMonth(year, 9) == march + 184
      && DaysBeforeMonth(year, 10) == march + 214
      && DaysBeforeMonth(year, 11) == march + 245
      && DaysBeforeMonth(year, 12) == march + 275
  {
    forall m | 1 < m <= 12
      ensures DaysBeforeMonth(year, m) == DaysBeforeMonth(year, m - 1) + DaysInMonth(year, m - 1)
    {
      DaysBeforeMonthStep(year, m);
    }
  }

  lemma DivModIs(a: int, k: int, q: int, r: int)
    requires k > 0 && a == k * q + r && 0 <= r < k
    ensures a / k == q && a % k == r
  {
    var p := a / k;
    assert k * p <= a < k * p + k;
    if p < q {
      ScaleMonotone(p + 1, q, k);
    } else if p > q {
      ScaleMonotone(q + 1, p, k);
    }
  }

  lemma ScaleMonotone(a: int, b: int, k: int)
    requires a <= b && k > 0
    ensures k * a <= k * b
  {
  }

  /** How many multiples of `k` lie in `[0, year)` changes by one exactly after a multiple. */
  lemma CeilStep(year: int, k: int)
    requires k > 0
    ensures (year + k) / k == (year + k - 1) / k + (if year % k == 0 then 1 else 0)
  {
    var q, r := year / k, year % k;
    DivModIs(year + k, k, q + 1, r);
    if r == 0 {
      DivModIs(year + k - 1, k, q, k - 1);
    } else {
      DivModIs(year + k - 1, k, q + 1, r - 1);
    }
  }

  lemma Multiples(year: int)
    ensures year % 400 == 0 ==> year % 100 == 0
    ensures year % 100 == 0 ==> year % 4 == 0
  {
    var q := year / 400;
    if year % 400 == 0 {
      DivModIs(year, 100, 4 * q, 0);
    }
    if year % 100 == 0 {
      DivModIs(year, 4, 25 * (year / 100), 0);
    }
  }

  lemma NextYear(year: int)
    ensures DaysBeforeYear(year + 1) == DaysBeforeYear(year) + (if IsLeap(year) then 366 else 365)
  {
    CeilStep(year, 4);
    CeilStep(year, 100);
    CeilStep(year, 400);
    Multiples(year);
    NextYearCount(year);
  }

  lemma NextYearCount(year: int)
    ensures DaysBeforeYear(year + 1)
         == 365 + 365 * year + (year + 4) / 4 - (year + 100) / 100 + (year + 400) / 400
  {
  }

  lemma YearInEra(era: int, yoe: int)
    ensures (400 * era + yoe) / 4 == 100 * era + yoe / 4
    ensures (400 * era + yoe) / 100 == 4 * era + yoe / 100
    ensures (400 * era + yoe) / 400 == era + yoe / 400
  {
  }

  /** 1 March of `400 * era + yoe`, seen from January and seen from the era. */
  lemma MarchFirst(era: int, yoe: int)
    requires 0 <= yoe < 400
    ensures DaysBeforeYear(400 * era + yoe) + (if IsLeap(400 * era + yoe) then 60 else 59) - 60
         == 146_097 * era + EraYearStart(yoe)
  {
    var y := 400 * era + yoe;
    NextYear(y);
    YearInEra(era, yoe);
    assert DaysBeforeYear(y + 1) == 365 * (y + 1) + (y + 4) / 4 - (y + 100) / 100 + (y + 400) / 400;
  }

  /** Day `doy` of a March-based year, as (months since March, day of that month). */
  lemma MonthOfMarchYear(year: int, doy: int, mp: int, d: int)
    requires 0 <= doy <= 365
    requires mp == (5 * doy + 2) / 153 && d == doy - (153 * mp + 2) / 5 + 1
    ensures 0 <= mp <= 11
    ensures 1 <= d
    ensures mp < 10 ==>
      d <= DaysInMonth(year, mp + 3)
      && DaysBeforeMonth(year, mp + 3) + d - 1 == (if IsLeap(year) then 60 else 59) + doy
    ensures mp == 10 ==> d <= 31 && doy == 306 + d - 1
    ensures mp == 11 ==> doy == 337 + d - 1
  {
    DaysBeforeMonthTable(year);
    assert mp == 0 || mp == 1 || mp == 2 || mp == 3 || mp == 4 || mp == 5
      || mp == 6 || mp == 7 || mp == 8 || mp == 9 || mp == 10 || mp == 11;
  }

  lemma LeapInEra(era: int, k: int)
    requires 0 <= k <= 400
    ensures IsLeap(400 * era + k) == IsLeap(k)
  {
    YearInEra(era, k);
  }

  lemma MarchYearLength(yoe: int)
    requires 0 <= yoe < 399
    ensures EraYearStart(yoe + 1) == EraYearStart(yoe) + (if IsLeap(yoe + 1) then 366 else 365)
  {
    CeilStep(yoe + 1 - 4, 4);
    CeilStep(yoe + 1 - 100, 100);
  }

  /** `doe` falls in its March-based year, which has a 366th day exactly when February is leap. */
  lemma DayOfMarchYear(doe: int)
    requires 0 <= doe < 146_097
    ensures var yoe := YearOfEra(doe);
      && 0 <= yoe < 400
      && 0 <= doe - EraYearStart(yoe) <= (if IsLeap(yoe + 1) then 365 else 364)
  {
    YearOfEraBrackets(doe);
    var yoe := YearOfEra(doe);
    if yoe < 399 {
      MarchYearLength(yoe);
    } else {
      assert EraYearStart(399) == 145_731;
    }
  }

  lemma MarchDateExact(y: int, doy: int)
    requires 0 <= doy <= (if IsLeap(y + 1) then 365 else 364)
    ensures ValidDate(MarchDate(y, doy))
    ensures DaysFromCivil(MarchDate(y, doy))
         == DaysBeforeYear(y) + (if IsLeap(y) then 60 else 59) + doy - 60
  {
    var mp := (5 * doy + 2) / 153;
    var d := doy - (153 * mp + 2) / 5 + 1;
    MonthOfMarchYear(y, doy, mp, d);
    if mp >= 10 {
      NextYear(y);
      DaysBeforeMonthTable(y + 1);
    }
  }

  lemma DateInEraExact(era: int, doe: int)
    requires 0 <= doe < 146_097
    ensures ValidDate(DateInEra(era, doe))
    ensures DaysFromCivil(DateInEra(era, doe)) == 146_097 * era + doe
  {
    var yoe, doy := DateInEraIs(era, doe);
    DayInEraExact(era, yoe, doy);
  }

  lemma DateInEraIs(era: int, doe: int) returns (yoe: int, doy: int)
    requires 0 <= doe < 146_097
    ensures 0 <= yoe < 400 && 0 <= doy <= (if IsLeap(yoe + 1) then 365 else 364)
    ensures EraYearStart(yoe) + doy == doe
    ensures DateInEra(era, doe) == MarchDate(400 * era + yoe, doy)
  {
    DayOfMarchYear(doe);
    yoe, doy := YearOfEra(doe), doe - EraYearStart(YearOfEra(doe));
  }

  lemma DayInEraExact(era: int, yoe: int, doy: int)
    requires 0 <= yoe < 400 && 0 <= doy <= (if IsLeap(yoe + 1) then 365 else 364)
    ensures ValidDate(MarchDate(400 * era + yoe, doy))
    ensures DaysFromCivil(MarchDate(400 * era + yoe, doy)) == 146_097 * era + EraYearStart(yoe) + doy
  {
    LeapInEra(era, yoe + 1);
    MarchDateExact(400 * era + yoe, doy);
    MarchFirst(era, yoe);
  }

  /** The date computed for any day number is a real date, and it is that day. */
  lemma CivilFromDaysExact(z: int)
    ensures ValidDate(CivilFromDays(z))
    ensures DaysFromCivil(CivilFromDays(z)) == z
  {
    EraIsFloor(z);
    var era := z / 146_097;
    DateInEraExact(era, z - era * 146_097);
  }

  lemma NextDayIsNextNumber(d: Date)
    requires ValidDate(d)
    ensures ValidDate(NextDay(d))
    ensures DaysFromCivil(NextDay(d)) == DaysFromCivil(d) + 1
  {
    NextYear(d.year);
    DaysBeforeMonthTable(d.year);
  }

  lemma {:induction false} YearsAscend(y1: int, y2: int)
    requires y1 < y2
    ensures DaysBeforeYear(y1) + (if IsLeap(y1) then 366 else 365) <= DaysBeforeYear(y2)
    decreases y2 - y1
  {
    NextYear(y1);
    if y1 + 1 < y2 {
      YearsAscend(y1 + 1, y2);
    }
  }

  /** Two dates with the same day number are the same date. */
  lemma DaysFromCivilInjective(a: Date, b: Date)
    requires ValidDate(a) && ValidDate(b) && DaysFromCivil(a) == DaysFromCivil(b)
    ensures a == b
  {
    DayOfYearBounds(a);
    DayOfYearBounds(b);
    if a.year < b.year {
      YearsAscend(a.year, b.year);
    } else if b.year < a.year {
      YearsAscend(b.year, a.year);
    } else {
      SameYearSameDate(a, b);
    }
  }

  lemma DayOfYearBounds(d: Date)
    requires ValidDate(d)
    ensures 0 <= DaysBeforeMonth(d.year, d.month) + d.day - 1 < (if IsLeap(d.year) then 366 else 365)
  {
    DaysBeforeMonthTable(d.year);
  }

  lemma SameYearSameDate(a: Date, b: Date)
    requires ValidDate(a) && ValidDate(b) && a.year == b.year
    requires DaysBeforeMonth(a.year, a.month) + a.day == DaysBeforeMonth(b.year, b.month) + b.day
    ensures a == b
  {
    DaysBeforeMonthTable(a.year);
  }

  /** The conversion and the calendar's own count are inverse bijections. */
  lemma CivilFromDaysInverse(d: Date)
    requires ValidDate(d)
    ensures CivilFromDays(DaysFromCivil(d)) == d
  {
    CivilFromDaysExact(DaysFromCivil(d));
    DaysFromCivilInjective(CivilFromDays(DaysFromCivil(d)), d);
  }

  lemma NextNumberIsNextDay(d: Date, e: Date)
    requires ValidDate(d) && ValidDate(e) && DaysFromCivil(e) == DaysFromCivil(d) + 1
    ensures e == NextDay(d)
  {
    NextDayIsNextNumber(d);
    DaysFromCivilInjective(e, NextDay(d));
  }

  /** Consecutive day numbers give consecutive calendar dates. */
  lemma CivilFromDaysSuccessor(z: int)
    ensures ValidDate(CivilFromDays(z))
    ensures CivilFromDays(z + 1) == NextDay(CivilFromDays(z))
  {
    CivilFromDaysExact(z);
    CivilFromDaysExact(z + 1);
    NextNumberIsNextDay(CivilFromDays(z), CivilFromDays(z + 1));
  }

  // ---------------------------------------------------------------- time of day

  const EPOCH := 719_468   // 1 January 1970, counted from 1 March of year 0

  datatype Parts = Parts(minute: nat, hour: nat, day: int, month: int, weekday: int)

  function Weekday(days: int): int {
    (days + 4) % 7
  }

  function UtcParts(unixSecs: nat): Parts {
    var days := unixSecs / 86_400;
    var secsOfDay := unixSecs % 86_400;
    var date := CivilFromDays(days + EPOCH);
    Parts((secsOfDay % 3600) / 60, secsOfDay / 3600, date.day, date.month, Weekday(days))
  }

  /** The weekday `n` days after a Thursday, counted day by day; Sunday is 0. */
  function WeekdayAfterThursday(n: nat): int {
    if n == 0 then 4 else if WeekdayAfterThursday(n - 1) == 6 then 0 else WeekdayAfterThursday(n - 1) + 1
  }

  lemma {:induction false} WeekdayCounts(n: nat)
    ensures Weekday(n) == WeekdayAfterThursday(n)
  {
    if n > 0 {
      WeekdayCounts(n - 1);
      var q, r := (n + 3) / 7, (n + 3) % 7;
      if r == 6 {
        DivModIs(n + 4, 7, q + 1, 0);
      } else {
        DivModIs(n + 4, 7, q, r + 1);
      }
    }
  }

  lemma EpochDate()
    ensures DaysFromCivil(Date(1970, 1, 1)) == EPOCH
    ensures CivilFromDays(EPOCH) == Date(1970, 1, 1)
  {
    var d := Date(1970, 1, 1);
    assert DaysBeforeMonth(1970, 1) == 0;
    assert DaysBeforeYear(1970) == 719_528;
    CivilFromDaysInverse(d);
  }

  /** The parts name the minute that contains `unixSecs`, on a real calendar date, and the weekday
      is counted from Thursday, 1 January 1970. */
  lemma UtcPartsExact(unixSecs: nat) returns (date: Date, second: nat)
    ensures ValidDate(date) && second < 60
    ensures var p := UtcParts(unixSecs);
      && p.day == date.day && p.month == date.month
      && DaysFromCivil(date) >= DaysFromCivil(Date(1970, 1, 1))
      && p.weekday == WeekdayAfterThursday(DaysFromCivil(date) - DaysFromCivil(Date(1970, 1, 1)))
      && p.hour < 24 && p.minute < 60
      && unixSecs == ((DaysFromCivil(date) - DaysFromCivil(Date(1970, 1, 1))) * 24 + p.hour) * 3600
                     + p.minute * 60 + second
  {
    var days := unixSecs / 86_400;
    date := CivilFromDays(days + EPOCH);
    second := unixSecs % 60;
    CivilFromDaysExact(days + EPOCH);
    EpochDate();
    WeekdayCounts(days);
    TimeOfDay(unixSecs);
  }

  lemma TimeOfDay(a: nat)
    ensures (a % 86_400) / 3600 < 24 && ((a % 86_400) % 3600) / 60 < 60
    ensures a == ((a / 86_400) * 24 + (a % 86_400) / 3600) * 3600 + (((a % 86_400) % 3600) / 60) * 60 + a % 60
  {
    MinuteOfDay(a);
    MinuteSplit(a);
  }

  lemma MinuteSplit(a: nat)
    ensures a == 86_400 * (a / 86_400) + 3600 * (((a / 60) % 1440) / 60) + 60 * ((a / 60) % 60) + a % 60
    ensures ((a / 60) % 1440) / 60 < 24
  {
    MinuteOfDay(a);
    var q := a / 60;
    var d, m := q / 1440, q % 1440;
    DivModIs(q, 60, 24 * d + m / 60, m % 60);
  }

  /** The parts depend on the minute only. */
  lemma UtcPartsOfMinute(a: nat, b: nat)
    requires a / 60 == b / 60
    ensures UtcParts(a) == UtcParts(b)
  {
    MinuteOfDay(a);
    MinuteOfDay(b);
    assert UtcParts(a).hour == UtcParts(b).hour && UtcParts(a).minute == UtcParts(b).minute;
  }

  lemma MinuteOfDay(a: nat)
    ensures a / 86_400 == (a / 60) / 1440
    ensures (a % 86_400) / 3600 == ((a / 60) % 1440) / 60
    ensures ((a % 86_400) % 3600) / 60 == (a / 60) % 60
  {
    var q, r := a / 60, a % 60;
    var d, m := q / 1440, q % 1440;
    var h, k := m / 60, m % 60;
    DivModIs(a, 86_400, d, 60 * m + r);
    DivModIs(60 * m + r, 3600, h, 60 * k + r);
    DivModIs(60 * k + r, 60, k, r);
    DivModIs(q, 60, 24 * d + h, k);
  }
}
