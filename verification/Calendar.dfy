/** Days since 1970-01-01 and the proleptic Gregorian calendar: the shifted-era
    arithmetic, proved against a calendar that only knows month lengths and
    steps one day at a time. */
module Calendar {

  datatype Date = Date(year: int, month: int, day: int)

  const EPOCH := Date(1970, 1, 1)
  const EPOCH_WEEKDAY := 4

  /** Integer division that truncates toward zero. */
  function Quotient(a: int, b: int): int
    requires b > 0
  {
    if a >= 0 then a / b else -((-a) / b)
  }

  /** A conversion to a 32-bit unsigned integer. */
  function AsUnsigned(x: int): int {
    if 0 <= x < 0x1_0000_0000 then x else x % 0x1_0000_0000
  }

  function DaysFromCivil(date: Date): int {
    var year := if date.month <= 2 then date.year - 1 else date.year;
    var era := Quotient(if year >= 0 then year else year - 399, 400);
    var yearOfEra := AsUnsigned(year - era * 400);
    var monthOfYear := date.month + (if date.month > 2 then -3 else 9);
    var dayOfYear := AsUnsigned(Quotient(153 * monthOfYear + 2, 5) + date.day - 1);
    var dayOfEra := AsUnsigned(yearOfEra * 365 + yearOfEra / 4 - yearOfEra / 100 + dayOfYear);
    era * 146097 + dayOfEra - 719468
  }

  function CivilFromDays(days: int): Date {
    var day := days + 719468;
    var era := Quotient(if day >= 0 then day else day - 146096, 146097);
    CivilInEra(era, AsUnsigned(day - era * 146097))
  }

  function CivilInEra(era: int, dayOfEra: int): Date {
    var yearOfEra := AsUnsigned(dayOfEra - dayOfEra / 1460 + dayOfEra / 36524 - dayOfEra / 146096) / 365;
    var dayOfYear := AsUnsigned(dayOfEra - (365 * yearOfEra + yearOfEra / 4 - yearOfEra / 100));
    CivilInYear(era * 400 + yearOfEra, dayOfYear)
  }

  /** The date so many days into a year that starts on the first of March. */
  function CivilInYear(shifted: int, dayOfYear: int): Date {
    var monthOfYear := AsUnsigned(5 * dayOfYear + 2) / 153;
    var dayOfMonth := AsUnsigned(dayOfYear - (153 * monthOfYear + 2) / 5 + 1);
    var month := if monthOfYear < 10 then monthOfYear + 3 else monthOfYear - 9;
    Date(shifted + (if month <= 2 then 1 else 0), month, dayOfMonth)
  }

  datatype Day = NoDay | Day(date: Date, weekday: int)

  /** What a row of the history is dated by; nothing on or before the epoch is. */
  function CalendarOfDay(day: int): Day {
    if day <= 0 then NoDay else Day(CivilFromDays(day), (day % 7 + EPOCH_WEEKDAY + 7) % 7)
  }

  // --- The calendar everybody knows ---------------------------------------------

  predicate IsLeap(year: int) {
    year % 4 == 0 && (year % 100 != 0 || year % 400 == 0)
  }

  function MonthLength(year: int, month: int): int {
    if month == 2 then (if IsLeap(year) then 29 else 28)
    else if month == 4 || month == 6 || month == 9 || month == 11 then 30
    else 31
  }

  predicate IsDate(date: Date) {
    1 <= date.month <= 12 && 1 <= date.day <= MonthLength(date.year, date.month)
  }

  function Tomorrow(date: Date): Date {
    if date.day < MonthLength(date.year, date.month) then date.(day := date.day + 1)
    else if date.month < 12 then Date(date.year, date.month + 1, 1)
    else Date(date.year + 1, 1, 1)
  }

  function Yesterday(date: Date): Date {
    if date.day > 1 then date.(day := date.day - 1)
    else if date.month > 1 then Date(date.year, date.month - 1, MonthLength(date.year, date.month - 1))
    else Date(date.year - 1, 12, 31)
  }

  /** The date reached from the epoch by stepping |days| single days. */
  function Stepped(days: int): Date
    decreases if days < 0 then -days else days
  {
    if days == 0 then EPOCH
    else if days > 0 then Tomorrow(Stepped(days - 1))
    else Yesterday(Stepped(days + 1))
  }

  /** The weekday reached from Thursday by stepping `days` single days. */
  function SteppedWeekday(days: nat): int {
    if days == 0 then EPOCH_WEEKDAY
    else if SteppedWeekday(days - 1) == 6 then 0
    else SteppedWeekday(days - 1) + 1
  }

  // --- Proofs -------------------------------------------------------------------

  /** The year a March-to-February calendar is in. */
  function ShiftedYear(date: Date): int {
    if date.month <= 2 then date.year - 1 else date.year
  }

  function MonthOfYear(month: int): int {
    if month > 2 then month - 3 else month + 9
  }

  function DayOfYear(date: Date): int {
    (153 * MonthOfYear(date.month) + 2) / 5 + date.day - 1
  }

  function DayOfEra(yearOfEra: int, dayOfYear: int): int {
    yearOfEra * 365 + yearOfEra / 4 - yearOfEra / 100 + dayOfYear
  }

  /** The month formula is the running sum of the month lengths from March. */
  lemma MonthStarts(month: int)
    requires 1 <= month <= 12
    ensures (153 * MonthOfYear(month) + 2) / 5 ==
            [306, 337, 0, 31, 61, 92, 122, 153, 184, 214, 245, 275][month - 1]
  {
    var starts := [306, 337, 0, 31, 61, 92, 122, 153, 184, 214, 245, 275];
    var m :| m == month;
    if m <= 6 {
      assert m == 1 || m == 2 || m == 3 || m == 4 || m == 5 || m == 6;
    } else {
      assert m == 7 || m == 8 || m == 9 || m == 10 || m == 11 || m == 12;
    }
  }

  lemma DayOfYearBound(date: Date)
    requires IsDate(date)
    ensures 0 <= DayOfYear(date) <= 365
    ensures DayOfYear(date) == 365 ==> IsLeap(date.year) && date.month == 2
  {
    MonthStarts(date.month);
  }

  lemma EraQuotient(year: int, era: int, yearOfEra: int)
    requires year == era * 400 + yearOfEra && 0 <= yearOfEra < 400
    ensures Quotient(if year >= 0 then year else year - 399, 400) == era
  {
  }

  lemma FourRepeats(era: int, year: int)
    ensures (era * 400 + year) % 4 == year % 4
  {
    assert era * 400 + year == (era * 100 + year / 4) * 4 + year % 4;
  }

  lemma HundredRepeats(era: int, year: int)
    ensures (era * 400 + year) % 100 == year % 100
  {
    assert era * 400 + year == (era * 4 + year / 100) * 100 + year % 100;
  }

  lemma FourHundredRepeats(era: int, year: int)
    ensures (era * 400 + year) % 400 == year % 400
  {
    assert era * 400 + year == (era + year / 400) * 400 + year % 400;
  }

  lemma EraRepeats(year: int, era: int, yearOfEra: int)
    requires year == era * 400 + yearOfEra
    ensures IsLeap(year + 1) <==> IsLeap(yearOfEra + 1)
  {
    FourRepeats(era, yearOfEra + 1);
    HundredRepeats(era, yearOfEra + 1);
    FourHundredRepeats(era, yearOfEra + 1);
  }

  lemma EraOf(year: int, era: int, yearOfEra: int)
    requires year == era * 400 + yearOfEra && 0 <= yearOfEra < 400
    ensures Quotient(if year >= 0 then year else year - 399, 400) == era
    ensures IsLeap(year + 1) <==> IsLeap(yearOfEra + 1)
  {
    EraQuotient(year, era, yearOfEra);
    EraRepeats(year, era, yearOfEra);
  }

  /** No conversion to unsigned loses anything on a real date. */
  lemma DaysByEra(date: Date, era: int, yearOfEra: int)
    requires IsDate(date)
    requires ShiftedYear(date) == era * 400 + yearOfEra && 0 <= yearOfEra < 400
    ensures DaysFromCivil(date) == era * 146097 + DayOfEra(yearOfEra, DayOfYear(date)) - 719468
  {
    EraOf(ShiftedYear(date), era, yearOfEra);
    DayOfYearBound(date);
    MonthStarts(date.month);
    var dayOfYear := DayOfYear(date);
    assert 0 <= DayOfEra(yearOfEra, dayOfYear) < 0x1_0000_0000;
  }

  lemma EraSplit(year: int) returns (era: int, yearOfEra: int)
    ensures year == era * 400 + yearOfEra && 0 <= yearOfEra < 400
  {
    era, yearOfEra := year / 400, year % 400;
  }

  /** One day on, inside the shifted year or across its end. */
  lemma DayOfYearSteps(date: Date)
    requires IsDate(date)
    ensures var next := Tomorrow(date);
            && IsDate(next)
            && if ShiftedYear(next) == ShiftedYear(date) then DayOfYear(next) == DayOfYear(date) + 1
               else && ShiftedYear(next) == ShiftedYear(date) + 1
                    && DayOfYear(next) == 0
                    && DayOfYear(date) == if IsLeap(date.year) then 365 else 364
  {
    var next := Tomorrow(date);
    MonthStarts(date.month);
    MonthStarts(next.month);
  }

  lemma YearEndSteps(yearOfEra: int)
    requires 0 <= yearOfEra < 400
    ensures DayOfEra(yearOfEra, if IsLeap(yearOfEra + 1) then 365 else 364) + 1
         == if yearOfEra == 399 then 146097 else DayOfEra(yearOfEra + 1, 0)
  {
    var inFour, inCentury := yearOfEra % 4, yearOfEra % 100;
    assert (yearOfEra + 1) / 4 == yearOfEra / 4 + (if inFour == 3 then 1 else 0);
    assert (yearOfEra + 1) / 100 == yearOfEra / 100 + (if inCentury == 99 then 1 else 0);
    assert (yearOfEra + 1) % 4 == 0 <==> inFour == 3;
    assert (yearOfEra + 1) % 100 == 0 <==> inCentury == 99;
  }

  lemma TomorrowIsOneMore(date: Date)
    requires IsDate(date)
    ensures IsDate(Tomorrow(date))
    ensures DaysFromCivil(Tomorrow(date)) == DaysFromCivil(date) + 1
  {
    var next := Tomorrow(date);
    var era, yearOfEra := EraSplit(ShiftedYear(date));
    DayOfYearSteps(date);
    DaysByEra(date, era, yearOfEra);
    if ShiftedYear(next) == ShiftedYear(date) {
      DaysByEra(next, era, yearOfEra);
    } else {
      assert ShiftedYear(date) == date.year - 1;
      EraOf(ShiftedYear(date), era, yearOfEra);
      YearEndSteps(yearOfEra);
      if yearOfEra == 399 {
        DaysByEra(next, era + 1, 0);
      } else {
        DaysByEra(next, era, yearOfEra + 1);
      }
    }
  }

  lemma {:induction false} YesterdayIsOneLess(date: Date)
    requires IsDate(date)
    ensures IsDate(Yesterday(date)) && Tomorrow(Yesterday(date)) == date
    ensures DaysFromCivil(Yesterday(date)) == DaysFromCivil(date) - 1
  {
    TomorrowIsOneMore(Yesterday(date));
  }

  lemma {:induction false} SteppedCounts(days: int)
    ensures IsDate(Stepped(days)) && DaysFromCivil(Stepped(days)) == days
    decreases if days < 0 then -days else days
  {
    if days > 0 {
      SteppedCounts(days - 1);
      TomorrowIsOneMore(Stepped(days - 1));
    } else if days < 0 {
      SteppedCounts(days + 1);
      YesterdayIsOneLess(Stepped(days + 1));
    }
  }

  /** The correction terms of the era arithmetic find the year a day lies in. */
  lemma YearOfEraFound(yearOfEra: int, dayOfYear: int)
    requires 0 <= yearOfEra < 400 && 0 <= dayOfYear <= 365
    requires dayOfYear == 365 ==> IsLeap(yearOfEra + 1)
    ensures var day := DayOfEra(yearOfEra, dayOfYear);
            && 0 <= day < 146097
            && day / 1460 <= 100 && day / 36524 <= 4
            && (day - day / 1460 + day / 36524 - day / 146096) / 365 == yearOfEra
  {
    var century, year := yearOfEra / 100, yearOfEra % 100;
    var four, rest := year / 4, year % 4;
    assert yearOfEra / 4 == 25 * century + four;
    YearInCentury(century, four, rest, dayOfYear);
  }

  /** The same with the year taken apart into centuries, fours and the rest. */
  lemma YearInCentury(century: int, four: int, rest: int, dayOfYear: int)
    requires 0 <= century < 4 && 0 <= four < 25 && 0 <= rest < 4 && 0 <= dayOfYear <= 365
    requires dayOfYear == 365 ==> rest == 3 && (four < 24 || century == 3)
    ensures var day := century * 36524 + four * 1461 + rest * 365 + dayOfYear;
            && 0 <= day < 146097
            && day / 1460 <= 100 && day / 36524 <= 4
            && (day - day / 1460 + day / 36524 - day / 146096) / 365 == century * 100 + four * 4 + rest
  {
    var day := century * 36524 + four * 1461 + rest * 365 + dayOfYear;
    var over := 24 * century + four + 365 * rest + dayOfYear;
    assert day == 1460 * (25 * century + four) + over && 0 <= over < 2920;
    assert day / 1460 == 25 * century + four + (if over >= 1460 then 1 else 0);
    assert day / 36524 == if dayOfYear == 365 && four == 24 then 4 else century;
    assert day / 146096 == if day == 146096 then 1 else 0;
  }

  /** The month formula read backwards finds the month and the day in it. */
  lemma MonthFound(date: Date)
    requires IsDate(date)
    ensures 0 <= DayOfYear(date) <= 365
    ensures CivilInYear(ShiftedYear(date), DayOfYear(date)) == date
  {
    MonthStarts(date.month);
  }

  lemma EraFound(day: int, era: int, dayOfEra: int)
    requires day == era * 146097 + dayOfEra && 0 <= dayOfEra < 146097
    ensures Quotient(if day >= 0 then day else day - 146096, 146097) == era
  {
  }

  lemma EraOfDay(days: int, era: int, dayOfEra: int)
    requires days + 719468 == era * 146097 + dayOfEra && 0 <= dayOfEra < 146097
    ensures CivilFromDays(days) == CivilInEra(era, dayOfEra)
  {
    EraFound(days + 719468, era, dayOfEra);
  }

  lemma YearOfDay(era: int, yearOfEra: int, dayOfYear: int)
    requires 0 <= yearOfEra < 400 && 0 <= dayOfYear <= 365
    requires dayOfYear == 365 ==> IsLeap(yearOfEra + 1)
    ensures CivilInEra(era, DayOfEra(yearOfEra, dayOfYear)) == CivilInYear(era * 400 + yearOfEra, dayOfYear)
  {
    YearOfEraFound(yearOfEra, dayOfYear);
    var day := DayOfEra(yearOfEra, dayOfYear);
    assert day - (365 * yearOfEra + yearOfEra / 4 - yearOfEra / 100) == dayOfYear;
  }

  lemma CivilUndoesDays(date: Date)
    requires IsDate(date)
    ensures CivilFromDays(DaysFromCivil(date)) == date
  {
    var era, yearOfEra := EraSplit(ShiftedYear(date));
    var dayOfYear := DayOfYear(date);
    DaysByEra(date, era, yearOfEra);
    DayOfYearBound(date);
    EraOf(ShiftedYear(date), era, yearOfEra);
    YearOfEraFound(yearOfEra, dayOfYear);
    EraOfDay(DaysFromCivil(date), era, DayOfEra(yearOfEra, dayOfYear));
    YearOfDay(era, yearOfEra, dayOfYear);
    MonthFound(date);
  }

  /** The era arithmetic is the naive calendar, on every day before and after
      the epoch, and its two directions undo each other. */
  lemma CivilIsStepping(days: int)
    ensures CivilFromDays(days) == Stepped(days)
    ensures IsDate(CivilFromDays(days)) && DaysFromCivil(CivilFromDays(days)) == days
  {
    SteppedCounts(days);
    CivilUndoesDays(Stepped(days));
  }

  /** Two dates count the same number of days only when they are the same date,
      and each is that many steps from the epoch. */
  lemma DaysIsInjective(one: Date, other: Date)
    requires IsDate(one) && IsDate(other)
    ensures DaysFromCivil(one) == DaysFromCivil(other) <==> one == other
    ensures Stepped(DaysFromCivil(one)) == one
  {
    CivilUndoesDays(one);
    CivilUndoesDays(other);
    CivilIsStepping(DaysFromCivil(one));
  }

  lemma RemainderSteps(n: nat)
    ensures (n + 1) % 7 == if n % 7 == 6 then 0 else n % 7 + 1
  {
  }

  lemma {:induction false} WeekdayIsStepping(days: nat)
    ensures SteppedWeekday(days) == (days % 7 + EPOCH_WEEKDAY) % 7
  {
    if days > 0 {
      WeekdayIsStepping(days - 1);
      RemainderSteps(days - 1);
    }
  }

  lemma CalendarOfDayIsStepping(day: int)
    ensures CalendarOfDay(day).NoDay? <==> day <= 0
    ensures day > 0 ==> CalendarOfDay(day) == Day(Stepped(day), SteppedWeekday(day))
  {
    if day > 0 {
      CivilIsStepping(day);
      WeekdayIsStepping(day);
    }
  }

  /** A day number that fits 32 bits names a year that does, so no conversion of
      the year loses anything either. */
  lemma YearFits(days: int)
    requires -0x8000_0000 <= days < 0x8000_0000
    ensures -0x8000_0000 <= CivilFromDays(days).year < 0x8000_0000
  {
    var day := days + 719468;
    var era := Quotient(if day >= 0 then day else day - 146096, 146097);
    assert 0 <= day - era * 146097 < 146097;
  }
}
