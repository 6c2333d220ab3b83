/** The day count of a Gregorian date: the closed form in truncating arithmetic, and what it counts. */
module Calendar {

  /** Division as the program does it: towards zero. */
  function Quotient(a: int, b: int): int
    requires b > 0
  {
    if a >= 0 then a / b else -((-a) / b)
  }

  /** Days from 1970-01-01 to a date, in closed form. */
  function DaysFromCivil(year: int, month: int, day: int): int {
    var y := if month <= 2 then year - 1 else year;
    var era := Quotient(if y >= 0 then y else y - 399, 400);
    var yearOfEra := y - era * 400;
    var dayOfYear := Quotient(153 * (if month > 2 then month - 3 else month + 9) + 2, 5) + day - 1;
    var dayOfEra := yearOfEra * 365 + Quotient(yearOfEra, 4) - Quotient(yearOfEra, 100) + dayOfYear;
    era * 146097 + dayOfEra - 719468
  }

  // ---- the calendar, by its rules ----

  predicate Leap(year: int) {
    year % 4 == 0 && (year % 100 != 0 || year % 400 == 0)
  }

  function YearLength(year: int): int {
    if Leap(year) then 366 else 365
  }

  function MonthLength(year: int, month: int): int
    requires 1 <= month <= 12
  {
    match month
    case 2 => if Leap(year) then 29 else 28
    case 4 => 30
    case 6 => 30
    case 9 => 30
    case 11 => 30
    case _ => 31
  }

  datatype Date = Date(year: int, month: int, day: int)

  predicate ValidDate(d: Date) {
    1 <= d.month <= 12 && 1 <= d.day <= MonthLength(d.year, d.month)
  }

  /** Days from the start of 1970 to the start of a year, counted year by year. */
  ghost function DaysToYear(year: int): int
    decreases if year >= 1970 then year - 1970 else 1970 - year
  {
    if year == 1970 then 0
    else if year > 1970 then DaysToYear(year - 1) + YearLength(year - 1)
    else DaysToYear(year + 1) - YearLength(year)
  }

  /** Days of a year before the start of a month, counted month by month. */
  ghost function DaysToMonth(year: int, month: int): int
    requires 1 <= month <= 13
    decreases month
  {
    if month == 1 then 0 else DaysToMonth(year, month - 1) + MonthLength(year, month - 1)
  }

  ghost function DayCount(d: Date): int
    requires ValidDate(d)
  {
    DaysToYear(d.year) + DaysToMonth(d.year, d.month) + d.day - 1
  }

  // ---- the closed form counts the days ----

  /** The era of the closed form is the floor of a four-hundredth of the year, negative years too. */
  lemma EraIsFloor(y: int)
    ensures Quotient(if y >= 0 then y else y - 399, 400) == y / 400
  {
  }

  /** The days before the first of March of year `y`, from the first of March of year 0. */
  function MarchDays(y: int): int {
    365 * y + y / 4 - y / 100 + y / 400
  }

  /** Leap days once in 4, but not in 100, but in 400 years. */
  lemma EraDays(y: int)
    ensures var era := y / 400; var yoe := y - era * 400;
            era * 146097 + yoe * 365 + yoe / 4 - yoe / 100 == MarchDays(y)
  {
    var era := y / 400;
    EraQuarters(era, y - era * 400);
    EraCenturies(era, y - era * 400);
  }

  lemma EraQuarters(era: int, r: int)
    ensures (era * 400 + r) / 4 == era * 100 + r / 4
  {
  }

  lemma EraCenturies(era: int, r: int)
    ensures (era * 400 + r) / 100 == era * 4 + r / 100
  {
  }

  lemma Quarters(y: int)
    ensures y / 4 - (y - 1) / 4 == if y % 4 == 0 then 1 else 0
  {
  }

  lemma Centuries(y: int)
    ensures y / 100 - (y - 1) / 100 == if y % 100 == 0 then 1 else 0
    ensures y / 400 - (y - 1) / 400 == if y % 400 == 0 then 1 else 0
  {
  }

  lemma Multiples(y: int)
    ensures y % 400 == 0 ==> y % 100 == 0
    ensures y % 100 == 0 ==> y % 4 == 0
  {
  }

  lemma MarchYear(y: int)
    ensures MarchDays(y) - MarchDays(y - 1) == YearLength(y)
  {
    Quarters(y);
    Centuries(y);
    Multiples(y);
  }

  lemma {:induction false} DaysToYearIsMarch(year: int)
    ensures DaysToYear(year) == MarchDays(year - 1) + 306 - 719468
    decreases if year >= 1970 then year - 1970 else 1970 - year
  {
    if year > 1970 {
      DaysToYearIsMarch(year - 1);
      MarchYear(year - 1);
    } else if year < 1970 {
      DaysToYearIsMarch(year + 1);
      MarchYear(year);
    }
  }

  /** The months of a year from March on, by the rule of 153 days in five months. */
  lemma {:induction false} MonthRule(year: int, month: int)
    requires 1 <= month <= 12
    ensures Quotient(153 * (if month > 2 then month - 3 else month + 9) + 2, 5)
              == if month > 2 then DaysToMonth(year, month) - DaysToMonth(year, 3) else DaysToMonth(year, month) + 306
  {
    assert DaysToMonth(year, 2) == 31;
    assert DaysToMonth(year, 3) == 31 + MonthLength(year, 2);
    assert DaysToMonth(year, 4) == DaysToMonth(year, 3) + 31;
    assert DaysToMonth(year, 5) == DaysToMonth(year, 3) + 61;
    assert DaysToMonth(year, 6) == DaysToMonth(year, 3) + 92;
    assert DaysToMonth(year, 7) == DaysToMonth(year, 3) + 122;
    assert DaysToMonth(year, 8) == DaysToMonth(year, 3) + 153;
    assert DaysToMonth(year, 9) == DaysToMonth(year, 3) + 184;
    assert DaysToMonth(year, 10) == DaysToMonth(year, 3) + 214;
    assert DaysToMonth(year, 11) == DaysToMonth(year, 3) + 245;
    assert DaysToMonth(year, 12) == DaysToMonth(year, 3) + 275;
  }

  /** The closed form is the count of days from 1970-01-01, for every valid date of every year. */
  lemma ClosedFormCounts(d: Date)
    requires ValidDate(d)
    ensures DaysFromCivil(d.year, d.month, d.day) == DayCount(d)
  {
    hide DaysToMonth, DaysToYear, YearLength, MonthLength, Quotient;
    var y := if d.month <= 2 then d.year - 1 else d.year;
    EraIsFloor(y);
    EraDays(y);
    YearOfEra(y);
    MonthRule(d.year, d.month);
    DaysToYearIsMarch(d.year);
    MarchYear(d.year);
    MarchStarts(d.year);
  }

  lemma YearOfEra(y: int)
    ensures var yoe := y - y / 400 * 400; Quotient(yoe, 4) == yoe / 4 && Quotient(yoe, 100) == yoe / 100
  {
  }

  lemma {:induction false} MarchStarts(year: int)
    ensures DaysToMonth(year, 3) == YearLength(year) - 306
  {
    assert DaysToMonth(year, 2) == 31;
  }

  lemma MonthStep(year: int, month: int)
    requires 1 <= month <= 12
    ensures DaysToMonth(year, month + 1) == DaysToMonth(year, month) + MonthLength(year, month)
    ensures DaysToMonth(year, 1) == 0
  {
  }

  lemma December(year: int)
    ensures MonthLength(year, 12) == 31
  {
  }

  // ---- day by day ----

  /** The next day of the calendar. */
  function NextDay(d: Date): (r: Date)
    requires ValidDate(d)
    ensures ValidDate(r)
  {
    if d.day < MonthLength(d.year, d.month) then d.(day := d.day + 1)
    else if d.month < 12 then Date(d.year, d.month + 1, 1)
    else Date(d.year + 1, 1, 1)
  }

  lemma CountNext(d: Date)
    requires ValidDate(d)
    ensures DayCount(NextDay(d)) == DayCount(d) + 1
  {
    hide DaysToMonth, DaysToYear, YearLength, MonthLength;
    MonthStep(d.year, d.month);
    MonthStep(d.year + 1, 1);
    MonthsMakeYear(d.year);
    December(d.year);
  }

  /** The count goes up by one from each day to the next. */
  lemma NextDayIsOneMore(d: Date)
    requires ValidDate(d)
    ensures var n := NextDay(d); DaysFromCivil(n.year, n.month, n.day) == DaysFromCivil(d.year, d.month, d.day) + 1
  {
    ClosedFormCounts(d);
    ClosedFormCounts(NextDay(d));
    CountNext(d);
  }

  /** It starts at 0 on 1970-01-01. */
  lemma EpochIsZero()
    ensures DaysFromCivil(1970, 1, 1) == 0
  {
    ClosedFormCounts(Date(1970, 1, 1));
  }

  lemma MonthsMakeYear(year: int)
    ensures DaysToMonth(year, 12) + 31 == YearLength(year)
    ensures DaysToYear(year + 1) == DaysToYear(year) + YearLength(year)
  {
    MonthRule(year, 12);
    assert DaysToMonth(year, 2) == 31;
    assert DaysToMonth(year, 3) == 31 + MonthLength(year, 2);
  }

  predicate Earlier(a: Date, b: Date) {
    a.year < b.year || (a.year == b.year && (a.month < b.month || (a.month == b.month && a.day < b.day)))
  }

  lemma {:induction false} MonthsRise(year: int, m: int, n: int)
    requires 1 <= m < n <= 13
    ensures DaysToMonth(year, m) + MonthLength(year, m) <= DaysToMonth(year, n)
    decreases n
  {
    if m < n - 1 {
      MonthsRise(year, m, n - 1);
    }
  }

  lemma {:induction false} MonthsNatural(year: int, m: int)
    requires 1 <= m <= 12
    ensures DaysToMonth(year, m) >= 0
  {
    if m > 1 {
      MonthsRise(year, 1, m);
    }
  }

  lemma {:induction false} YearsRise(a: int, b: int)
    requires a < b
    ensures DaysToYear(a) + YearLength(a) <= DaysToYear(b)
    decreases b - a
  {
    if a < b - 1 {
      YearsRise(a, b - 1);
      MonthsMakeYear(b - 1);
    } else {
      MonthsMakeYear(a);
    }
  }

  /** Earlier dates have smaller counts; so two dates have one count only when they are the same. */
  lemma CountRises(a: Date, b: Date)
    requires ValidDate(a) && ValidDate(b) && Earlier(a, b)
    ensures DaysFromCivil(a.year, a.month, a.day) < DaysFromCivil(b.year, b.month, b.day)
  {
    hide DaysFromCivil, DaysToMonth, DaysToYear, YearLength, MonthLength;
    ClosedFormCounts(a);
    ClosedFormCounts(b);
    if a.year < b.year {
      YearsRise(a.year, b.year);
      MonthsMakeYear(a.year);
      MonthsRise(a.year, a.month, 13);
      MonthStep(a.year, 12);
      December(a.year);
      MonthsNatural(b.year, b.month);
    } else if a.month < b.month {
      MonthsRise(a.year, a.month, b.month);
    }
  }

  lemma CountIsInjective(a: Date, b: Date)
    requires ValidDate(a) && ValidDate(b)
    requires DaysFromCivil(a.year, a.month, a.day) == DaysFromCivil(b.year, b.month, b.day)
    ensures a == b
  {
    if Earlier(a, b) {
      CountRises(a, b);
    } else if Earlier(b, a) {
      CountRises(b, a);
    }
  }
}
