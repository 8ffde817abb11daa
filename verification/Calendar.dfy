/** The civil calendar behind `inspect-packet`: a constant-time days-to-date formula, checked
    against the calendar everybody knows, day by day. */
module Calendar {
  import opened Words

  datatype Date = Date(year: int, month: nat, day: nat)

  // ---------------------------------------------------------------------
  // The formula
  // ---------------------------------------------------------------------

  const DAYS_PER_ERA: nat := 146_097

  /** Year of era for a day of era. */
  function YearOfEra(doe: nat): nat
    requires doe < DAYS_PER_ERA
  {
    (doe - doe / 1460 + doe / 36_524 - doe / 146_096) / 365
  }

  /** Days of the era before the given year of it. */
  function DaysBeforeYear(yoe: nat): nat {
    365 * yoe + yoe / 4 - yoe / 100
  }

  function CivilFromDays(z: int): Date {
    var shifted := z + 719_468;
    CivilInEra(shifted / DAYS_PER_ERA, shifted % DAYS_PER_ERA)
  }

  /** The date of a day of an era. */
  function CivilInEra(era: int, doe: nat): Date
    requires doe < DAYS_PER_ERA
  {
    var yoe := YearOfEra(doe);
    YearOfEraIsExact(doe);
    DateInEra(era, yoe, doe - DaysBeforeYear(yoe))
  }

  /** The date in March-based year `yoe` of the era, `doy` days after the first of March. */
  function DateInEra(era: int, yoe: nat, doy: nat): Date
    requires doy <= 365
  {
    var year := yoe + era * 400;
    var mp := (5 * doy + 2) / 153;
    var day := doy - (153 * mp + 2) / 5 + 1;
    var month := if mp < 10 then mp + 3 else mp - 9;
    Date(if month <= 2 then year + 1 else year, month, day)
  }

  // ---------------------------------------------------------------------
  // The reference: the proleptic Gregorian calendar
  // ---------------------------------------------------------------------

  predicate IsLeap(year: int) {
    year % 4 == 0 && (year % 100 != 0 || year % 400 == 0)
  }

  function DaysInMonth(year: int, month: nat): nat {
    if month == 2 then (if IsLeap(year) then 29 else 28)
    else if month == 4 || month == 6 || month == 9 || month == 11 then 30
    else 31
  }

  predicate IsDate(d: Date) {
    1 <= d.month <= 12 && 1 <= d.day <= DaysInMonth(d.year, d.month)
  }

  function Tomorrow(d: Date): Date {
    if d.day < DaysInMonth(d.year, d.month) then d.(day := d.day + 1)
    else if d.month < 12 then Date(d.year, d.month + 1, 1)
    else Date(d.year + 1, 1, 1)
  }

  // ---------------------------------------------------------------------
  // Years
  // ---------------------------------------------------------------------

  /** Year y of the era (March to February) ends with a leap day. */
  predicate EndsLeap(yoe: nat) {
    (yoe + 1) % 4 == 0 && ((yoe + 1) % 100 != 0 || (yoe + 1) % 400 == 0)
  }

  /** The last day of year `yoe` of the era. */
  function YearEnd(yoe: nat): nat {
    if EndsLeap(yoe) then 365 else 364
  }

  predicate InYear(yoe: nat, doy: nat) {
    yoe < 400 && doy <= YearEnd(yoe)
  }

  /** A day of era split by centuries, four-year cycles and years. */
  lemma YearOfSplitDay(c: nat, q: nat, a: nat, d: nat)
    requires c <= 3 && q <= 24 && a <= 3 && d <= 365
    requires d == 365 ==> a == 3 && (q < 24 || c == 3)
    ensures var doe := 36_524 * c + 1461 * q + 365 * a + d;
      doe < DAYS_PER_ERA && YearOfEra(doe) == 100 * c + 4 * q + a
      && DaysBeforeYear(100 * c + 4 * q + a) == doe - d
  {
    var doe := 36_524 * c + 1461 * q + 365 * a + d;
    var over := 24 * c + q + 365 * a + d;
    assert doe == 1460 * (25 * c + q) + over;
    var carry := if over >= 1460 then 1 else 0;
    assert doe / 1460 == 25 * c + q + carry;
    if doe == 146_096 {
      assert doe / 36_524 == 4 && doe / 146_096 == 1;
    } else {
      assert doe / 36_524 == c && doe / 146_096 == 0;
    }
    var y := 100 * c + 4 * q + a;
    assert doe - doe / 1460 + doe / 36_524 - doe / 146_096 == 365 * y + d - carry;
    assert y / 4 == 25 * c + q && y / 100 == c;
  }

  /** Every day of era has such a split. */
  lemma SplitDay(doe: nat) returns (c: nat, q: nat, a: nat, d: nat)
    requires doe < DAYS_PER_ERA
    ensures c <= 3 && q <= 24 && a <= 3 && d <= 365
    ensures d == 365 ==> a == 3 && (q < 24 || c == 3)
    ensures doe == 36_524 * c + 1461 * q + 365 * a + d
  {
    c := Min(doe / 36_524, 3);
    var inCentury := doe - 36_524 * c;
    q := inCentury / 1461;
    var inCycle := inCentury - 1461 * q;
    a := Min(inCycle / 365, 3);
    d := inCycle - 365 * a;
  }

  lemma YearOfEraIsExact(doe: nat)
    requires doe < DAYS_PER_ERA
    ensures var yoe := YearOfEra(doe);
      DaysBeforeYear(yoe) <= doe && InYear(yoe, doe - DaysBeforeYear(yoe))
  {
    var c, q, a, d := SplitDay(doe);
    YearOfSplitDay(c, q, a, d);
    LeapOfSplitYear(c, q, a);
  }

  lemma LeapOfSplitYear(c: nat, q: nat, a: nat)
    requires c <= 3 && q <= 24 && a <= 3
    ensures EndsLeap(100 * c + 4 * q + a) <==> a == 3 && (q < 24 || c == 3)
  {
  }

  /** The year of era and day of year determine the day of era, and nothing else has them. */
  lemma YearOfEraIsUnique(yoe: nat, doy: nat)
    requires InYear(yoe, doy)
    ensures var doe := DaysBeforeYear(yoe) + doy; doe < DAYS_PER_ERA && YearOfEra(doe) == yoe
  {
    var c, q, a := yoe / 100, (yoe % 100) / 4, yoe % 4;
    assert yoe == 100 * c + 4 * q + a;
    LeapOfSplitYear(c, q, a);
    YearOfSplitDay(c, q, a, doy);
  }

  // ---------------------------------------------------------------------
  // Days within a year
  // ---------------------------------------------------------------------

  /** Days from the first of March to the first of the month with March-based index mp. */
  function MonthStart(mp: nat): nat {
    (153 * mp + 2) / 5
  }

  /** The month of the civil calendar with March-based index mp. */
  function CivilMonth(mp: nat): nat
    requires mp <= 11
  {
    if mp < 10 then mp + 3 else mp - 9
  }

  lemma MonthOfDay(doy: nat)
    requires doy <= 365
    ensures var mp := (5 * doy + 2) / 153;
      && mp <= 11 && MonthStart(mp) <= doy
      && (mp < 11 ==> doy < MonthStart(mp + 1))
  {
  }

  lemma MonthLengths(year: int, mp: nat)
    requires mp <= 10
    ensures DaysInMonth(year, CivilMonth(mp)) == MonthStart(mp + 1) - MonthStart(mp)
  {
  }

  lemma LeapYearOfEra(era: int, yoe: nat)
    ensures IsLeap(yoe + era * 400 + 1) <==> EndsLeap(yoe)
  {
    var y := yoe + 1;
    RemainderOf(y + 400 * era, 4, y / 4 + 100 * era, y % 4);
    RemainderOf(y + 400 * era, 100, y / 100 + 4 * era, y % 100);
    RemainderOf(y + 400 * era, 400, y / 400 + era, y % 400);
  }

  /** The date of a day of year, by the index of its month. */
  lemma MonthOfDate(era: int, yoe: nat, doy: nat) returns (mp: nat)
    requires InYear(yoe, doy)
    ensures mp <= 11 && MonthStart(mp) <= doy && (mp < 11 ==> doy < MonthStart(mp + 1))
    ensures DateInEra(era, yoe, doy)
         == Date(yoe + era * 400 + (if mp < 10 then 0 else 1), CivilMonth(mp), doy - MonthStart(mp) + 1)
    ensures mp == (5 * doy + 2) / 153
  {
    mp := (5 * doy + 2) / 153;
    MonthOfDay(doy);
  }

  lemma LengthOfMonth(era: int, yoe: nat, mp: nat)
    requires mp <= 11
    ensures DaysInMonth(yoe + era * 400 + (if mp < 10 then 0 else 1), CivilMonth(mp))
         == (if mp < 11 then MonthStart(mp + 1) else YearEnd(yoe) + 1) - MonthStart(mp)
  {
    if mp < 11 {
      MonthLengths(yoe + era * 400 + (if mp < 10 then 0 else 1), mp);
    } else {
      LeapYearOfEra(era, yoe);
    }
  }

  /** The date of a day of year is a date of the calendar. */
  lemma DayInYearIsDate(era: int, yoe: nat, doy: nat)
    requires InYear(yoe, doy)
    ensures IsDate(DateInEra(era, yoe, doy))
  {
    var mp := MonthOfDate(era, yoe, doy);
    LengthOfMonth(era, yoe, mp);
  }

  lemma MonthOfNextDay(doy: nat, mp: nat)
    requires doy < 365 && mp == (5 * doy + 2) / 153 && mp <= 11
    ensures (5 * (doy + 1) + 2) / 153 == if mp < 11 && doy + 1 == MonthStart(mp + 1) then mp + 1 else mp
  {
    MonthOfDay(doy);
    MonthOfDay(doy + 1);
  }

  /** The date of the next day of the year is tomorrow. */
  lemma NextDayInYear(era: int, yoe: nat, doy: nat)
    requires InYear(yoe, doy) && doy < YearEnd(yoe)
    ensures DateInEra(era, yoe, doy + 1) == Tomorrow(DateInEra(era, yoe, doy))
  {
    var mp := MonthOfDate(era, yoe, doy);
    LengthOfMonth(era, yoe, mp);
    MonthOfNextDay(doy, mp);
    var _ := MonthOfDate(era, yoe, doy + 1);
  }

  /** And so is that of the first day of the next year. */
  lemma LastDayOfYear(era: int, yoe: nat)
    requires yoe < 400
    ensures DateInEra(era, yoe + 1, 0) == Tomorrow(DateInEra(era, yoe, YearEnd(yoe)))
  {
    var mp := MonthOfDate(era, yoe, YearEnd(yoe));
    LengthOfMonth(era, yoe, mp);
  }

  // ---------------------------------------------------------------------
  // All days
  // ---------------------------------------------------------------------

  /** Day `doy` of year `yoe` of an era, counted from 1970-01-01. */
  function DayNumber(era: int, yoe: nat, doy: nat): int {
    era * DAYS_PER_ERA + DaysBeforeYear(yoe) + doy - 719_468
  }

  lemma CivilOfDayNumber(era: int, yoe: nat, doy: nat)
    requires InYear(yoe, doy)
    ensures CivilFromDays(DayNumber(era, yoe, doy)) == DateInEra(era, yoe, doy)
  {
    YearOfEraIsUnique(yoe, doy);
    var doe := DaysBeforeYear(yoe) + doy;
    assert DayNumber(era, yoe, doy) + 719_468 == era * DAYS_PER_ERA + doe;
    RemainderOf(era * DAYS_PER_ERA + doe, DAYS_PER_ERA, era, doe);
    assert CivilInEra(era, doe) == DateInEra(era, yoe, doy);
  }

  lemma DayNumberOf(z: int) returns (era: int, yoe: nat, doy: nat)
    ensures InYear(yoe, doy) && z == DayNumber(era, yoe, doy)
  {
    var shifted := z + 719_468;
    era := shifted / DAYS_PER_ERA;
    var doe := shifted % DAYS_PER_ERA;
    YearOfEraIsExact(doe);
    yoe := YearOfEra(doe);
    doy := doe - DaysBeforeYear(yoe);
  }

  /** All that matters about the formula: the date it gives to each day of each year of each era. */
  ghost predicate DatesEras(f: int -> Date) {
    forall era, yoe, doy :: InYear(yoe, doy) ==> f(DayNumber(era, yoe, doy)) == DateInEra(era, yoe, doy)
  }

  lemma CivilDatesEras()
    ensures DatesEras(CivilFromDays)
  {
    forall era, yoe, doy | InYear(yoe, doy)
      ensures CivilFromDays(DayNumber(era, yoe, doy)) == DateInEra(era, yoe, doy)
    {
      CivilOfDayNumber(era, yoe, doy);
    }
  }

  lemma NewYear(era: int, yoe: nat)
    requires yoe < 399
    ensures DayNumber(era, yoe + 1, 0) == DayNumber(era, yoe, YearEnd(yoe)) + 1
  {
    YearEndsWhereNextBegins(yoe);
  }

  lemma NewEra(era: int)
    ensures DayNumber(era + 1, 0, 0) == DayNumber(era, 399, 365) + 1
    ensures DateInEra(era + 1, 0, 0) == DateInEra(era, 400, 0)
  {
  }

  lemma NextDayNumber(f: int -> Date, era: int, yoe: nat, doy: nat)
    requires DatesEras(f) && InYear(yoe, doy)
    ensures f(DayNumber(era, yoe, doy)) == DateInEra(era, yoe, doy)
    ensures f(DayNumber(era, yoe, doy) + 1) == Tomorrow(DateInEra(era, yoe, doy))
  {
    if doy < YearEnd(yoe) {
      NextDayInYear(era, yoe, doy);
      assert f(DayNumber(era, yoe, doy + 1)) == DateInEra(era, yoe, doy + 1);
    } else if yoe < 399 {
      LastDayOfYear(era, yoe);
      NewYear(era, yoe);
      assert f(DayNumber(era, yoe + 1, 0)) == DateInEra(era, yoe + 1, 0);
    } else {
      LastDayOfYear(era, yoe);
      NewEra(era);
      assert f(DayNumber(era + 1, 0, 0)) == DateInEra(era + 1, 0, 0);
    }
  }

  /** The formula follows the calendar: day 0 is 1970-01-01, and for every integer day, before or
      after, the next day's date is the day after. */
  lemma CivilFollowsCalendar(z: int)
    ensures CivilFromDays(0) == Date(1970, 1, 1)
    ensures IsDate(CivilFromDays(z))
    ensures CivilFromDays(z + 1) == Tomorrow(CivilFromDays(z))
  {
    CivilDatesEras();
    StepFollowsCalendar(CivilFromDays, z);
  }

  lemma StepFollowsCalendar(f: int -> Date, z: int)
    requires DatesEras(f)
    ensures f(0) == Date(1970, 1, 1) && IsDate(f(z)) && f(z + 1) == Tomorrow(f(z))
  {
    assert DayNumber(4, 369, 306) == 0 && InYear(369, 306);
    var era, yoe, doy := DayNumberOf(z);
    NextDayNumber(f, era, yoe, doy);
    DayInYearIsDate(era, yoe, doy);
  }

  lemma YearEndsWhereNextBegins(yoe: nat)
    requires yoe < 399
    ensures DaysBeforeYear(yoe + 1) == DaysBeforeYear(yoe) + YearEnd(yoe) + 1
  {
    var c, q, a := yoe / 100, (yoe % 100) / 4, yoe % 4;
    assert yoe == 100 * c + 4 * q + a;
    LeapOfSplitYear(c, q, a);
    RemainderOf(yoe, 4, 25 * c + q, a);
    if a < 3 {
      RemainderOf(yoe + 1, 4, 25 * c + q, a + 1);
      RemainderOf(yoe + 1, 100, c, 4 * q + a + 1);
    } else if q < 24 {
      RemainderOf(yoe + 1, 4, 25 * c + q + 1, 0);
      RemainderOf(yoe + 1, 100, c, 4 * q + 4);
    } else {
      RemainderOf(yoe + 1, 4, 25 * c + 25, 0);
      RemainderOf(yoe + 1, 100, c + 1, 0);
    }
  }

  /** Calendar order. */
  predicate Before(a: Date, b: Date) {
    a.year < b.year || (a.year == b.year && (a.month < b.month || (a.month == b.month && a.day < b.day)))
  }

  lemma {:induction false} StepsIncrease(f: int -> Date, y: int, z: int)
    requires forall i :: f(i + 1) == Tomorrow(f(i))
    requires y < z
    ensures Before(f(y), f(z))
    decreases z - y
  {
    assert f(z - 1 + 1) == Tomorrow(f(z - 1));
    if y < z - 1 {
      StepsIncrease(f, y, z - 1);
    }
  }

  /** Later days have later dates, so no two days share one. */
  lemma CivilIsIncreasing(y: int, z: int)
    requires y < z
    ensures Before(CivilFromDays(y), CivilFromDays(z))
  {
    forall i ensures CivilFromDays(i + 1) == Tomorrow(CivilFromDays(i)) {
      CivilFollowsCalendar(i);
    }
    StepsIncrease(CivilFromDays, y, z);
  }

  /** The reference inverse: days from a date, counting whole March-based years. */
  function DaysFromCivil(d: Date): int
    requires 1 <= d.month <= 12
  {
    var year := if d.month <= 2 then d.year - 1 else d.year;
    var mp := if d.month <= 2 then d.month + 9 else d.month - 3;
    year / 400 * DAYS_PER_ERA + DaysBeforeYear(year % 400) + MonthStart(mp) + d.day - 1 - 719_468
  }

  lemma MarchBasedDay(d: Date, mp: nat, yoe: nat)
    requires IsDate(d) && mp == (if d.month <= 2 then d.month + 9 else d.month - 3)
    requires yoe == (if d.month <= 2 then d.year - 1 else d.year) % 400
    ensures var doy := MonthStart(mp) + d.day - 1;
      0 <= doy <= YearEnd(yoe) && (5 * doy + 2) / 153 == mp
  {
    var year := if d.month <= 2 then d.year - 1 else d.year;
    LeapYearOfEra(year / 400, yoe);
    assert year == yoe + year / 400 * 400;
    if mp <= 10 {
      MonthLengths(d.year, mp);
    }
    var doy := MonthStart(mp) + d.day - 1;
    assert mp == 0 || mp == 1 || mp == 2 || mp == 3 || mp == 4 || mp == 5
        || mp == 6 || mp == 7 || mp == 8 || mp == 9 || mp == 10 || mp == 11;
  }

  /** Every date of the calendar is the date of exactly one day: the formula has a two-sided inverse. */
  lemma CivilIsBijection(d: Date, z: int)
    ensures IsDate(d) ==> CivilFromDays(DaysFromCivil(d)) == d
    ensures IsDate(CivilFromDays(z)) && DaysFromCivil(CivilFromDays(z)) == z
  {
    CivilFollowsCalendar(z);
    if IsDate(d) {
      DateOfItsDay(d);
    }
    var date := CivilFromDays(z);
    DateOfItsDay(date);
    var back := DaysFromCivil(date);
    if back < z {
      CivilIsIncreasing(back, z);
    } else if z < back {
      CivilIsIncreasing(z, back);
    }
  }

  lemma DateOfItsDay(d: Date)
    requires IsDate(d)
    ensures CivilFromDays(DaysFromCivil(d)) == d
  {
    var year := if d.month <= 2 then d.year - 1 else d.year;
    var mp := if d.month <= 2 then d.month + 9 else d.month - 3;
    var era, yoe := year / 400, year % 400;
    MarchBasedDay(d, mp, yoe);
    var doy := MonthStart(mp) + d.day - 1;
    assert d == DateInEra(era, yoe, doy) by {
      assert year == yoe + era * 400;
    }
    assert DaysFromCivil(d) == DayNumber(era, yoe, doy);
    CivilDatesEras();
    assert InYear(yoe, doy);
  }
}
