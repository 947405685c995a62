/** The proleptic Gregorian calendar on day numbers, and ISO 8601 weeks. Day 0 is the Monday
    0001-01-01; every integer is a date. */
module Calendar {

  predicate Leap(y: int) { y % 4 == 0 && (y % 100 != 0 || y % 400 == 0) }

  function YearLength(y: int): int { if Leap(y) then 366 else 365 }

  /** The number of the first of January of year `y`. */
  function NewYear(y: int): int { 365 * (y - 1) + (y - 1) / 4 - (y - 1) / 100 + (y - 1) / 400 }

  lemma Quarters(y: int)
    ensures y / 4 == (y - 1) / 4 + (if y % 4 == 0 then 1 else 0)
  {}

  lemma Centuries(y: int)
    ensures y / 100 == (y - 1) / 100 + (if y % 100 == 0 then 1 else 0)
    ensures y % 100 == 0 ==> y % 4 == 0
  {}

  lemma FourCenturies(y: int)
    ensures y / 400 == (y - 1) / 400 + (if y % 400 == 0 then 1 else 0)
    ensures y % 400 == 0 ==> y % 100 == 0
  {}

  lemma NextNewYear(y: int)
    ensures NewYear(y + 1) == NewYear(y) + YearLength(y)
  {
    Quarters(y);
    Centuries(y);
    FourCenturies(y);
  }

  lemma {:induction false} NewYearIncreases(y: int, z: int)
    requires y < z
    ensures NewYear(y) < NewYear(z)
    decreases z - y
  {
    NextNewYear(y);
    if y + 1 < z { NewYearIncreases(y + 1, z); }
  }

  function YearUp(n: int, y: int): (r: int)
    requires NewYear(y) <= n
    ensures NewYear(r) <= n < NewYear(r + 1)
    decreases n - NewYear(y)
  {
    NextNewYear(y);
    if n < NewYear(y + 1) then y else YearUp(n, y + 1)
  }

  function YearDown(n: int, y: int): (r: int)
    requires n < NewYear(y + 1)
    ensures NewYear(r) <= n < NewYear(r + 1)
    decreases NewYear(y + 1) - n
  {
    NextNewYear(y);
    if NewYear(y) <= n then y else YearDown(n, y - 1)
  }

  /** The year a day falls in (`getFullYear`). */
  function YearOf(n: int): (r: int)
    ensures NewYear(r) <= n < NewYear(r + 1)
  {
    if n >= 0 then YearUp(n, 1) else YearDown(n, 0)
  }

  lemma YearUnique(n: int, y: int)
    requires NewYear(y) <= n < NewYear(y + 1)
    ensures YearOf(n) == y
  {
    hide NewYear, YearUp, YearDown;
    if YearOf(n) < y { NewYearAtMost(YearOf(n) + 1, y); }
    if y < YearOf(n) { NewYearAtMost(y + 1, YearOf(n)); }
  }

  lemma NewYearAtMost(y: int, z: int)
    requires y <= z
    ensures NewYear(y) <= NewYear(z)
  {
    if y < z { NewYearIncreases(y, z); }
  }

  // ----- Months, counted from 0 as in JavaScript -----

  function MonthLength(y: int, m: int): int {
    if m == 1 then (if Leap(y) then 29 else 28)
    else if m == 3 || m == 5 || m == 8 || m == 10 then 30 else 31
  }

  /** Days of the year before month `m`. */
  function MonthStart(y: int, m: int): int
    requires 0 <= m <= 12
  {
    if m == 0 then 0 else MonthStart(y, m - 1) + MonthLength(y, m - 1)
  }

  /** Day `d` of month `m`; `d` may lie outside the month, as for `setDate`. */
  function DayNumber(y: int, m: int, d: int): int
    requires 0 <= m < 12
  {
    NewYear(y) + MonthStart(y, m) + d - 1
  }

  lemma MonthsFillYear(y: int)
    ensures MonthStart(y, 12) == YearLength(y)
    ensures MonthStart(y, 11) == YearLength(y) - 31
  {
    var february := MonthLength(y, 1);
    assert MonthStart(y, 1) == 31;
    assert MonthStart(y, 2) == 31 + february;
    assert MonthStart(y, 4) == 92 + february;
    assert MonthStart(y, 6) == 153 + february;
    assert MonthStart(y, 8) == 215 + february;
    assert MonthStart(y, 10) == 276 + february;
    assert MonthStart(y, 12) == 337 + february;
  }

  function MonthFrom(y: int, m: int, offset: int): (r: int)
    requires 0 <= m < 12 && MonthStart(y, m) <= offset < YearLength(y)
    ensures m <= r < 12 && MonthStart(y, r) <= offset < MonthStart(y, r + 1)
    decreases 12 - m
  {
    MonthsFillYear(y);
    if offset < MonthStart(y, m + 1) then m else MonthFrom(y, m + 1, offset)
  }

  /** `getMonth` */
  function MonthOf(n: int): (r: int)
    ensures 0 <= r < 12
  {
    NextNewYear(YearOf(n));
    MonthFrom(YearOf(n), 0, n - NewYear(YearOf(n)))
  }

  /** `getDate` */
  function DateOf(n: int): int { n - NewYear(YearOf(n)) - MonthStart(YearOf(n), MonthOf(n)) + 1 }

  /** The calendar fields of a day are valid and name it alone. */
  lemma FieldsNameDay(n: int)
    ensures 1 <= DateOf(n) <= MonthLength(YearOf(n), MonthOf(n))
    ensures DayNumber(YearOf(n), MonthOf(n), DateOf(n)) == n
  {
    NextNewYear(YearOf(n));
    assert MonthOf(n) == MonthFrom(YearOf(n), 0, n - NewYear(YearOf(n)));
  }

  lemma {:induction false} MonthStartInYear(y: int, m: int, d: int)
    requires 0 <= m < 12 && 1 <= d <= MonthLength(y, m)
    ensures 0 <= MonthStart(y, m)
    ensures MonthStart(y, m) + d <= YearLength(y)
    decreases 12 - m
  {
    MonthsFillYear(y);
    if m < 11 { MonthStartInYear(y, m + 1, 1); }
    MonthStartNatural(y, m);
  }

  lemma {:induction false} MonthStartNatural(y: int, m: int)
    requires 0 <= m <= 12
    ensures 0 <= MonthStart(y, m)
  {
    if m > 0 { MonthStartNatural(y, m - 1); }
  }

  lemma MonthsDisjoint(y: int, m: int, k: int)
    requires 0 <= m < k < 12
    ensures MonthStart(y, m + 1) <= MonthStart(y, k)
    decreases k - m
  {
    if m + 1 < k { MonthsDisjoint(y, m, k - 1); }
  }

  /** Valid fields come back from the day they name. */
  lemma DayHasFields(y: int, m: int, d: int)
    requires 0 <= m < 12 && 1 <= d <= MonthLength(y, m)
    ensures var n := DayNumber(y, m, d); YearOf(n) == y && MonthOf(n) == m && DateOf(n) == d
  {
    var n := DayNumber(y, m, d);
    MonthStartInYear(y, m, d);
    NextNewYear(y);
    YearUnique(n, y);
    var k := MonthOf(n);
    assert MonthStart(y, k) <= n - NewYear(y) < MonthStart(y, k + 1) by {
      assert k == MonthFrom(y, 0, n - NewYear(y));
    }
    if k < m { MonthsDisjoint(y, k, m); }
    if m < k { MonthsDisjoint(y, m, k); }
  }

  // ----- ISO 8601 weeks -----

  /** 0 for Monday to 6 for Sunday. */
  function Weekday(n: int): int { n % 7 }

  function MondayOf(n: int): int { n - Weekday(n) }

  function ThursdayOf(n: int): int { MondayOf(n) + 3 }

  /** Zeller's congruence, with January and February counted as months 13 and 14 of the year before:
      0 for Saturday to 6 for Friday. */
  function Zeller(y: int, m: int, d: int): int {
    var month, year := if m < 3 then m + 12 else m, if m < 3 then y - 1 else y;
    ZellerSum(month, year / 100, year % 100, d) % 7
  }

  function ZellerSum(month: int, j: int, k: int, d: int): int {
    d + 13 * (month + 1) / 5 + k + k / 4 + j / 4 + 5 * j
  }

  lemma MonthStarts(y: int, m: int)
    requires 1 <= m <= 12
    ensures m < 3 ==> MonthStart(y, m - 1) == 13 * (m + 13) / 5 + 28 * m - 64
    ensures m >= 3 ==> MonthStart(y, m - 1) == 13 * (m + 1) / 5 + 28 * m - 35 + (if Leap(y) then 1 else 0)
  {
    MonthsFillYear(y);
    assert MonthStart(y, 0) == 0 && MonthStart(y, 1) == 31;
    assert MonthStart(y, 2) == MonthStart(y, 1) + MonthLength(y, 1);
    assert MonthStart(y, 4) == MonthStart(y, 2) + 61 && MonthStart(y, 6) == MonthStart(y, 4) + 61;
    assert MonthStart(y, 8) == MonthStart(y, 6) + 62 && MonthStart(y, 10) == MonthStart(y, 8) + 61;
  }

  /** The first of January after year `100 * j + k`. */
  lemma CenturyStart(j: int, k: int)
    requires 0 <= k < 100
    ensures NewYear(100 * j + k + 1) == 36524 * j + 365 * k + k / 4 + j / 4
  {
    var y := 100 * j + k;
    assert y / 4 == 25 * j + k / 4;
    assert y / 100 == j;
    assert y / 400 == j / 4;
  }

  lemma SameRemainder(a: int, b: int, q: int)
    requires a == b + 7 * q
    ensures a % 7 == b % 7
  {}

  /** Every date of the Gregorian calendar falls on the weekday that Zeller's congruence gives. */
  lemma WeekdayByZeller(y: int, m: int, d: int)
    requires 1 <= m <= 12
    ensures Weekday(DayNumber(y, m - 1, d)) == (Zeller(y, m, d) + 5) % 7
  {
    MonthStarts(y, m);
    hide NewYear, MonthStart, Leap;
    var year := if m < 3 then y - 1 else y;
    var j, k := year / 100, year % 100;
    CenturyStart(j, k);
    NextNewYear(y);
    var month := if m < 3 then m + 12 else m;
    var sum := ZellerSum(month, j, k, d);
    SameRemainder(DayNumber(y, m - 1, d), sum + 5, 5217 * j + 52 * k + 4 * m - (if m < 3 then 10 else 58));
    SevensAway(sum);
  }

  lemma SevensAway(sum: int)
    ensures (sum + 5) % 7 == (sum % 7 + 5) % 7
  {}

  /** Whether the week of `n` is the first of its year: the one with the year's first Thursday. */
  predicate FirstWeek(n: int) {
    YearOf(ThursdayOf(n) - 7) != YearOf(ThursdayOf(n))
  }

  lemma EarlierThursday(n: int)
    ensures FirstWeek(n) <==> ThursdayOf(n) - NewYear(YearOf(ThursdayOf(n))) < 7
    ensures !FirstWeek(n) ==> YearOf(ThursdayOf(n) - 7) == YearOf(ThursdayOf(n))
  {
    hide NewYear;
    var t := ThursdayOf(n);
    if t - 7 >= NewYear(YearOf(t)) {
      YearUnique(t - 7, YearOf(t));
    }
  }

  function DaysIntoYear(n: int): int { ThursdayOf(n) - NewYear(YearOf(ThursdayOf(n))) }

  lemma WeekEarlier(n: int)
    ensures !FirstWeek(n) ==> 0 <= DaysIntoYear(n - 7) < DaysIntoYear(n)
  {
    EarlierThursday(n);
    hide NewYear, YearOf;
    assert ThursdayOf(n - 7) == ThursdayOf(n) - 7;
  }

  /** The calendar week number of ISO 8601:2004, section 2.2.10: weeks start on Monday, the first
      week of a year is the one that includes its first Thursday, and the others count on. */
  function IsoWeek(n: int): (w: int)
    ensures w >= 1
    decreases DaysIntoYear(n)
  {
    WeekEarlier(n);
    if FirstWeek(n) then 1 else 1 + IsoWeek(n - 7)
  }

  lemma {:induction false} IsoWeekCountsThursdays(n: int)
    ensures IsoWeek(n) == (ThursdayOf(n) - NewYear(YearOf(ThursdayOf(n)))) / 7 + 1
    decreases ThursdayOf(n) - NewYear(YearOf(ThursdayOf(n)))
  {
    hide NewYear, YearOf;
    EarlierThursday(n);
    if !FirstWeek(n) {
      IsoWeekCountsThursdays(n - 7);
    }
  }

  lemma IsoWeekRange(n: int)
    ensures 1 <= IsoWeek(n) <= 53
  {
    hide NewYear, YearOf;
    IsoWeekCountsThursdays(n);
    NextNewYear(YearOf(ThursdayOf(n)));
  }

  lemma SameWeek(n: int, m: int)
    requires MondayOf(n) == MondayOf(m)
    ensures IsoWeek(n) == IsoWeek(m)
  {
    hide NewYear, YearOf, IsoWeek;
    IsoWeekCountsThursdays(n);
    IsoWeekCountsThursdays(m);
  }

  /** Week numbers lie in 1..53, stay from Monday to Sunday, and from one week to the next rise by
      one or return to 1, the latter exactly when a year's first Thursday comes. */
  lemma IsoWeekLaws(n: int)
    ensures 1 <= IsoWeek(n) <= 53
    ensures forall m :: MondayOf(n) <= m < MondayOf(n) + 7 ==> IsoWeek(m) == IsoWeek(n)
    ensures IsoWeek(n + 7) == if FirstWeek(n + 7) then 1 else IsoWeek(n) + 1
  {
    hide IsoWeek, YearOf, FirstWeek, ThursdayOf;
    IsoWeekRange(n);
    NextIsoWeek(n);
    forall m | MondayOf(n) <= m < MondayOf(n) + 7 ensures IsoWeek(m) == IsoWeek(n) {
      WholeWeek(n, m);
      SameWeek(n, m);
    }
  }

  lemma WholeWeek(n: int, m: int)
    requires MondayOf(n) <= m < MondayOf(n) + 7
    ensures MondayOf(m) == MondayOf(n)
  {}

  lemma NextIsoWeek(n: int)
    ensures IsoWeek(n + 7) == if FirstWeek(n + 7) then 1 else IsoWeek(n) + 1
  {
    assert n + 7 - 7 == n;
  }

  lemma OneWeek(monday: int, m: int)
    requires Weekday(monday) == 0 && monday <= m < monday + 7
    ensures MondayOf(m) == monday
  {}

  /** The Thursdays of a year of `length` days from `jan1`, seen from its fourth day from the end. */
  lemma ThursdaysOfYear(jan1: int, length: int)
    requires length == 365 || length == 366
    ensures var last := (ThursdayOf(jan1 + length - 4) - jan1) / 7 + 1;
      (last == 52 || last == 53)
      && (last == 53 <==> Weekday(jan1) == 3 || (length == 366 && Weekday(jan1) == 2))
  {
    var d := jan1 + length - 4;
    assert Weekday(d) == (Weekday(jan1) + length - 4) % 7;
    assert ThursdayOf(d) - jan1 == length - 1 - Weekday(d);
  }

  function LastWeek(y: int): int { IsoWeek(DayNumber(y, 11, 28)) }

  lemma December28(y: int)
    ensures DayNumber(y, 11, 28) == NewYear(y + 1) - 4
    ensures YearOf(ThursdayOf(DayNumber(y, 11, 28))) == y
  {
    hide NewYear, YearOf, MonthStart;
    MonthsFillYear(y);
    NextNewYear(y);
    YearUnique(ThursdayOf(NewYear(y + 1) - 4), y);
  }

  /** 28 December lies in the last week of its year: the week after it belongs to the next. */
  lemma December28EndsYear(y: int)
    ensures FirstWeek(DayNumber(y, 11, 28) + 7)
    ensures YearOf(ThursdayOf(DayNumber(y, 11, 28) + 7)) == y + 1
  {
    hide NewYear, YearOf, MonthStart;
    December28(y);
    NextNewYear(y + 1);
    YearUnique(ThursdayOf(DayNumber(y, 11, 28) + 7), y + 1);
  }

  /** A year has 53 weeks exactly when it starts on a Thursday, or is a leap year that starts on
      a Wednesday; otherwise it has 52. */
  lemma LongYears(y: int)
    ensures LastWeek(y) == 52 || LastWeek(y) == 53
    ensures LastWeek(y) == 53
      <==> Weekday(NewYear(y)) == 3 || (Leap(y) && Weekday(NewYear(y)) == 2)
  {
    hide NewYear, YearOf, IsoWeek, DayNumber;
    December28(y);
    NextNewYear(y);
    IsoWeekCountsThursdays(DayNumber(y, 11, 28));
    ThursdaysOfYear(NewYear(y), YearLength(y));
  }

  /** The week before a first week is the last week of the year before the Monday's, although the
      Monday may still lie in the old year: then neither that year nor the one before is long. */
  lemma WeekBeforeFirst(monday: int)
    requires Weekday(monday) == 0 && IsoWeek(monday) == 1
    ensures IsoWeek(monday - 7) == LastWeek(YearOf(monday) - 1)
  {
    hide NewYear, YearOf, IsoWeek;
    if YearOf(monday + 3) == YearOf(monday) {
      JanuaryMonday(monday);
    } else {
      WeekAcrossNewYear(monday);
      WeekBeforeNewYear(monday, YearOf(monday));
      NeitherYearLong(monday);
    }
  }

  lemma JanuaryMonday(monday: int)
    requires Weekday(monday) == 0 && IsoWeek(monday) == 1 && YearOf(monday + 3) == YearOf(monday)
    ensures IsoWeek(monday - 7) == LastWeek(YearOf(monday) - 1)
  {
    hide NewYear, YearOf;
    EarlierThursday(monday);
    WeekBeforeNewYear(monday, YearOf(monday) - 1);
  }

  /** A week that holds 1 January, or 4 January, follows the week of 28 December. */
  lemma WeekBeforeNewYear(monday: int, y: int)
    requires Weekday(monday) == 0 && NewYear(y + 1) - 3 <= monday <= NewYear(y + 1) + 3
    ensures IsoWeek(monday - 7) == LastWeek(y)
  {
    hide NewYear, YearOf, IsoWeek, DayNumber;
    December28(y);
    WeekBefore(monday, NewYear(y + 1));
    SameWeek(DayNumber(y, 11, 28), monday - 7);
  }

  lemma WeekBefore(monday: int, jan1: int)
    requires Weekday(monday) == 0 && jan1 - 3 <= monday <= jan1 + 3
    ensures MondayOf(jan1 - 4) == MondayOf(monday - 7)
  {}

  /** A Monday whose Thursday lies in the next year is one of the last three days of its year. */
  lemma WeekAcrossNewYear(monday: int)
    ensures YearOf(monday + 3) != YearOf(monday) ==>
      NewYear(YearOf(monday) + 1) - 3 <= monday < NewYear(YearOf(monday) + 1)
  {
    hide NewYear;
    if monday + 3 < NewYear(YearOf(monday) + 1) {
      YearUnique(monday + 3, YearOf(monday));
    }
  }

  /** If a Monday is 29, 30 or 31 December, neither its year nor the year before has 53 weeks. */
  lemma NeitherYearLong(monday: int)
    requires Weekday(monday) == 0
    requires NewYear(YearOf(monday) + 1) - 3 <= monday < NewYear(YearOf(monday) + 1)
    ensures LastWeek(YearOf(monday)) == 52 && LastWeek(YearOf(monday) - 1) == 52
  {
    hide NewYear, YearOf, IsoWeek;
    var y := YearOf(monday);
    LongYears(y);
    LongYears(y - 1);
    NextNewYear(y);
    NextNewYear(y - 1);
    NewYearDays(NewYear(y - 1), YearLength(y - 1), YearLength(y), monday);
  }

  /** Two years after one another end on such a Monday only if neither starts like a long year. */
  lemma NewYearDays(jan1: int, first: int, second: int, monday: int)
    requires first in {365, 366} && second in {365, 366}
    requires Weekday(monday) == 0 && jan1 + first + second - 3 <= monday < jan1 + first + second
    ensures Weekday(jan1) != 3 && (first == 366 ==> Weekday(jan1) != 2)
    ensures Weekday(jan1 + first) != 3 && (second == 366 ==> Weekday(jan1 + first) != 2)
  {
    var k := jan1 + first + second - monday;
    assert Weekday(jan1) == (k - first - second) % 7;
    assert Weekday(jan1 + first) == (k - second) % 7;
  }
}
