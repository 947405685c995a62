/** The tokens of the weekly plane shift, computed on local dates as the source does. */
module WeekMath {
  import opened Calendar

  /** A `Date` at local midnight. */
  class LocalDate {
    var day: int

    /** `new Date(year, month, date)` */
    constructor (year: int, month: int, date: int)
      requires 0 <= month < 12
      ensures day == DayNumber(year, month, date)
    {
      day := DayNumber(year, month, date);
    }

    function GetFullYear(): int
      reads this
    {
      YearOf(day)
    }

    function GetMonth(): (m: int)
      reads this
      ensures 0 <= m < 12
    {
      MonthOf(day)
    }

    function GetDate(): int
      reads this
    {
      DateOf(day)
    }

    /** 0 for Sunday to 6 for Saturday. */
    function GetDay(): int
      reads this
    {
      (Weekday(day) + 1) % 7
    }

    /** Overflows into the neighbouring months, as `Date.prototype.setDate` does. */
    method SetDate(date: int)
      modifies this
      ensures day == old(day) + date - old(GetDate())
    {
      FieldsNameDay(day);
      day := DayNumber(GetFullYear(), GetMonth(), date);
    }

    /** `d.setDate(d.getDate() + k)` */
    method AddDays(k: int)
      modifies this
      ensures day == old(day) + k
    {
      SetDate(GetDate() + k);
    }
  }

  /** `new Date(date.getFullYear(), date.getMonth(), date.getDate())` */
  method MidnightOf(date: LocalDate) returns (d: LocalDate)
    ensures fresh(d) && d.day == date.day
  {
    FieldsNameDay(date.day);
    d := new LocalDate(date.GetFullYear(), date.GetMonth(), date.GetDate());
  }

  /** `getDay() || 7`: 1 for Monday to 7 for Sunday. */
  function DayNum(d: LocalDate): (k: int)
    reads d
    ensures k == Weekday(d.day) + 1
  {
    if d.GetDay() == 0 then 7 else d.GetDay()
  }

  /** `Math.ceil(n / 7)` */
  function Ceil7(n: int): int { (n + 6) / 7 }

  method IsoWeekOf(date: LocalDate) returns (week: int)
    ensures week == IsoWeek(date.day)
  {
    var d := MidnightOf(date);
    d.AddDays(4 - DayNum(d));
    var yearStart := new LocalDate(d.GetFullYear(), 0, 1);
    week := Ceil7(d.day - yearStart.day + 1);
    WeekOfThursday(date.day, d.day, yearStart.day);
  }

  lemma WeekOfThursday(day: int, thursday: int, yearStart: int)
    requires thursday == day + 4 - (Weekday(day) + 1)
    requires yearStart == DayNumber(YearOf(thursday), 0, 1)
    ensures Ceil7(thursday - yearStart + 1) == IsoWeek(day)
  {
    hide IsoWeek, YearOf, NewYear;
    IsoWeekCountsThursdays(day);
    assert thursday == ThursdayOf(day);
    SevenDays(thursday - yearStart);
  }

  lemma SevenDays(k: int)
    ensures Ceil7(k + 1) == k / 7 + 1
  {}

  method IsoWeekOfLastWeekOfYear(year: int) returns (week: int)
    ensures week == LastWeek(year)
  {
    var d := new LocalDate(year, 11, 28);
    week := IsoWeekOf(d);
  }

  // ----- Printing -----

  function Digit(d: int): char
    requires 0 <= d < 10
  {
    '0' + d as char
  }

  function Decimal(n: nat): (s: string)
    ensures |s| >= 1
  {
    if n < 10 then [Digit(n)] else Decimal(n / 10) + [Digit(n % 10)]
  }

  /** `String(n)` */
  function Print(n: int): string { if n < 0 then "-" + Decimal(-n) else Decimal(n) }

  /** `padStart(2, "0")` */
  function Pad2(s: string): string { if |s| == 0 then "00" else if |s| == 1 then "0" + s else s }

  function FormatIsoWeek(week: int): string { "W" + Pad2(Print(week)) }

  function FormatDay(n: int): string {
    Print(YearOf(n)) + "-" + Pad2(Print(MonthOf(n) + 1)) + "-" + Pad2(Print(DateOf(n)))
  }

  method FormatDate(date: LocalDate) returns (s: string)
    ensures s == FormatDay(date.day)
  {
    var y := date.GetFullYear();
    var m := Pad2(Print(date.GetMonth() + 1));
    var d := Pad2(Print(date.GetDate()));
    s := Print(y) + "-" + m + "-" + d;
  }

  lemma WeekTokenShape(w: int)
    requires 1 <= w <= 53
    ensures FormatIsoWeek(w) == ['W', Digit(w / 10), Digit(w % 10)]
  {
    if w >= 10 {
      assert Decimal(w) == Decimal(w / 10) + [Digit(w % 10)];
    }
  }

  /** The three-character token tells the week number. */
  lemma WeekTokenInjective(v: int, w: int)
    requires 1 <= v <= 53 && 1 <= w <= 53 && FormatIsoWeek(v) == FormatIsoWeek(w)
    ensures v == w
  {
    WeekTokenShape(v);
    WeekTokenShape(w);
    var a, b := FormatIsoWeek(v), FormatIsoWeek(w);
    assert a[1] == b[1] && a[2] == b[2];
    assert v == v / 10 * 10 + v % 10 && w == w / 10 * 10 + w % 10;
  }

  // ----- What a date tells -----

  lemma DigitTells(c: int, d: int)
    requires 0 <= c < 10 && 0 <= d < 10
    ensures Digit(c) == Digit(d) ==> c == d
    ensures Digit(c) != '-'
  {}

  lemma {:induction false} DecimalTells(a: nat, b: nat)
    requires Decimal(a) == Decimal(b)
    ensures a == b
  {
    DigitTells(a % 10, b % 10);
    var s, t := Decimal(a), Decimal(b);
    assert s[|s| - 1] == Digit(a % 10) && t[|t| - 1] == Digit(b % 10);
    if a >= 10 && b >= 10 {
      assert s[..|s| - 1] == Decimal(a / 10) && t[..|t| - 1] == Decimal(b / 10);
      DecimalTells(a / 10, b / 10);
    }
    assert a == a / 10 * 10 + a % 10 && b == b / 10 * 10 + b % 10;
  }

  lemma {:induction false} DecimalUnsigned(n: nat)
    ensures Decimal(n)[0] != '-'
  {
    if n < 10 { DigitTells(n, n); } else { DecimalUnsigned(n / 10); }
  }

  lemma PrintTells(y: int, z: int)
    requires Print(y) == Print(z)
    ensures y == z
  {
    if y >= 0 { DecimalUnsigned(y); }
    if z >= 0 { DecimalUnsigned(z); }
    if y < 0 && z < 0 {
      assert Print(y)[1..] == Decimal(-y) && Print(z)[1..] == Decimal(-z);
      DecimalTells(-y, -z);
    } else if y >= 0 && z >= 0 {
      DecimalTells(y, z);
    }
  }

  lemma TwoDigits(k: int)
    requires 0 <= k < 100
    ensures Pad2(Print(k)) == [Digit(k / 10), Digit(k % 10)]
  {
    if k >= 10 {
      assert Decimal(k) == Decimal(k / 10) + [Digit(k % 10)];
    }
  }

  /** The six characters that end a date: month and day of two digits each. */
  function MonthAndDay(m: int, d: int): string
    requires 0 <= m < 100 && 0 <= d < 100
  {
    ['-', Digit(m / 10), Digit(m % 10), '-', Digit(d / 10), Digit(d % 10)]
  }

  lemma MonthAndDayTell(m: int, d: int, k: int, e: int)
    requires 0 <= m < 100 && 0 <= d < 100 && 0 <= k < 100 && 0 <= e < 100
    requires MonthAndDay(m, d) == MonthAndDay(k, e)
    ensures m == k && d == e
  {
    var s, t := MonthAndDay(m, d), MonthAndDay(k, e);
    assert s[1] == t[1] && s[2] == t[2] && s[4] == t[4] && s[5] == t[5];
    DigitTells(m / 10, k / 10);
    DigitTells(m % 10, k % 10);
    DigitTells(d / 10, e / 10);
    DigitTells(d % 10, e % 10);
  }

  lemma DateParts(n: int)
    ensures 1 <= MonthOf(n) + 1 <= 12 && 1 <= DateOf(n) <= 31
    ensures FormatDay(n) == Print(YearOf(n)) + MonthAndDay(MonthOf(n) + 1, DateOf(n))
  {
    FieldsNameDay(n);
    TwoDigits(MonthOf(n) + 1);
    TwoDigits(DateOf(n));
    hide Print, Pad2, YearOf, MonthOf, DateOf;
  }

  /** The printed date tells the day, for every day there is. */
  lemma DateTellsDay(a: int, b: int)
    requires FormatDay(a) == FormatDay(b)
    ensures a == b
  {
    DateParts(a);
    DateParts(b);
    FieldsNameDay(a);
    FieldsNameDay(b);
    hide FormatDay, Print, YearOf, MonthOf, DateOf;
    SameTail(Print(YearOf(a)), MonthAndDay(MonthOf(a) + 1, DateOf(a)), Print(YearOf(b)), MonthAndDay(MonthOf(b) + 1, DateOf(b)));
    PrintTells(YearOf(a), YearOf(b));
    MonthAndDayTell(MonthOf(a) + 1, DateOf(a), MonthOf(b) + 1, DateOf(b));
  }

  lemma SameTail(a: string, s: string, b: string, t: string)
    requires a + s == b + t && |s| == |t|
    ensures a == b && s == t
  {
    assert (a + s)[..|a|] == a && (b + t)[..|b|] == b;
    assert (a + s)[|a|..] == s && (b + t)[|b|..] == t;
  }

  lemma {:induction false} YearWidth(n: nat)
    ensures |Decimal(n)| == 1 <==> n < 10
    ensures |Decimal(n)| == 2 <==> 10 <= n < 100
    ensures |Decimal(n)| == 3 <==> 100 <= n < 1000
    ensures |Decimal(n)| == 4 <==> 1000 <= n < 10000
  {
    if n >= 10 { YearWidth(n / 10); }
  }

  /** It has the form of an ISO 8601 calendar date, ten characters, exactly in the years 1000 to 9999
      and, with a sign, in the years -999 to -100. */
  lemma DateWidth(n: int)
    ensures |FormatDay(n)| == 10
      <==> 1000 <= YearOf(n) <= 9999 || -999 <= YearOf(n) <= -100
  {
    DateParts(n);
    hide FormatDay, YearOf;
    var y := YearOf(n);
    YearWidth(if y < 0 then -y else y);
  }

  // ----- The shift window -----

  datatype WeekShiftTokens = WeekShiftTokens(fromWeek: string, toWeek: string, startDate: string)

  /** The Monday that opens the target week of a run on day `now`: that of tomorrow's week. */
  function StartDay(now: int): int { MondayOf(now + 1) }

  /** The tokens of the window that opens on `start`: the ISO weeks of the Monday before and of
      `start`, and `start` itself. */
  function TokensOf(start: int): WeekShiftTokens {
    WeekShiftTokens(FormatIsoWeek(IsoWeek(start - 7)), FormatIsoWeek(IsoWeek(start)), FormatDay(start))
  }

  /** The week number before a Monday's, as the wrap finds it. */
  lemma PreviousWeek(monday: int)
    requires Weekday(monday) == 0
    ensures IsoWeek(monday - 7) ==
      if IsoWeek(monday) - 1 < 1 then LastWeek(YearOf(monday) - 1) else IsoWeek(monday) - 1
  {
    hide NewYear, YearOf, LastWeek;
    if IsoWeek(monday) == 1 {
      WeekBeforeFirst(monday);
    } else {
      NextIsoWeek(monday - 7);
    }
  }

  /** The wrap to "the last week of the year before the Monday's" is always the week before. */
  method FromWeek(monday: LocalDate, toWeek: int) returns (fromWeek: int)
    requires Weekday(monday.day) == 0 && toWeek == IsoWeek(monday.day)
    ensures fromWeek == IsoWeek(monday.day - 7)
  {
    hide IsoWeek, NewYear, YearOf, LastWeek;
    fromWeek := toWeek - 1;
    if fromWeek < 1 {
      fromWeek := IsoWeekOfLastWeekOfYear(monday.GetFullYear() - 1);
    }
    PreviousWeek(monday.day);
  }

  method ComputeWeekShiftTokens(now: LocalDate) returns (tokens: WeekShiftTokens)
    ensures tokens == TokensOf(StartDay(now.day))
  {
    hide IsoWeek, YearOf, FormatIsoWeek, FormatDay;
    var monday := MondayOfTomorrow(now);
    var toWeek := IsoWeekOf(monday);
    var fromWeek := FromWeek(monday, toWeek);
    var startDate := FormatDate(monday);
    tokens := WeekShiftTokens(FormatIsoWeek(fromWeek), FormatIsoWeek(toWeek), startDate);
  }

  method MondayOfTomorrow(now: LocalDate) returns (monday: LocalDate)
    ensures fresh(monday) && monday.day == StartDay(now.day) && Weekday(monday.day) == 0
  {
    var tomorrow := MidnightOf(now);
    tomorrow.AddDays(1);
    var dayNum := DayNum(tomorrow);
    monday := MidnightOf(tomorrow);
    monday.AddDays(-(dayNum - 1));
  }

  /** All seven trigger days from a Sunday to the following Saturday open the same window. */
  lemma WindowStable(sunday: int, now: int)
    requires Weekday(sunday) == 6 && sunday <= now < sunday + 7
    ensures StartDay(now) == sunday + 1
  {
    OneWeek(sunday + 1, now + 1);
  }

  /** Windows chain without a gap: a week later the window opens seven days later, on a Monday
      again, and moves from the week this one moves to. */
  lemma WindowsChain(now: int)
    ensures Weekday(StartDay(now)) == 0
    ensures StartDay(now) <= now + 1 < StartDay(now) + 7
    ensures StartDay(now + 7) == StartDay(now) + 7
    ensures TokensOf(StartDay(now + 7)).fromWeek == TokensOf(StartDay(now)).toWeek
  {
    NextStart(now);
  }

  /** The tokens of two runs agree exactly if both open the same window. */
  lemma TokensTellWindow(now: int, later: int)
    ensures TokensOf(StartDay(now)) == TokensOf(StartDay(later)) <==> StartDay(now) == StartDay(later)
  {
    hide FormatDay, FormatIsoWeek, IsoWeek;
    if TokensOf(StartDay(now)) == TokensOf(StartDay(later)) {
      DateTellsDay(StartDay(now), StartDay(later));
    }
  }

  lemma NextStart(now: int)
    ensures StartDay(now + 7) == StartDay(now) + 7
  {}

  // ----- The windows by their dates -----

  lemma Year2026()
    ensures Print(2026) == "2026"
  {
    assert Decimal(20) == Decimal(2) + [Digit(0)];
    assert Decimal(202) == Decimal(20) + [Digit(2)];
    assert Decimal(2026) == Decimal(202) + [Digit(6)];
  }

  /** The run of Sunday 2026-08-16 opens the week of the 17th, those of the six days after it do so
      too, and every seven days the window moves by seven days. */
  lemma WindowsByDate(j: int)
    ensures StartDay(DayNumber(2026, 7, 16) + j) == DayNumber(2026, 7, 17) + 7 * (j / 7)
  {
    var monday := DayNumber(2026, 7, 17);
    assert Zeller(2026, 8, 17) == 2;
    WeekdayByZeller(2026, 8, 17);
    assert DayNumber(2026, 7, 16) == monday - 1;
    hide DayNumber, Zeller;
    OneWeek(monday + 7 * (j / 7), monday + j);
  }

  /** The tokens of that run. */
  lemma TokensOf20260816(sunday: int)
    requires sunday == DayNumber(2026, 7, 16)
    ensures TokensOf(StartDay(sunday)) == WeekShiftTokens("W33", "W34", "2026-08-17")
  {
    hide IsoWeek, YearOf, MonthOf, DateOf, NewYear, MonthStart, FormatDay, FormatIsoWeek, Print, Digit;
    WindowsByDate(0);
    var monday := StartDay(sunday);
    WeeksOfAugust(2026, monday);
    WeekTokens();
    DayHasFields(2026, 7, 17);
    DateParts(monday);
    Year2026();
    AugustSeventeenth();
  }

  lemma WeekTokens()
    ensures FormatIsoWeek(33) == "W33" && FormatIsoWeek(34) == "W34"
  {
    WeekTokenShape(33);
    WeekTokenShape(34);
  }

  lemma AugustSeventeenth()
    ensures "2026" + MonthAndDay(8, 17) == "2026-08-17"
  {}

  /** The week of a day from the date of its Thursday. */
  lemma WeekByThursday(n: int, y: int, m: int, d: int)
    requires 0 <= m < 12 && 1 <= d <= MonthLength(y, m) && ThursdayOf(n) == DayNumber(y, m, d)
    ensures IsoWeek(n) == (MonthStart(y, m) + d - 1) / 7 + 1
  {
    DayHasFields(y, m, d);
    IsoWeekCountsThursdays(n);
    hide IsoWeek, YearOf, NewYear, MonthStart;
  }

  lemma ThursdayDates(y: int, monday: int)
    requires monday == DayNumber(y, 7, 17) && Weekday(monday) == 0
    ensures ThursdayOf(monday) == DayNumber(y, 7, 20) && ThursdayOf(monday - 7) == DayNumber(y, 7, 13)
  {
    hide NewYear, MonthStart;
  }

  /** In common years in which 17 August is a Monday, it opens week 34. */
  lemma WeeksOfAugust(y: int, monday: int)
    requires !Leap(y) && monday == DayNumber(y, 7, 17) && Weekday(monday) == 0
    ensures IsoWeek(monday) == 34 && IsoWeek(monday - 7) == 33
  {
    ThursdayDates(y, monday);
    MonthStarts(y, 8);
    hide IsoWeek, NewYear, MonthStart, DayNumber, ThursdayOf, Weekday, YearOf, Leap;
    WeekByThursday(monday, y, 7, 20);
    WeekByThursday(monday - 7, y, 7, 13);
  }
}
