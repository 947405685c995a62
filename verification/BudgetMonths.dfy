/** What the daily caps leave of the monthly caps, which are declared and never consulted. */
module BudgetMonths {
  import opened BudgetLedger
  import opened BudgetCaps
  import Calendar
  import WeekMath

  /** The monthly amounts are kept but never consulted: on a new day of the month a cost of the
      full daily allowance is approved whatever was used before. */
  lemma MonthlyUseNeverChecked(b: Budget, e: Employee, now: Timestamp)
    requires InBalance(b) && DayOf(now) != b.day && MonthOf(now) == b.month
    requires e.maxCostPerTask >= EMPLOYEE_DAILY_CAP
    ensures var r := Refresh(b, now);
      && Check(r, e, EMPLOYEE_DAILY_CAP) == Approved
      && Used(Spent(r, e.employeeId, EMPLOYEE_DAILY_CAP).employeeMonthly, e.employeeId)
           == Used(b.employeeMonthly, e.employeeId) + EMPLOYEE_DAILY_CAP
  {}

  // ----- Days with a record -----

  predicate Concerned(op: Op, who: Who) { op.Recording? && (who.Everybody? || who.id == op.id) }

  /** How many records there were since the clock last showed another period. */
  function RecordsSince(ops: seq<Op>, period: Timestamp -> string, shown: string, who: Who): nat {
    if ops == [] || period(ops[|ops| - 1].at) != shown then 0
    else RecordsSince(ops[..|ops| - 1], period, shown, who) + (if Concerned(ops[|ops| - 1], who) then 1 else 0)
  }

  /** How many daily periods with a record there were since the clock last showed another month. */
  function BusyDays(ops: seq<Op>, month: string, who: Who): nat {
    if ops == [] || MonthOf(ops[|ops| - 1].at) != month then 0
    else BusyDays(ops[..|ops| - 1], month, who) + (if OpensDay(ops, who) then 1 else 0)
  }

  /** The last operation is the first record of its daily period. */
  predicate OpensDay(ops: seq<Op>, who: Who)
    requires ops != []
  {
    var op := ops[|ops| - 1];
    Concerned(op, who) && RecordsSince(ops[..|ops| - 1], DayOf, DayOf(op.at), who) == 0
  }

  /** Daily spending never rises above an amount. */
  ghost predicate AlwaysWithin(ops: seq<Op>, who: Who, cap: real) {
    ops != [] ==>
      && AlwaysWithin(ops[..|ops| - 1], who, cap)
      && SpendSince(ops, DayOf, DayOf(ops[|ops| - 1].at), who) <= cap
  }

  lemma {:induction false} NoRecordNoSpend(ops: seq<Op>, period: Timestamp -> string, shown: string, who: Who)
    ensures RecordsSince(ops, period, shown, who) == 0 ==> SpendSince(ops, period, shown, who) == 0.0
  {
    if ops != [] && period(ops[|ops| - 1].at) == shown {
      NoRecordNoSpend(ops[..|ops| - 1], period, shown, who);
    }
  }

  /** The bound, with the share of the current day exact. */
  ghost predicate MonthBounded(ops: seq<Op>, who: Who, cap: real)
    requires ops != []
  {
    var t := ops[|ops| - 1].at;
    var busy, today := BusyDays(ops, MonthOf(t), who), SpendSince(ops, DayOf, DayOf(t), who);
    var before := if RecordsSince(ops, DayOf, DayOf(t), who) == 0 then busy else busy - 1;
    && before >= 0
    && SpendSince(ops, MonthOf, MonthOf(t), who) <= Allowance(cap, before) + today
  }

  lemma DayTellsMonth(s: Timestamp, t: Timestamp)
    ensures DayOf(s) == DayOf(t) ==> MonthOf(s) == MonthOf(t)
  {
    assert DayOf(s)[..7] == MonthOf(s) && DayOf(t)[..7] == MonthOf(t);
  }

  lemma {:induction false} MonthIsBounded(ops: seq<Op>, who: Who, cap: real)
    requires ops != [] && cap >= 0.0 && AlwaysWithin(ops, who, cap)
    ensures MonthBounded(ops, who, cap)
  {
    var front, op := ops[..|ops| - 1], ops[|ops| - 1];
    if front != [] && MonthOf(front[|front| - 1].at) == MonthOf(op.at) {
      MonthIsBounded(front, who, cap);
      MonthGoesOn(ops, who, cap);
    } else {
      MonthBegins(ops, who, cap);
    }
  }

  /** So much for each day. */
  function Allowance(cap: real, days: int): real { cap * days as real }

  lemma OneDayMore(cap: real, days: int)
    ensures Allowance(cap, days - 1) + cap == Allowance(cap, days)
  {}

  lemma MonthBegins(ops: seq<Op>, who: Who, cap: real)
    requires ops != [] && cap >= 0.0
    requires |ops| > 1 ==> MonthOf(ops[|ops| - 2].at) != MonthOf(ops[|ops| - 1].at)
    ensures MonthBounded(ops, who, cap)
  {
    var front, t := ops[..|ops| - 1], ops[|ops| - 1].at;
    if front != [] { DayTellsMonth(front[|front| - 1].at, t); }
    assert BusyDays(front, MonthOf(t), who) == 0 && RecordsSince(front, DayOf, DayOf(t), who) == 0;
    assert SpendSince(front, MonthOf, MonthOf(t), who) == 0.0 && SpendSince(front, DayOf, DayOf(t), who) == 0.0;
  }

  lemma MonthGoesOn(ops: seq<Op>, who: Who, cap: real)
    requires |ops| > 1 && cap >= 0.0 && MonthBounded(ops[..|ops| - 1], who, cap)
    requires MonthOf(ops[|ops| - 2].at) == MonthOf(ops[|ops| - 1].at)
    requires SpendSince(ops[..|ops| - 1], DayOf, DayOf(ops[|ops| - 2].at), who) <= cap
    ensures MonthBounded(ops, who, cap)
  {
    var front, op := ops[..|ops| - 1], ops[|ops| - 1];
    var s, t := front[|front| - 1].at, op.at;
    var busy: int := BusyDays(front, MonthOf(t), who);
    NoRecordNoSpend(front, DayOf, DayOf(s), who);
    NoRecordNoSpend(front, DayOf, DayOf(t), who);
    OneDayMore(cap, busy);
    hide Allowance;
    var records := RecordsSince(front, DayOf, DayOf(t), who);
    assert SpendSince(ops, MonthOf, MonthOf(t), who) == SpendSince(front, MonthOf, MonthOf(t), who) + Share(op, who);
    assert SpendSince(ops, DayOf, DayOf(t), who) == SpendSince(front, DayOf, DayOf(t), who) + Share(op, who);
    assert RecordsSince(ops, DayOf, DayOf(t), who) == records + (if Concerned(op, who) then 1 else 0);
    assert BusyDays(ops, MonthOf(t), who) == busy + (if Concerned(op, who) && records == 0 then 1 else 0);
    assert DayOf(s) != DayOf(t) ==> records == 0;
  }

  // ----- Covered runs -----

  lemma {:induction false} BackedStaysWithin(start: Timestamp, ops: seq<Op>, id: string)
    requires Backed(start, ops)
    ensures AlwaysWithin(ops, Only(id), EMPLOYEE_DAILY_CAP)
    ensures AlwaysWithin(ops, Everybody, COMPANY_DAILY_CAP)
  {
    if ops != [] {
      hide Run, SpendSince, DayOf, MonthOf, Backs;
      BackedStaysWithin(start, ops[..|ops| - 1], id);
      BackedRunKeepsCaps(start, ops);
      UseIsSpend(start, ops, id);
      RunClock(start, ops);
      assert Used(Run(start, ops).employeeDaily, id) <= EMPLOYEE_DAILY_CAP;
    }
  }

  /** In a covered run the monthly use is at most the daily cap for each day with a record. */
  lemma MonthlyUseBound(start: Timestamp, ops: seq<Op>, id: string)
    requires Backed(start, ops)
    ensures var b := Run(start, ops);
      && Used(b.employeeMonthly, id) <= Allowance(EMPLOYEE_DAILY_CAP, BusyDays(ops, b.month, Only(id)))
      && b.companyMonthly <= Allowance(COMPANY_DAILY_CAP, BusyDays(ops, b.month, Everybody))
  {
    BackedStaysWithin(start, ops, id);
    UseIsSpend(start, ops, id);
    RunClock(start, ops);
    hide Run, AlwaysWithin, SpendSince, BusyDays, MonthOf, Allowance;
    MonthWithin(ops, Run(start, ops).month, Only(id), EMPLOYEE_DAILY_CAP);
    MonthWithin(ops, Run(start, ops).month, Everybody, COMPANY_DAILY_CAP);
  }

  lemma MonthWithin(ops: seq<Op>, month: string, who: Who, cap: real)
    requires cap >= 0.0 && AlwaysWithin(ops, who, cap) && (ops != [] ==> month == MonthOf(ops[|ops| - 1].at))
    ensures SpendSince(ops, MonthOf, month, who) <= Allowance(cap, BusyDays(ops, month, who))
  {
    if ops != [] {
      MonthIsBounded(ops, who, cap);
      hide MonthBounded, AlwaysWithin, Allowance, SpendSince, BusyDays;
      BoundRounds(ops, who, cap);
    }
  }

  lemma BoundRounds(ops: seq<Op>, who: Who, cap: real)
    requires ops != [] && cap >= 0.0 && MonthBounded(ops, who, cap) && AlwaysWithin(ops, who, cap)
    ensures var month := MonthOf(ops[|ops| - 1].at);
      SpendSince(ops, MonthOf, month, who) <= Allowance(cap, BusyDays(ops, month, who))
  {
    var t := ops[|ops| - 1].at;
    hide BusyDays, SpendSince, RecordsSince, DayOf, MonthOf;
    NoRecordNoSpend(ops, DayOf, DayOf(t), who);
    OneDayMore(cap, BusyDays(ops, MonthOf(t), who));
    hide Allowance;
  }

  // ----- A spree -----

  const TEAM: seq<string> := ["a", "b", "c", "d", "e"]

  /** Noon of a day of August 2026, the first for 0, as `toISOString` prints it. */
  function Noon(d: nat): (t: Timestamp)
    requires d < 31
  {
    "2026-08-" + [WeekMath.Digit((d + 1) / 10), WeekMath.Digit((d + 1) % 10)] + "T12:00:00.000Z"
  }

  lemma DaysDiffer(c: nat, d: nat)
    requires c < 31 && d < 31
    ensures MonthOf(Noon(d)) == "2026-08"
    ensures c != d ==> DayOf(Noon(c)) != DayOf(Noon(d))
  {
    assert DayOf(Noon(c))[8..] == [WeekMath.Digit((c + 1) / 10), WeekMath.Digit((c + 1) % 10)];
    assert DayOf(Noon(d))[8..] == [WeekMath.Digit((d + 1) / 10), WeekMath.Digit((d + 1) % 10)];
    assert c + 1 == (c + 1) / 10 * 10 + (c + 1) % 10 && d + 1 == (d + 1) / 10 * 10 + (d + 1) % 10;
    if DayOf(Noon(c)) == DayOf(Noon(d)) {
      assert DayOf(Noon(c))[8] == DayOf(Noon(d))[8] && DayOf(Noon(c))[9] == DayOf(Noon(d))[9];
    }
  }

  /** A check of 10 USD and its record. */
  function Asking(id: string, t: Timestamp): Op { Checking(Employee(id, Thinking, 10.0), 10.0, t) }

  function Paying(id: string, t: Timestamp): Op { Recording(id, "task", 1000000, "gemini-3.0-pro", t) }

  /** The first `team` employees spend 10 USD each on `d` days, and `k` of them on the next. */
  function Spree(team: nat, d: nat, k: nat): seq<Op>
    requires k <= team <= 5 && d < 31
    decreases d, k
  {
    if k > 0 then Spree(team, d, k - 1) + [Asking(TEAM[k - 1], Noon(d))] + [Paying(TEAM[k - 1], Noon(d))]
    else if d > 0 then Spree(team, d - 1, team)
    else []
  }

  function Paid(id: string, who: Who): bool { who.Everybody? || who.id == id }

  /** What a check and its record add to the counts of a period. */
  lemma PairAdds(ops: seq<Op>, id: string, t: Timestamp, who: Who)
    ensures var longer := ops + [Asking(id, t)] + [Paying(id, t)];
      && SpendSince(longer, DayOf, DayOf(t), who) == SpendSince(ops, DayOf, DayOf(t), who) + (if Paid(id, who) then 10.0 else 0.0)
      && SpendSince(longer, MonthOf, MonthOf(t), who) == SpendSince(ops, MonthOf, MonthOf(t), who) + (if Paid(id, who) then 10.0 else 0.0)
      && RecordsSince(longer, DayOf, DayOf(t), who) == RecordsSince(ops, DayOf, DayOf(t), who) + (if Paid(id, who) then 1 else 0)
      && BusyDays(longer, MonthOf(t), who) == BusyDays(ops, MonthOf(t), who)
           + (if Paid(id, who) && RecordsSince(ops, DayOf, DayOf(t), who) == 0 then 1 else 0)
  {
    var middle := ops + [Asking(id, t)];
    var longer := middle + [Paying(id, t)];
    assert middle[..|middle| - 1] == ops && longer[..|longer| - 1] == middle;
    assert Cost(Paying(id, t)) == 10.0;
    assert RecordsSince(middle, DayOf, DayOf(t), who) == RecordsSince(ops, DayOf, DayOf(t), who);
    assert BusyDays(middle, MonthOf(t), who) == BusyDays(ops, MonthOf(t), who);
    assert SpendSince(middle, DayOf, DayOf(t), who) == SpendSince(ops, DayOf, DayOf(t), who);
    assert SpendSince(middle, MonthOf, MonthOf(t), who) == SpendSince(ops, MonthOf, MonthOf(t), who);
  }

  /** The counts of a spree. */
  predicate SpreeCounts(ops: seq<Op>, team: nat, d: nat, k: nat)
    requires k <= team <= 5 && d < 31
  {
    var day := DayOf(Noon(d));
    var days := if k == 0 then d else d + 1;
    && SpendSince(ops, DayOf, day, Everybody) == 10.0 * k as real
    && (forall j :: 0 <= j < 5 ==>
          SpendSince(ops, DayOf, day, Only(TEAM[j])) == if j < k then 10.0 else 0.0)
    && (RecordsSince(ops, DayOf, day, Everybody) == 0 <==> k == 0)
    && (RecordsSince(ops, DayOf, day, Only("a")) == 0 <==> k == 0)
    && SpendSince(ops, MonthOf, "2026-08", Everybody) == 10.0 * (team * d + k) as real
    && SpendSince(ops, MonthOf, "2026-08", Only("a")) == 10.0 * days as real
    && BusyDays(ops, "2026-08", Everybody) == days
    && BusyDays(ops, "2026-08", Only("a")) == days
  }

  lemma SpreeClock(team: nat, d: nat, k: nat)
    requires 1 <= k <= team <= 5 && d < 31
    ensures Spree(team, d, k) != [] && Spree(team, d, k)[|Spree(team, d, k)| - 1].at == Noon(d)
  {}

  lemma TeamDiffers(i: nat, j: nat)
    requires i < j < 5
    ensures TEAM[i] != TEAM[j]
  {
    assert TEAM[i][0] != TEAM[j][0];
  }

  lemma {:induction false} SpreeAddsUp(team: nat, d: nat, k: nat)
    requires 1 <= team <= 5 && k <= team && d < 31
    ensures SpreeCounts(Spree(team, d, k), team, d, k)
    decreases d, k
  {
    DaysDiffer(d, d);
    if k > 0 {
      SpreeAddsUp(team, d, k - 1);
      SpreeGrows(team, d, k);
    } else if d > 0 {
      SpreeAddsUp(team, d - 1, team);
      hide SpreeCounts;
      SpreeTurnsDay(team, d);
    }
  }

  /** The counts of a new day, seen from the end of the day before. */
  lemma SpreeTurnsDay(team: nat, d: nat)
    requires 1 <= team <= 5 && 0 < d < 31 && SpreeCounts(Spree(team, d - 1, team), team, d - 1, team)
    ensures SpreeCounts(Spree(team, d, 0), team, d, 0)
  {
    var ops := Spree(team, d - 1, team);
    assert Spree(team, d, 0) == ops;
    SpreeClock(team, d - 1, team);
    DaysDiffer(d - 1, d);
    OneDayOfTeam(team, d);
    hide Spree, Noon, SpendSince, RecordsSince, BusyDays, DayOf, MonthOf;
    forall who ensures SpendSince(ops, DayOf, DayOf(Noon(d)), who) == 0.0 && RecordsSince(ops, DayOf, DayOf(Noon(d)), who) == 0 {
      EarlierDayEmpty(ops, DayOf(Noon(d)), who);
    }
  }

  lemma OneDayOfTeam(team: nat, d: nat)
    ensures team * (d - 1) + team == team * d
  {}

  lemma EarlierDayEmpty(ops: seq<Op>, day: string, who: Who)
    requires ops != [] && DayOf(ops[|ops| - 1].at) != day
    ensures SpendSince(ops, DayOf, day, who) == 0.0 && RecordsSince(ops, DayOf, day, who) == 0
  {}

  lemma SpreeGrows(team: nat, d: nat, k: nat)
    requires 1 <= k <= team <= 5 && d < 31
    requires SpreeCounts(Spree(team, d, k - 1), team, d, k - 1)
    ensures SpreeCounts(Spree(team, d, k), team, d, k)
  {
    DaysDiffer(d, d);
    var ops, id := Spree(team, d, k - 1), TEAM[k - 1];
    PairAdds(ops, id, Noon(d), Everybody);
    PairAdds(ops, id, Noon(d), Only("a"));
    forall j | 0 <= j < 5
      ensures SpendSince(Spree(team, d, k), DayOf, DayOf(Noon(d)), Only(TEAM[j])) == if j < k then 10.0 else 0.0
    {
      PairAdds(ops, id, Noon(d), Only(TEAM[j]));
      if j < k - 1 { TeamDiffers(j, k - 1); } else if j > k - 1 { TeamDiffers(k - 1, j); }
      hide SpendSince, RecordsSince, BusyDays, Noon, DayOf, MonthOf;
    }
    if k > 1 { TeamDiffers(0, k - 1); }
    hide SpendSince, RecordsSince, BusyDays, Noon, DayOf, MonthOf;
  }

  lemma PairIsChecked(start: Timestamp, ops: seq<Op>, id: string, t: Timestamp)
    requires CheckedFirst(start, ops)
    requires SpendSince(ops, DayOf, DayOf(t), Everybody) <= 40.0 && SpendSince(ops, DayOf, DayOf(t), Only(id)) == 0.0
    ensures CheckedFirst(start, ops + [Asking(id, t)] + [Paying(id, t)])
  {
    var asked := ops + [Asking(id, t)];
    AskingApproved(start, ops, id, t);
    hide Run, SpendSince, DayOf;
    assert asked[..|ops|] == ops && asked[..|ops| + 1] == asked;
    assert Cost(Paying(id, t)) == 10.0;
    assert ApprovesNext(start, asked, |ops|, Paying(id, t));
    hide ApprovesNext;
    assert CheckedFirst(start, asked);
    assert (asked + [Paying(id, t)])[..|asked|] == asked;
  }

  lemma AskingApproved(start: Timestamp, ops: seq<Op>, id: string, t: Timestamp)
    requires SpendSince(ops, DayOf, DayOf(t), Everybody) <= 40.0 && SpendSince(ops, DayOf, DayOf(t), Only(id)) == 0.0
    ensures Check(Run(start, ops + [Asking(id, t)]), Employee(id, Thinking, 10.0), 10.0) == Approved
  {
    var middle := ops + [Asking(id, t)];
    assert middle[..|middle| - 1] == ops;
    UseIsSpend(start, middle, id);
    RunClock(start, middle);
    hide Run;
  }

  lemma {:induction false} SpreeIsChecked(start: Timestamp, team: nat, d: nat, k: nat)
    requires 1 <= team <= 5 && k <= team && d < 31
    ensures CheckedFirst(start, Spree(team, d, k))
    decreases d, k
  {
    if k > 0 {
      SpreeIsChecked(start, team, d, k - 1);
      SpreeAddsUp(team, d, k - 1);
      hide CheckedFirst, SpendSince, Noon, DayOf, MonthOf, BusyDays, RecordsSince;
      PairIsChecked(start, Spree(team, d, k - 1), TEAM[k - 1], Noon(d));
    } else if d > 0 {
      SpreeIsChecked(start, team, d - 1, team);
    }
  }

  // ----- The clock of a spree -----

  /** A time on a day of the calendar, as `toISOString` prints it for years of four digits. */
  predicate OnDate(t: Timestamp, day: int) {
    |t| == 24 && DayOf(t) == WeekMath.FormatDay(day) && t[10] == 'T' && t[23] == 'Z'
  }

  /** The operations fall on these days, none of which is before the one in front of it. */
  predicate ClockShows(ops: seq<Op>, days: seq<int>) {
    && |days| == |ops|
    && (forall i :: 0 <= i < |ops| ==> OnDate(ops[i].at, days[i]))
    && (forall i, j :: 0 <= i < j < |days| ==> days[i] <= days[j])
  }

  function August(d: int): int { Calendar.DayNumber(2026, 7, d) }

  lemma AugustDay(d: nat)
    requires 1 <= d <= 31
    ensures WeekMath.FormatDay(August(d)) == WeekMath.Print(2026) + WeekMath.MonthAndDay(8, d)
  {
    hide WeekMath.FormatDay, WeekMath.Print, WeekMath.MonthAndDay, Calendar.YearOf, Calendar.MonthOf,
      Calendar.DateOf, Calendar.NewYear, Calendar.MonthStart;
    Calendar.DayHasFields(2026, 7, d);
    WeekMath.DateParts(August(d));
  }

  lemma NoonShows(d: nat)
    requires d < 31
    ensures OnDate(Noon(d), August(d + 1))
  {
    AugustDay(d + 1);
    WeekMath.Year2026();
    hide WeekMath.FormatDay, WeekMath.Print, August;
    NoonText(d);
    hide Noon, DayOf, WeekMath.MonthAndDay;
  }

  lemma NoonText(d: nat)
    requires d < 31
    ensures DayOf(Noon(d)) == "2026" + WeekMath.MonthAndDay(8, d + 1)
    ensures |Noon(d)| == 24 && Noon(d)[10] == 'T' && Noon(d)[23] == 'Z'
  {
    assert WeekMath.MonthAndDay(8, d + 1) == "-08-" + [WeekMath.Digit((d + 1) / 10), WeekMath.Digit((d + 1) % 10)];
    hide WeekMath.MonthAndDay, WeekMath.Digit;
  }

  function SpreeDays(team: nat, d: nat, k: nat): seq<int>
    requires k <= team <= 5 && d < 31
    decreases d, k
  {
    if k > 0 then SpreeDays(team, d, k - 1) + [August(d + 1)] + [August(d + 1)]
    else if d > 0 then SpreeDays(team, d - 1, team)
    else []
  }

  predicate UpTo(days: seq<int>, day: int) { forall i :: 0 <= i < |days| ==> days[i] <= day }

  lemma ClockGoesOn(ops: seq<Op>, days: seq<int>, op: Op, day: int)
    requires ClockShows(ops, days) && UpTo(days, day) && OnDate(op.at, day)
    ensures ClockShows(ops + [op], days + [day]) && UpTo(days + [day], day)
  {
    hide OnDate;
  }

  /** A spree runs on a clock that goes forward. */
  lemma {:induction false} SpreeShows(team: nat, d: nat, k: nat)
    requires k <= team <= 5 && d < 31
    ensures ClockShows(Spree(team, d, k), SpreeDays(team, d, k)) && UpTo(SpreeDays(team, d, k), August(d + 1))
    decreases d, k
  {
    if k > 0 {
      SpreeShows(team, d, k - 1);
      NoonShows(d);
      hide OnDate, ClockShows, UpTo, Noon, August;
      var ops, days, day := Spree(team, d, k - 1), SpreeDays(team, d, k - 1), August(d + 1);
      ClockGoesOn(ops, days, Asking(TEAM[k - 1], Noon(d)), day);
      ClockGoesOn(ops + [Asking(TEAM[k - 1], Noon(d))], days + [day], Paying(TEAM[k - 1], Noon(d)), day);
    } else if d > 0 {
      SpreeShows(team, d - 1, team);
      hide ClockShows, Calendar.NewYear, Calendar.MonthStart;
    }
  }

  lemma SpreeEnds(start: Timestamp, team: nat, d: nat, k: nat)
    requires 1 <= k <= team <= 5 && d < 31
    ensures var ops := Spree(team, d, k);
      var b := Run(start, ops);
      && (b.companyMonthly, Used(b.employeeMonthly, "a")) == (10.0 * (team * d + k) as real, 10.0 * (d + 1) as real)
      && (BusyDays(ops, b.month, Only("a")), BusyDays(ops, b.month, Everybody)) == (d + 1, d + 1)
  {
    var ops := Spree(team, d, k);
    SpreeAddsUp(team, d, k);
    SpreeClock(team, d, k);
    DaysDiffer(d, d);
    UseIsSpend(start, ops, "a");
    RunClock(start, ops);
    hide Run, Spree, SpendSince, BusyDays, DayOf;
  }

  /** Checked runs on a clock that goes forward exceed the monthly caps: an employee who spends the
      daily cap passes 50 USD on the sixth day, and a team of five passes 500 USD on the eleventh. */
  lemma SpreeBreaksCaps(start: Timestamp, team: nat, d: nat)
    requires 1 <= team <= 5 && d < 31
    ensures CheckedFirst(start, Spree(team, d, team))
    ensures ClockShows(Spree(team, d, team), SpreeDays(team, d, team))
    ensures var ops := Spree(team, d, team);
      var b := Run(start, ops);
      && (BusyDays(ops, b.month, Only("a")), BusyDays(ops, b.month, Everybody)) == (d + 1, d + 1)
      && (Used(b.employeeMonthly, "a"), b.companyMonthly) == (10.0 * (d + 1) as real, 10.0 * (team * d + team) as real)
      && (Used(b.employeeMonthly, "a") > EMPLOYEE_MONTHLY_CAP <==> d >= 5)
      && (team == 5 ==> (b.companyMonthly > COMPANY_MONTHLY_CAP <==> d >= 10))
  {
    SpreeShows(team, d, team);
    SpreeIsChecked(start, team, d, team);
    SpreeEnds(start, team, d, team);
    PassedFrom(team, d);
    hide *;
  }

  lemma PassedFrom(team: nat, d: nat)
    ensures 10.0 * (d + 1) as real > EMPLOYEE_MONTHLY_CAP <==> d >= 5
    ensures team == 5 ==> (10.0 * (team * d + team) as real > COMPANY_MONTHLY_CAP <==> d >= 10)
  {
    if team == 5 { assert team * d + team == 5 * d + 5; }
  }

  /** Every covered run with records of an employee on at most `n` days of the month stays within the
      employee's monthly cap. */
  ghost predicate EmployeeCapHolds(n: nat) {
    forall start, ops, id :: Backed(start, ops) ==> EmployeeWithin(start, ops, id, n)
  }

  predicate EmployeeWithin(start: Timestamp, ops: seq<Op>, id: string, n: nat) {
    var b := Run(start, ops);
    BusyDays(ops, b.month, Only(id)) <= n ==> Used(b.employeeMonthly, id) <= EMPLOYEE_MONTHLY_CAP
  }

  ghost predicate CompanyCapHolds(n: nat) {
    forall start, ops :: Backed(start, ops) ==> CompanyWithin(start, ops, n)
  }

  predicate CompanyWithin(start: Timestamp, ops: seq<Op>, n: nat) {
    var b := Run(start, ops);
    BusyDays(ops, b.month, Everybody) <= n ==> b.companyMonthly <= COMPANY_MONTHLY_CAP
  }

  /** The monthly caps hold of all covered runs exactly for up to five days with a record of the
      employee, and up to ten days with any record. */
  lemma MonthlyCapsExactly(n: nat)
    ensures EmployeeCapHolds(n) <==> n <= 5
    ensures CompanyCapHolds(n) <==> n <= 10
  {
    hide Run, BusyDays, Backed, Spree;
    if n <= 5 {
      forall start, ops, id | Backed(start, ops) ensures EmployeeWithin(start, ops, id, n) {
        MonthlyUseBound(start, ops, id);
      }
    } else {
      SpreeBreaksCaps(Noon(0), 1, 5);
      CheckedIsBacked(Noon(0), Spree(1, 5, 1));
      assert !EmployeeWithin(Noon(0), Spree(1, 5, 1), "a", n);
    }
    if n <= 10 {
      forall start, ops | Backed(start, ops) ensures CompanyWithin(start, ops, n) {
        MonthlyUseBound(start, ops, "");
      }
    } else {
      SpreeBreaksCaps(Noon(0), 5, 10);
      CheckedIsBacked(Noon(0), Spree(5, 10, 5));
      assert !CompanyWithin(Noon(0), Spree(5, 10, 5), n);
    }
  }
}
