/** The budget ledger: daily and monthly use of the company and of each employee, reset when the
    day or the month of the clock changes. Money is real-valued; each call reads the clock once. */
module BudgetLedger {

  /** `toISOString()`: the day is its first ten characters and the month its first seven. */
  type Timestamp = t: string | |t| >= 10 witness "2026-08-16"

  function DayOf(t: Timestamp): string { t[..10] }

  function MonthOf(t: Timestamp): string { t[..7] }

  const COMPANY_DAILY_CAP: real := 50.0
  const EMPLOYEE_DAILY_CAP: real := 10.0
  const COMPANY_MONTHLY_CAP: real := 500.0
  const EMPLOYEE_MONTHLY_CAP: real := 50.0

  datatype Tier = Thinking | Balanced | Fast
  datatype Employee = Employee(employeeId: string, modelTier: Tier, maxCostPerTask: real)
  datatype CostRecord = CostRecord(employeeId: string, taskId: string, tokens: nat, model: string, costUSD: real, timestamp: Timestamp)
  datatype Verdict = Approved | CompanyCapExceeded | EmployeeCapExceeded | TaskCapExceeded

  datatype Budget = Budget(companyDaily: real, companyMonthly: real,
                           employeeDaily: map<string, real>, employeeMonthly: map<string, real>,
                           day: string, month: string)

  // ----- Prices -----

  /** USD per million tokens. */
  function Price(model: string): (p: real)
    ensures p > 0.0
  {
    if model == "gpt-5.1" || model == "claude-4.5" then 15.0
    else if model == "gemini-3.0-pro" then 10.0
    else if model == "gpt-5.1-nano" then 2.0
    else if model == "haiku" then 1.0
    else 5.0
  }

  function ComputeCost(tokens: nat, model: string): (c: real)
    ensures c >= 0.0
  {
    tokens as real / 1000000.0 * Price(model)
  }

  /** `Math.round(x * 1000) / 1000` */
  function RoundToMill(x: real): real { (x * 1000.0 + 0.5).Floor as real / 1000.0 }

  function MaxTokens(t: Tier): nat {
    match t
    case Thinking => 250000
    case Balanced => 100000
    case Fast => 32000
  }

  function DefaultModel(t: Tier): string {
    match t
    case Thinking => "claude-4.5"
    case Balanced => "claude-4.5"
    case Fast => "gpt-5.1-nano"
  }

  function EstimateTokens(outputs: nat): nat { if outputs * 20000 > 10000 then outputs * 20000 else 10000 }

  function EstimatedTokens(e: Employee, outputs: nat): nat {
    if EstimateTokens(outputs) < MaxTokens(e.modelTier) then EstimateTokens(outputs) else MaxTokens(e.modelTier)
  }

  function EstimateCost(e: Employee, outputs: nat): real {
    RoundToMill(ComputeCost(EstimatedTokens(e, outputs), DefaultModel(e.modelTier)))
  }

  lemma RoundingIsClose(x: real)
    ensures -0.0005 <= RoundToMill(x) - x <= 0.0005
  {}

  lemma WholeMills(n: int, x: real)
    requires x * 1000.0 == n as real
    ensures RoundToMill(x) == x
  {
    assert (n as real + 0.5).Floor == n;
  }

  /** The estimate is never rounded: its tokens come in thousands and its prices in dollars. */
  lemma EstimateIsExact(e: Employee, outputs: nat)
    ensures EstimateCost(e, outputs) == ComputeCost(EstimatedTokens(e, outputs), DefaultModel(e.modelTier))
  {
    var m := if EstimateTokens(outputs) < MaxTokens(e.modelTier) then (if outputs * 20000 > 10000 then outputs * 20 else 10)
             else MaxTokens(e.modelTier) / 1000;
    assert EstimatedTokens(e, outputs) == 1000 * m;
    var cost := ComputeCost(1000 * m, DefaultModel(e.modelTier));
    assert cost * 1000.0 == (if e.modelTier.Fast? then 2 * m else 15 * m) as real;
    WholeMills(if e.modelTier.Fast? then 2 * m else 15 * m, cost);
  }

  // ----- The ledger -----

  function Fresh(now: Timestamp): Budget {
    Budget(0.0, 0.0, map[], map[], DayOf(now), MonthOf(now))
  }

  function DailyReset(b: Budget, now: Timestamp): Budget {
    if b.day != DayOf(now) then b.(companyDaily := 0.0, employeeDaily := map[], day := DayOf(now)) else b
  }

  function MonthlyReset(b: Budget, now: Timestamp): Budget {
    if b.month != MonthOf(now) then b.(companyMonthly := 0.0, employeeMonthly := map[], month := MonthOf(now)) else b
  }

  function Refresh(b: Budget, now: Timestamp): Budget { MonthlyReset(DailyReset(b, now), now) }

  function Used(m: map<string, real>, id: string): real { if id in m then m[id] else 0.0 }

  /** The verdict of `checkBudget` on a refreshed budget. */
  function Check(b: Budget, e: Employee, estimate: real): Verdict {
    if b.companyDaily + estimate > COMPANY_DAILY_CAP then CompanyCapExceeded
    else if Used(b.employeeDaily, e.employeeId) + estimate > EMPLOYEE_DAILY_CAP then EmployeeCapExceeded
    else if estimate > e.maxCostPerTask then TaskCapExceeded
    else Approved
  }

  /** A refreshed budget after a cost is recorded. */
  function Spent(b: Budget, id: string, cost: real): Budget {
    b.(companyDaily := b.companyDaily + cost,
       companyMonthly := b.companyMonthly + cost,
       employeeDaily := b.employeeDaily[id := Used(b.employeeDaily, id) + cost],
       employeeMonthly := b.employeeMonthly[id := Used(b.employeeMonthly, id) + cost])
  }

  // ----- Runs -----

  datatype Op =
    | Checking(employee: Employee, estimate: real, at: Timestamp)
    | Recording(id: string, taskId: string, tokens: nat, model: string, at: Timestamp)
    | Reading(at: Timestamp)

  function Cost(op: Op): (c: real)
    ensures c >= 0.0
  {
    if op.Recording? then ComputeCost(op.tokens, op.model) else 0.0
  }

  function Step(b: Budget, op: Op): Budget {
    var r := Refresh(b, op.at);
    if op.Recording? then Spent(r, op.id, Cost(op)) else r
  }

  /** The budget after a run that began with a fresh ledger at `start`. */
  function Run(start: Timestamp, ops: seq<Op>): Budget {
    if ops == [] then Fresh(start) else Step(Run(start, ops[..|ops| - 1]), ops[|ops| - 1])
  }

  /** The log after a run. */
  function Log(ops: seq<Op>): seq<CostRecord> {
    if ops == [] then []
    else Log(ops[..|ops| - 1]) + (if ops[|ops| - 1].Recording? then [RecordOf(ops[|ops| - 1])] else [])
  }

  function RecordOf(op: Op): CostRecord
    requires op.Recording?
  {
    CostRecord(op.id, op.taskId, op.tokens, op.model, RoundToMill(Cost(op)), op.at)
  }

  lemma RunNext(start: Timestamp, ops: seq<Op>, op: Op)
    ensures Run(start, ops + [op]) == Step(Run(start, ops), op)
    ensures Log(ops + [op]) == Log(ops) + (if op.Recording? then [RecordOf(op)] else [])
  {
    assert (ops + [op])[..|ops|] == ops;
  }

  /** Where every run that led to a budget and a log leads next. */
  lemma RunsNext(b: Budget, log: seq<CostRecord>, op: Op)
    ensures forall start, ops :: b == Run(start, ops) && log == Log(ops) ==>
      Step(b, op) == Run(start, ops + [op]) && log + (if op.Recording? then [RecordOf(op)] else []) == Log(ops + [op])
  {
    forall start, ops | b == Run(start, ops) && log == Log(ops)
      ensures Step(b, op) == Run(start, ops + [op]) && log + (if op.Recording? then [RecordOf(op)] else []) == Log(ops + [op])
    {
      hide Step, RecordOf;
      RunNext(start, ops, op);
    }
  }

  class CostController {
    var companyDailyUsed: real
    var companyMonthlyUsed: real
    var employeeDailyUsed: map<string, real>
    var employeeMonthlyUsed: map<string, real>
    var lastResetDay: string
    var lastResetMonth: string
    var costLog: seq<CostRecord>

    function State(): Budget
      reads this
    {
      Budget(companyDailyUsed, companyMonthlyUsed, employeeDailyUsed, employeeMonthlyUsed, lastResetDay, lastResetMonth)
    }

    /** The controller is where a run leads from a fresh one, with the log of that run. */
    ghost predicate Follows(start: Timestamp, ops: seq<Op>)
      reads this
    {
      State() == Run(start, ops) && costLog == Log(ops)
    }

    constructor (now: Timestamp)
      ensures State() == Fresh(now) && costLog == []
      ensures Follows(now, [])
    {
      companyDailyUsed, companyMonthlyUsed := 0.0, 0.0;
      employeeDailyUsed, employeeMonthlyUsed := map[], map[];
      lastResetDay, lastResetMonth := DayOf(now), MonthOf(now);
      costLog := [];
    }

    method EnsureDailyReset(now: Timestamp)
      modifies this
      ensures State() == DailyReset(old(State()), now) && costLog == old(costLog)
    {
      var today := DayOf(now);
      if lastResetDay != today {
        companyDailyUsed := 0.0;
        employeeDailyUsed := map[];
        lastResetDay := today;
      }
    }

    method EnsureMonthlyReset(now: Timestamp)
      modifies this
      ensures State() == MonthlyReset(old(State()), now) && costLog == old(costLog)
    {
      var thisMonth := MonthOf(now);
      if lastResetMonth != thisMonth {
        companyMonthlyUsed := 0.0;
        employeeMonthlyUsed := map[];
        lastResetMonth := thisMonth;
      }
    }

    method CheckBudget(e: Employee, estimate: real, now: Timestamp) returns (v: Verdict)
      modifies this
      ensures State() == Refresh(old(State()), now) && costLog == old(costLog)
      ensures v == Check(State(), e, estimate)
      ensures forall start, ops :: old(Follows(start, ops)) ==> Follows(start, ops + [Checking(e, estimate, now)])
    {
      EnsureDailyReset(now);
      EnsureMonthlyReset(now);
      RunsNext(old(State()), costLog, Checking(e, estimate, now));
      if companyDailyUsed + estimate > COMPANY_DAILY_CAP {
        return CompanyCapExceeded;
      }
      var empDaily := Used(employeeDailyUsed, e.employeeId);
      if empDaily + estimate > EMPLOYEE_DAILY_CAP {
        return EmployeeCapExceeded;
      }
      if estimate > e.maxCostPerTask {
        return TaskCapExceeded;
      }
      return Approved;
    }

    method RecordCost(id: string, taskId: string, tokens: nat, model: string, now: Timestamp) returns (r: CostRecord)
      modifies this
      ensures State() == Spent(Refresh(old(State()), now), id, ComputeCost(tokens, model))
      ensures costLog == old(costLog) + [r]
      ensures r == CostRecord(id, taskId, tokens, model, RoundToMill(ComputeCost(tokens, model)), now)
      ensures forall start, ops :: old(Follows(start, ops)) ==> Follows(start, ops + [Recording(id, taskId, tokens, model, now)])
    {
      hide ComputeCost, RoundToMill, DayOf, MonthOf, Run, Log;
      ghost var op := Recording(id, taskId, tokens, model, now);
      EnsureDailyReset(now);
      EnsureMonthlyReset(now);
      ghost var refreshed := State();
      assert refreshed == Refresh(old(State()), now);
      hide Refresh, DailyReset, MonthlyReset;
      var cost := ComputeCost(tokens, model);
      companyDailyUsed := companyDailyUsed + cost;
      companyMonthlyUsed := companyMonthlyUsed + cost;
      employeeDailyUsed := employeeDailyUsed[id := Used(employeeDailyUsed, id) + cost];
      employeeMonthlyUsed := employeeMonthlyUsed[id := Used(employeeMonthlyUsed, id) + cost];
      r := CostRecord(id, taskId, tokens, model, RoundToMill(cost), now);
      costLog := costLog + [r];
      assert State() == Spent(refreshed, id, cost);
      hide Spent, Used;
      assert r == RecordOf(op) && State() == Step(old(State()), op);
      RunsNext(old(State()), old(costLog), op);
    }

    method GetBudgetState(now: Timestamp) returns (b: Budget)
      modifies this
      ensures b == State() == Refresh(old(State()), now) && costLog == old(costLog)
      ensures forall start, ops :: old(Follows(start, ops)) ==> Follows(start, ops + [Reading(now)])
    {
      EnsureDailyReset(now);
      EnsureMonthlyReset(now);
      b := State();
      RunsNext(old(State()), costLog, Reading(now));
    }
  }

  // ----- Conservation -----

  /** What was recorded since the clock last showed another day or month than `shown`. */
  function SpendSince(ops: seq<Op>, period: Timestamp -> string, shown: string, who: Who): real {
    if ops == [] || period(ops[|ops| - 1].at) != shown then 0.0
    else SpendSince(ops[..|ops| - 1], period, shown, who) + Share(ops[|ops| - 1], who)
  }

  datatype Who = Everybody | Only(id: string)

  function Share(op: Op, who: Who): (c: real)
    ensures c >= 0.0
  {
    if op.Recording? && (who.Everybody? || who.id == op.id) then Cost(op) else 0.0
  }

  /** The sum of a map's values. */
  ghost function Total(m: map<string, real>): real {
    if m == map[] then 0.0
    else
      var k :| k in m;
      m[k] + Total(m - {k})
  }

  lemma {:induction false} TotalWithout(m: map<string, real>, k: string)
    requires k in m
    ensures Total(m) == m[k] + Total(m - {k})
    decreases |m|
  {
    var j :| j in m && Total(m) == m[j] + Total(m - {j});
    if j != k {
      TotalWithout(m - {j}, k);
      TotalWithout(m - {k}, j);
      assert m - {j} - {k} == m - {k} - {j};
    }
  }

  lemma TotalAfterAdding(m: map<string, real>, k: string, cost: real)
    ensures Total(m[k := Used(m, k) + cost]) == Total(m) + cost
  {
    var n := m[k := Used(m, k) + cost];
    TotalWithout(n, k);
    assert n - {k} == m - {k};
    if k in m {
      TotalWithout(m, k);
    } else {
      assert m - {k} == m;
    }
  }

  /** Every step leaves the ledger balanced, and never above the month's use. */
  ghost predicate InBalance(b: Budget) {
    match b
    case Budget(companyDaily, companyMonthly, employeeDaily, employeeMonthly, day, month) =>
      && |day| >= 7 && month == day[..7]
      && (companyDaily, companyMonthly) == (Total(employeeDaily), Total(employeeMonthly))
      && 0.0 <= companyDaily <= companyMonthly
      && forall id :: 0.0 <= Used(employeeDaily, id) <= Used(employeeMonthly, id)
  }

  lemma RefreshKeepsBalance(b: Budget, now: Timestamp)
    requires InBalance(b)
    ensures InBalance(Refresh(b, now))
  {
    assert DayOf(now)[..7] == MonthOf(now);
    assert b.month != MonthOf(now) ==> b.day != DayOf(now);
    assert Total(map[]) == 0.0;
    var r := Refresh(b, now);
    forall id ensures 0.0 <= Used(r.employeeDaily, id) <= Used(r.employeeMonthly, id) {
      assert 0.0 <= Used(b.employeeDaily, id) <= Used(b.employeeMonthly, id);
    }
  }

  lemma SpentKeepsBalance(b: Budget, id: string, cost: real)
    requires InBalance(b) && cost >= 0.0
    ensures InBalance(Spent(b, id, cost))
  {
    TotalAfterAdding(b.employeeDaily, id, cost);
    TotalAfterAdding(b.employeeMonthly, id, cost);
    hide Total;
    var s := Spent(b, id, cost);
    forall k ensures 0.0 <= Used(s.employeeDaily, k) <= Used(s.employeeMonthly, k) {
      assert 0.0 <= Used(b.employeeDaily, k) <= Used(b.employeeMonthly, k);
    }
  }

  /** Company use is the sum over employees, and daily use never exceeds monthly use, after any run. */
  lemma {:induction false} RunBalanced(start: Timestamp, ops: seq<Op>)
    ensures InBalance(Run(start, ops))
  {
    if ops == [] {
      assert Total(map[]) == 0.0;
    } else {
      var b := Run(start, ops[..|ops| - 1]);
      var op := ops[|ops| - 1];
      RunBalanced(start, ops[..|ops| - 1]);
      RefreshKeepsBalance(b, op.at);
      if op.Recording? {
        SpentKeepsBalance(Refresh(b, op.at), op.id, Cost(op));
      }
    }
  }

  /** The run of a ledger has the clock of its last operation. */
  lemma RunClock(start: Timestamp, ops: seq<Op>)
    ensures var t := if ops == [] then start else ops[|ops| - 1].at;
      Run(start, ops).day == DayOf(t) && Run(start, ops).month == MonthOf(t)
  {
    RunBalanced(start, ops);
  }

  /** The use of a period is what was recorded in it: by the company and by each employee, daily
      and monthly. Nothing is lost or counted twice at a reset. */
  lemma {:induction false} UseIsSpend(start: Timestamp, ops: seq<Op>, id: string)
    ensures var b := Run(start, ops);
      && b.companyDaily == SpendSince(ops, DayOf, b.day, Everybody)
      && b.companyMonthly == SpendSince(ops, MonthOf, b.month, Everybody)
      && Used(b.employeeDaily, id) == SpendSince(ops, DayOf, b.day, Only(id))
      && Used(b.employeeMonthly, id) == SpendSince(ops, MonthOf, b.month, Only(id))
  {
    if ops != [] {
      var front, op := ops[..|ops| - 1], ops[|ops| - 1];
      UseIsSpend(start, front, id);
      RunClock(start, front);
      RunClock(start, ops);
      var b := Run(start, front);
      SpendOfNewPeriod(front, DayOf, DayOf(op.at), if front == [] then start else front[|front| - 1].at);
      SpendOfNewPeriod(front, MonthOf, MonthOf(op.at), if front == [] then start else front[|front| - 1].at);
    }
  }

  lemma SpendOfNewPeriod(ops: seq<Op>, period: Timestamp -> string, shown: string, last: Timestamp)
    requires ops != [] ==> last == ops[|ops| - 1].at
    ensures period(last) != shown ==> forall who :: SpendSince(ops, period, shown, who) == 0.0
  {}

  /** All that was recorded while the clock showed a period. */
  function SpendIn(ops: seq<Op>, period: Timestamp -> string, shown: string, who: Who): real {
    if ops == [] then 0.0
    else
      SpendIn(ops[..|ops| - 1], period, shown, who)
      + (if period(ops[|ops| - 1].at) == shown then Share(ops[|ops| - 1], who) else 0.0)
  }

  /** A clock that never shows a past day or month again. */
  ghost predicate NeverReturns(ops: seq<Op>, period: Timestamp -> string) {
    forall i, j, k :: 0 <= i < j < k < |ops| && period(ops[i].at) == period(ops[k].at) ==> period(ops[j].at) == period(ops[i].at)
  }

  lemma PastStaysPast(ops: seq<Op>, period: Timestamp -> string, i: nat, j: nat, k: nat)
    requires NeverReturns(ops, period) && i < j < k < |ops|
    requires period(ops[j].at) != period(ops[k].at)
    ensures period(ops[i].at) != period(ops[k].at)
  {}

  lemma {:induction false} SpendInPast(ops: seq<Op>, period: Timestamp -> string, shown: string, who: Who)
    requires forall i :: 0 <= i < |ops| ==> period(ops[i].at) != shown
    ensures SpendIn(ops, period, shown, who) == 0.0
  {
    if ops != [] {
      SpendInPast(ops[..|ops| - 1], period, shown, who);
    }
  }

  /** With such a clock the use of the current period is all that was ever recorded in it. */
  lemma {:induction false} SpendSinceIsSpendIn(ops: seq<Op>, period: Timestamp -> string, shown: string, who: Who)
    requires NeverReturns(ops, period)
    requires ops != [] && period(ops[|ops| - 1].at) == shown
    ensures SpendSince(ops, period, shown, who) == SpendIn(ops, period, shown, who)
  {
    var front := ops[..|ops| - 1];
    if front != [] {
      if period(front[|front| - 1].at) == shown {
        assert NeverReturns(front, period);
        SpendSinceIsSpendIn(front, period, shown, who);
      } else {
        forall i | 0 <= i < |front| ensures period(front[i].at) != shown {
          if i < |front| - 1 {
            PastStaysPast(ops, period, i, |front| - 1, |front|);
          }
        }
        SpendInPast(front, period, shown, who);
      }
    }
  }

  // ----- The log -----

  predicate Concerns(r: CostRecord, period: Timestamp -> string, shown: string, who: Who) {
    period(r.timestamp) == shown && (who.Everybody? || who.id == r.employeeId)
  }

  /** What the log says was spent in a period. */
  function LoggedIn(log: seq<CostRecord>, period: Timestamp -> string, shown: string, who: Who): real {
    if log == [] then 0.0
    else
      LoggedIn(log[..|log| - 1], period, shown, who)
      + (if Concerns(log[|log| - 1], period, shown, who) then log[|log| - 1].costUSD else 0.0)
  }

  function RecordsIn(log: seq<CostRecord>, period: Timestamp -> string, shown: string, who: Who): nat {
    if log == [] then 0
    else RecordsIn(log[..|log| - 1], period, shown, who) + (if Concerns(log[|log| - 1], period, shown, who) then 1 else 0)
  }

  function Distance(x: real, y: real): real { if x < y then y - x else x - y }

  predicate Within(x: real, y: real, records: nat) {
    Distance(x, y) <= 0.0005 * records as real
  }

  lemma DriftGrows(logged: real, recorded: real, records: nat, rounded: real, cost: real)
    requires Within(logged, recorded, records) && -0.0005 <= rounded - cost <= 0.0005
    ensures Within(logged + rounded, recorded + cost, records + 1)
  {}

  lemma LogNext(log: seq<CostRecord>, r: CostRecord, period: Timestamp -> string, shown: string, who: Who)
    ensures LoggedIn(log + [r], period, shown, who) ==
      LoggedIn(log, period, shown, who) + (if Concerns(r, period, shown, who) then r.costUSD else 0.0)
    ensures RecordsIn(log + [r], period, shown, who) ==
      RecordsIn(log, period, shown, who) + (if Concerns(r, period, shown, who) then 1 else 0)
  {
    assert (log + [r])[..|log|] == log;
  }

  /** One more record of the log and of the run. */
  lemma DriftNext(front: seq<Op>, op: Op, period: Timestamp -> string, shown: string, who: Who)
    requires op.Recording?
    requires Within(LoggedIn(Log(front), period, shown, who), SpendIn(front, period, shown, who), RecordsIn(Log(front), period, shown, who))
    ensures var log, ops := Log(front) + [RecordOf(op)], front + [op];
      Within(LoggedIn(log, period, shown, who), SpendIn(ops, period, shown, who), RecordsIn(log, period, shown, who))
  {
    LogNext(Log(front), RecordOf(op), period, shown, who);
    RoundingIsClose(Cost(op));
    assert (front + [op])[..|front|] == front;
    hide RoundToMill, Cost, Within, LoggedIn, RecordsIn, Log;
    DriftGrows(LoggedIn(Log(front), period, shown, who), SpendIn(front, period, shown, who),
               RecordsIn(Log(front), period, shown, who), RoundToMill(Cost(op)), Cost(op));
  }

  /** The log rounds each cost and the ledger does not: for every period and for every employee or
      the company they drift apart by at most half a thousandth of a dollar a record. */
  lemma {:induction false} LogDrift(ops: seq<Op>, period: Timestamp -> string, shown: string, who: Who)
    ensures Within(LoggedIn(Log(ops), period, shown, who), SpendIn(ops, period, shown, who), RecordsIn(Log(ops), period, shown, who))
  {
    if ops != [] {
      var front, op := ops[..|ops| - 1], ops[|ops| - 1];
      LogDrift(front, period, shown, who);
      assert front + [op] == ops;
      hide Cost, Within, LoggedIn, RecordsIn, RecordOf;
      if op.Recording? {
        DriftNext(front, op, period, shown, who);
      } else {
        assert Log(ops) == Log(front) && SpendIn(ops, period, shown, who) == SpendIn(front, period, shown, who);
      }
    }
  }

  /** So each amount of the ledger is that far from what the log says of the current period. */
  lemma LedgerLogDrift(start: Timestamp, ops: seq<Op>, id: string)
    requires NeverReturns(ops, DayOf) && NeverReturns(ops, MonthOf)
    ensures var b, log := Run(start, ops), Log(ops);
      && Within(LoggedIn(log, DayOf, b.day, Everybody), b.companyDaily, RecordsIn(log, DayOf, b.day, Everybody))
      && Within(LoggedIn(log, MonthOf, b.month, Everybody), b.companyMonthly, RecordsIn(log, MonthOf, b.month, Everybody))
      && Within(LoggedIn(log, DayOf, b.day, Only(id)), Used(b.employeeDaily, id), RecordsIn(log, DayOf, b.day, Only(id)))
      && Within(LoggedIn(log, MonthOf, b.month, Only(id)), Used(b.employeeMonthly, id), RecordsIn(log, MonthOf, b.month, Only(id)))
  {
    var b := Run(start, ops);
    UseIsSpend(start, ops, id);
    RunClock(start, ops);
    hide Run, Log, LoggedIn, RecordsIn, SpendSince, SpendIn, DayOf, MonthOf, NeverReturns;
    SpendIsLogged(ops, DayOf, b.day, Everybody);
    SpendIsLogged(ops, MonthOf, b.month, Everybody);
    SpendIsLogged(ops, DayOf, b.day, Only(id));
    SpendIsLogged(ops, MonthOf, b.month, Only(id));
  }

  lemma SpendIsLogged(ops: seq<Op>, period: Timestamp -> string, shown: string, who: Who)
    requires NeverReturns(ops, period) && (ops != [] ==> period(ops[|ops| - 1].at) == shown)
    ensures Within(LoggedIn(Log(ops), period, shown, who), SpendSince(ops, period, shown, who), RecordsIn(Log(ops), period, shown, who))
  {
    LogDrift(ops, period, shown, who);
    if ops != [] { SpendSinceIsSpendIn(ops, period, shown, who); }
  }

  // ----- Verdicts and prices in amounts -----

  /** A check in terms of what was spent today: the caps are 50 USD a day for the company and 10 for
      an employee, and a task may cost what the employee's profile says. */
  lemma VerdictBySpend(start: Timestamp, ops: seq<Op>, e: Employee, estimate: real, now: Timestamp)
    ensures var all := ops + [Checking(e, estimate, now)];
      var company := SpendSince(all, DayOf, DayOf(now), Everybody);
      var own := SpendSince(all, DayOf, DayOf(now), Only(e.employeeId));
      Check(Run(start, all), e, estimate) ==
        if company + estimate > 50.0 then CompanyCapExceeded
        else if own + estimate > 10.0 then EmployeeCapExceeded
        else if estimate > e.maxCostPerTask then TaskCapExceeded
        else Approved
  {
    var all := ops + [Checking(e, estimate, now)];
    UseIsSpend(start, all, e.employeeId);
    RunClock(start, all);
    hide Run, SpendSince, Used;
  }

  /** The estimate of a task of `n` outputs: 20000 tokens for each, at least 10000 and at most what the
      tier allows, at the price of the tier's model. */
  lemma EstimateByTier(e: Employee, outputs: nat)
    ensures var thousands := if outputs == 0 then 10 else 20 * outputs;
      EstimateCost(e, outputs) == match e.modelTier
        case Thinking => 0.015 * (if thousands < 250 then thousands else 250) as real
        case Balanced => 0.015 * (if thousands < 100 then thousands else 100) as real
        case Fast => 0.002 * (if thousands < 32 then thousands else 32) as real
  {
    EstimateIsExact(e, outputs);
    hide EstimateCost;
  }

  /** What a million tokens cost. */
  lemma MillionTokens(model: string)
    ensures ComputeCost(1000000, model) ==
      if model in {"gpt-5.1", "claude-4.5"} then 15.0
      else if model == "gemini-3.0-pro" then 10.0
      else if model == "gpt-5.1-nano" then 2.0
      else if model == "haiku" then 1.0
      else 5.0
  {}
}
