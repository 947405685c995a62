/** Which runs of the ledger keep the caps of a day and of a month. */
module BudgetCaps {
  import opened BudgetLedger

  /** What a list of operations records. */
  function Spend(ops: seq<Op>, who: Who): (total: real)
    ensures total >= 0.0
  {
    if ops == [] then 0.0 else Spend(ops[..|ops| - 1], who) + Share(ops[|ops| - 1], who)
  }

  ghost predicate WithinDailyCaps(b: Budget) {
    && b.companyDaily <= COMPANY_DAILY_CAP
    && forall id :: Used(b.employeeDaily, id) <= EMPLOYEE_DAILY_CAP
  }

  // ----- Use between two moments of a run -----

  lemma LastApart<T>(a: seq<T>, b: seq<T>)
    requires b != []
    ensures a + b == (a + b[..|b| - 1]) + [b[|b| - 1]]
  {}

  predicate UseWithin(start: Timestamp, ops: seq<Op>, more: seq<Op>, id: string) {
    var b, later := Run(start, ops), Run(start, ops + more);
    && later.companyDaily <= b.companyDaily + Spend(more, Everybody)
    && Used(later.employeeDaily, id) <= Used(b.employeeDaily, id) + Spend(more, Only(id))
  }

  /** Daily use grows by no more than what is recorded, whatever days go by. */
  lemma {:induction false} UseGrowsByRecords(start: Timestamp, ops: seq<Op>, more: seq<Op>, id: string)
    ensures UseWithin(start, ops, more, id)
  {
    if more == [] {
      assert ops + more == ops;
    } else {
      UseGrowsByRecords(start, ops, more[..|more| - 1], id);
      hide UseWithin;
      UseGrowsByOne(start, ops, more, id);
    }
  }

  lemma UseGrowsByOne(start: Timestamp, ops: seq<Op>, more: seq<Op>, id: string)
    requires more != [] && UseWithin(start, ops, more[..|more| - 1], id)
    ensures UseWithin(start, ops, more, id)
  {
    hide Run, Spend, Step, Used, Share, InBalance;
    var front, op := more[..|more| - 1], more[|more| - 1];
    LastApart(ops, more);
    RunNext(start, ops + front, op);
    RunBalanced(start, ops + front);
    StepGrowsByShare(Run(start, ops + front), op, id);
    SpendNext(more, Everybody);
    SpendNext(more, Only(id));
  }

  lemma SpendNext(ops: seq<Op>, who: Who)
    requires ops != []
    ensures Spend(ops, who) == Spend(ops[..|ops| - 1], who) + Share(ops[|ops| - 1], who)
  {}

  lemma StepGrowsByShare(b: Budget, op: Op, id: string)
    requires InBalance(b)
    ensures Step(b, op).companyDaily <= b.companyDaily + Share(op, Everybody)
    ensures Used(Step(b, op).employeeDaily, id) <= Used(b.employeeDaily, id) + Share(op, Only(id))
  {
    assert 0.0 <= Used(b.employeeDaily, id) <= Used(b.employeeMonthly, id);
  }

  // ----- Checks that cover records -----

  /** With what is recorded in between, a further amount still fits under both caps. */
  predicate StillFits(b: Budget, id: string, amount: real, between: seq<Op>) {
    && b.companyDaily + Spend(between, Everybody) + amount <= COMPANY_DAILY_CAP
    && Used(b.employeeDaily, id) + Spend(between, Only(id)) + amount <= EMPLOYEE_DAILY_CAP
  }

  /** The k-th operation of a run is an approved check of the employee of a record that it covers. */
  predicate Approves(start: Timestamp, before: seq<Op>, k: nat, op: Op) {
    && k < |before| && op.Recording? && before[k].Checking?
    && before[k].employee.employeeId == op.id && Cost(op) <= before[k].estimate
    && Check(Run(start, before[..k + 1]), before[k].employee, before[k].estimate) == Approved
  }

  /** An approval that would still be given with what was recorded since. */
  predicate Backs(start: Timestamp, before: seq<Op>, k: nat, op: Op) {
    && Approves(start, before, k, op)
    && StillFits(Run(start, before[..k + 1]), op.id, before[k].estimate, before[k + 1..])
  }

  /** Every record of a run has such an approval in what went before it. */
  ghost predicate Backed(start: Timestamp, ops: seq<Op>) {
    ops != [] ==>
      var front, op := ops[..|ops| - 1], ops[|ops| - 1];
      Backed(start, front) && (op.Recording? ==> exists k :: Backs(start, front, k, op))
  }

  predicate NothingRecorded(ops: seq<Op>) { forall i :: 0 <= i < |ops| ==> !ops[i].Recording? }

  /** An approval with no record since: checks, refused or approved, and readings may lie between. */
  predicate ApprovesNext(start: Timestamp, before: seq<Op>, k: nat, op: Op) {
    Approves(start, before, k, op) && NothingRecorded(before[k + 1..])
  }

  /** Every record of a run has such an approval in what went before it. */
  ghost predicate CheckedFirst(start: Timestamp, ops: seq<Op>) {
    ops != [] ==>
      var front, op := ops[..|ops| - 1], ops[|ops| - 1];
      CheckedFirst(start, front) && (op.Recording? ==> exists k :: ApprovesNext(start, front, k, op))
  }

  lemma {:induction false} NothingSpent(ops: seq<Op>, who: Who)
    requires NothingRecorded(ops)
    ensures Spend(ops, who) == 0.0
  {
    if ops != [] {
      NothingSpent(ops[..|ops| - 1], who);
    }
  }

  lemma NextIsBacked(start: Timestamp, before: seq<Op>, k: nat, op: Op)
    requires ApprovesNext(start, before, k, op)
    ensures Backs(start, before, k, op)
  {
    NothingSpent(before[k + 1..], Everybody);
    NothingSpent(before[k + 1..], Only(op.id));
  }

  lemma {:induction false} CheckedIsBacked(start: Timestamp, ops: seq<Op>)
    requires CheckedFirst(start, ops)
    ensures Backed(start, ops)
  {
    hide ApprovesNext, Backs;
    if ops != [] {
      var front, op := ops[..|ops| - 1], ops[|ops| - 1];
      CheckedIsBacked(start, front);
      if op.Recording? {
        var k: nat :| ApprovesNext(start, front, k, op);
        NextIsBacked(start, front, k, op);
      }
    }
  }

  lemma RefreshKeepsCaps(b: Budget, now: Timestamp)
    requires WithinDailyCaps(b)
    ensures WithinDailyCaps(Refresh(b, now))
  {
    forall id ensures Used(Refresh(b, now).employeeDaily, id) <= EMPLOYEE_DAILY_CAP {
      assert Used(b.employeeDaily, id) <= EMPLOYEE_DAILY_CAP;
    }
  }

  lemma RecordKeepsCaps(b: Budget, op: Op)
    requires InBalance(b) && WithinDailyCaps(b) && op.Recording?
    requires b.companyDaily + Cost(op) <= COMPANY_DAILY_CAP && Used(b.employeeDaily, op.id) + Cost(op) <= EMPLOYEE_DAILY_CAP
    ensures WithinDailyCaps(Step(b, op))
  {
    var r := Refresh(b, op.at);
    RefreshKeepsCaps(b, op.at);
    StepGrowsByShare(b, op, op.id);
    hide Refresh, InBalance;
    forall id ensures Used(Step(b, op).employeeDaily, id) <= EMPLOYEE_DAILY_CAP {
      assert Used(r.employeeDaily, id) <= EMPLOYEE_DAILY_CAP;
    }
  }

  /** If every record has an earlier approval that still holds with what was recorded in between,
      no daily cap is ever exceeded, whatever days lie between the check and the record. */
  lemma {:induction false} BackedRunKeepsCaps(start: Timestamp, ops: seq<Op>)
    requires Backed(start, ops)
    ensures WithinDailyCaps(Run(start, ops))
  {
    if ops != [] {
      var front, op := ops[..|ops| - 1], ops[|ops| - 1];
      BackedRunKeepsCaps(start, front);
      RunBalanced(start, front);
      RefreshKeepsCaps(Run(start, front), op.at);
      if op.Recording? {
        var k: nat :| Backs(start, front, k, op);
        BackedRecordFits(start, front, k, op);
        hide Backs, Refresh, Backed;
        RecordKeepsCaps(Run(start, front), op);
      }
    }
  }

  lemma BackedRecordFits(start: Timestamp, before: seq<Op>, k: nat, op: Op)
    requires Backs(start, before, k, op)
    ensures Run(start, before).companyDaily + Cost(op) <= COMPANY_DAILY_CAP
    ensures Used(Run(start, before).employeeDaily, op.id) + Cost(op) <= EMPLOYEE_DAILY_CAP
  {
    hide Run, Spend;
    UseGrowsByRecords(start, before[..k + 1], before[k + 1..], op.id);
    assert before[..k + 1] + before[k + 1..] == before;
  }

  /** In particular if each record has an earlier approval of its own with no record in between. */
  lemma CheckedRunKeepsCaps(start: Timestamp, ops: seq<Op>)
    requires CheckedFirst(start, ops)
    ensures WithinDailyCaps(Run(start, ops))
  {
    CheckedIsBacked(start, ops);
    BackedRunKeepsCaps(start, ops);
  }

  // ----- Use within a day -----

  predicate OnDay(ops: seq<Op>, day: string) { forall i :: 0 <= i < |ops| ==> DayOf(ops[i].at) == day }

  predicate UseExactly(start: Timestamp, ops: seq<Op>, later: seq<Op>, now: Timestamp, id: string) {
    var r, after := Refresh(Run(start, ops), now), Refresh(Run(start, ops + later), now);
    && after.companyDaily == r.companyDaily + Spend(later, Everybody)
    && Used(after.employeeDaily, id) == Used(r.employeeDaily, id) + Spend(later, Only(id))
  }

  /** Within a day use grows by exactly what is recorded. */
  lemma {:induction false} UseOfDay(start: Timestamp, ops: seq<Op>, later: seq<Op>, now: Timestamp, id: string)
    requires OnDay(later, DayOf(now))
    ensures UseExactly(start, ops, later, now, id)
  {
    if later == [] {
      assert ops + later == ops;
    } else {
      UseOfDay(start, ops, later[..|later| - 1], now, id);
      hide UseExactly;
      UseOfDayNext(start, ops, later, now, id);
    }
  }

  lemma UseOfDayNext(start: Timestamp, ops: seq<Op>, later: seq<Op>, now: Timestamp, id: string)
    requires later != [] && DayOf(later[|later| - 1].at) == DayOf(now)
    requires UseExactly(start, ops, later[..|later| - 1], now, id)
    ensures UseExactly(start, ops, later, now, id)
  {
    hide Run, Spend, Step, Used, Share, Refresh, DayOf;
    var front, op := later[..|later| - 1], later[|later| - 1];
    LastApart(ops, later);
    RunNext(start, ops + front, op);
    SpendNext(later, Everybody);
    SpendNext(later, Only(id));
    StepOfDay(Run(start, ops + front), op, now, id);
  }

  /** The daily part of a refreshed budget. */
  lemma RefreshedDaily(b: Budget, now: Timestamp)
    ensures var r := Refresh(b, now);
      && r.companyDaily == (if b.day == DayOf(now) then b.companyDaily else 0.0)
      && r.employeeDaily == (if b.day == DayOf(now) then b.employeeDaily else map[])
      && r.day == DayOf(now)
  {}

  lemma StepOfDay(b: Budget, op: Op, now: Timestamp, id: string)
    requires DayOf(op.at) == DayOf(now)
    ensures var r, after := Refresh(b, now), Refresh(Step(b, op), now);
      && after.companyDaily == r.companyDaily + Share(op, Everybody)
      && Used(after.employeeDaily, id) == Used(r.employeeDaily, id) + Share(op, Only(id))
  {
    RefreshedDaily(b, now);
    RefreshedDaily(b, op.at);
    RefreshedDaily(Step(b, op), now);
    hide Refresh, DayOf, Cost;
  }

  /** After any run, whatever is done later on one day keeps the caps exactly if the use at its
      begin and all that is recorded fit, for the company and for each employee. */
  lemma RecordsAddUp(start: Timestamp, ops: seq<Op>, later: seq<Op>, now: Timestamp)
    requires OnDay(later, DayOf(now))
    ensures var r := Refresh(Run(start, ops), now);
      WithinDailyCaps(Refresh(Run(start, ops + later), now)) <==>
        && r.companyDaily + Spend(later, Everybody) <= COMPANY_DAILY_CAP
        && forall id :: Used(r.employeeDaily, id) + Spend(later, Only(id)) <= EMPLOYEE_DAILY_CAP
  {
    var r, after := Refresh(Run(start, ops), now), Refresh(Run(start, ops + later), now);
    hide Run, Refresh, Spend, Used, DayOf;
    forall id: string
      ensures Used(after.employeeDaily, id) == Used(r.employeeDaily, id) + Spend(later, Only(id))
    {
      UseOfDay(start, ops, later, now, id);
    }
    UseOfDay(start, ops, later, now, "");
    hide UseExactly;
  }
}
