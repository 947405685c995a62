/** Approvals that are open at once: checks reserve nothing, so what several of them allowed may add
    up to more than a cap. */
module BudgetOpen {
  import opened BudgetLedger
  import opened BudgetCaps
  import opened BudgetMonths

  /** A check of the company, which any is, or of an employee. */
  predicate CheckOf(op: Op, who: Who) { op.Checking? && (who.Everybody? || who.id == op.employee.employeeId) }

  /** What a list of checks was asked to approve. */
  function Asked(checks: seq<Op>, who: Who): real {
    if checks == [] then 0.0
    else
      var check := checks[|checks| - 1];
      Asked(checks[..|checks| - 1], who)
      + (if CheckOf(check, who) then check.estimate else 0.0)
  }

  /** Each record is of the employee and the amount of its check. */
  predicate Settle(records: seq<Op>, checks: seq<Op>) {
    |records| == |checks| && forall i :: 0 <= i < |records| ==>
      records[i].Recording? && checks[i].Checking?
      && records[i].id == checks[i].employee.employeeId && Cost(records[i]) == checks[i].estimate
  }

  lemma {:induction false} SettledSpend(records: seq<Op>, checks: seq<Op>, who: Who)
    requires Settle(records, checks)
    ensures Spend(records, who) == Asked(checks, who)
  {
    if records != [] {
      SettledSpend(records[..|records| - 1], checks[..|checks| - 1], who);
    }
  }

  /** Recording the amounts of any checks on one day keeps the caps exactly if their sum fits on top
      of the company's use, and each employee's sum on top of the employee's. */
  lemma OpenApprovalsAddUp(start: Timestamp, ops: seq<Op>, open: seq<Op>, records: seq<Op>, now: Timestamp)
    requires Settle(records, open) && OnDay(records, DayOf(now))
    ensures var r := Refresh(Run(start, ops), now);
      WithinDailyCaps(Refresh(Run(start, ops + records), now)) <==>
        && r.companyDaily + Asked(open, Everybody) <= COMPANY_DAILY_CAP
        && forall id :: Used(r.employeeDaily, id) + Asked(open, Only(id)) <= EMPLOYEE_DAILY_CAP
  {
    RecordsAddUp(start, ops, records, now);
    forall who ensures Spend(records, who) == Asked(open, who) {
      SettledSpend(records, open, who);
    }
    hide Run, Spend, Asked, Refresh, WithinDailyCaps;
  }

  // ----- How far open approvals can go -----

  /** The k-th operation is this check, it was approved, and nothing was recorded since. */
  predicate StillOpen(start: Timestamp, ops: seq<Op>, k: nat, check: Op) {
    && k < |ops| && ops[k] == check && check.Checking? && NothingRecorded(ops[k + 1..])
    && Check(Run(start, ops[..k + 1]), check.employee, check.estimate) == Approved
  }

  /** Approvals open at the end of a run, with their places in it. */
  predicate Open(start: Timestamp, ops: seq<Op>, at: seq<nat>, open: seq<Op>) {
    && |at| == |open|
    && (forall i, j :: 0 <= i < j < |at| ==> at[i] < at[j])
    && forall i :: 0 <= i < |at| ==> StillOpen(start, ops, at[i], open[i])
  }

  /** How many of the checks are of the company or of an employee. */
  function CheckCount(checks: seq<Op>, who: Who): nat {
    if checks == [] then 0
    else CheckCount(checks[..|checks| - 1], who) + (if CheckOf(checks[|checks| - 1], who) then 1 else 0)
  }

  /** An open approval alone fits on top of the use, even if the day has changed. */
  lemma OpenFits(start: Timestamp, ops: seq<Op>, k: nat, check: Op, now: Timestamp)
    requires StillOpen(start, ops, k, check)
    ensures var r := Refresh(Run(start, ops), now);
      && check.estimate <= COMPANY_DAILY_CAP - r.companyDaily
      && check.estimate <= EMPLOYEE_DAILY_CAP - Used(r.employeeDaily, check.employee.employeeId)
  {
    var id := check.employee.employeeId;
    assert ops[..k + 1] + ops[k + 1..] == ops;
    UseGrowsByRecords(start, ops[..k + 1], ops[k + 1..], id);
    NothingSpent(ops[k + 1..], Everybody);
    NothingSpent(ops[k + 1..], Only(id));
    RunBalanced(start, ops);
    assert InBalance(Run(start, ops)) && Used(Run(start, ops).employeeDaily, id) >= 0.0;
    RefreshedDaily(Run(start, ops), now);
    hide Run, Refresh, Spend, NothingRecorded, InBalance;
  }

  lemma {:induction false} AskedAtMost(checks: seq<Op>, who: Who, left: real)
    requires forall i :: 0 <= i < |checks| && CheckOf(checks[i], who) ==> checks[i].estimate <= left
    ensures Asked(checks, who) <= Allowance(left, CheckCount(checks, who))
  {
    if checks != [] {
      AskedAtMost(checks[..|checks| - 1], who, left);
      OneDayMore(left, CheckCount(checks, who));
      hide Allowance;
    }
  }

  predicate Fits(r: Budget, check: Op) {
    check.Checking? ==>
      && check.estimate <= COMPANY_DAILY_CAP - r.companyDaily
      && check.estimate <= EMPLOYEE_DAILY_CAP - Used(r.employeeDaily, check.employee.employeeId)
  }

  lemma FittingAskedAtMost(r: Budget, open: seq<Op>, id: string)
    requires forall i :: 0 <= i < |open| ==> Fits(r, open[i])
    ensures Asked(open, Everybody) <= Allowance(COMPANY_DAILY_CAP - r.companyDaily, CheckCount(open, Everybody))
    ensures Asked(open, Only(id)) <= Allowance(EMPLOYEE_DAILY_CAP - Used(r.employeeDaily, id), CheckCount(open, Only(id)))
  {
    hide Asked, Allowance, CheckCount, Used;
    AskedAtMost(open, Everybody, COMPANY_DAILY_CAP - r.companyDaily);
    AskedAtMost(open, Only(id), EMPLOYEE_DAILY_CAP - Used(r.employeeDaily, id));
  }

  lemma OpenFit(start: Timestamp, ops: seq<Op>, at: seq<nat>, open: seq<Op>, now: Timestamp)
    requires Open(start, ops, at, open)
    ensures forall i :: 0 <= i < |open| ==> Fits(Refresh(Run(start, ops), now), open[i])
  {
    forall i | 0 <= i < |open| ensures Fits(Refresh(Run(start, ops), now), open[i]) {
      hide Run, Refresh, NothingRecorded;
      OpenFits(start, ops, at[i], open[i], now);
    }
  }

  /** Recording approvals that are open at once adds at most what was left of the cap for each of
      them, for the company and for every employee. */
  lemma OpenApprovalsBound(start: Timestamp, ops: seq<Op>, at: seq<nat>, open: seq<Op>, records: seq<Op>,
                           now: Timestamp, id: string)
    requires Open(start, ops, at, open) && Settle(records, open) && OnDay(records, DayOf(now))
    ensures var r, after := Refresh(Run(start, ops), now), Refresh(Run(start, ops + records), now);
      var employee := Used(r.employeeDaily, id);
      && after.companyDaily <= r.companyDaily + Allowance(COMPANY_DAILY_CAP - r.companyDaily, CheckCount(open, Everybody))
      && Used(after.employeeDaily, id) <= employee + Allowance(EMPLOYEE_DAILY_CAP - employee, CheckCount(open, Only(id)))
  {
    hide Run, Refresh, Spend, Asked, CheckCount, Allowance, Open, StillOpen, Settle, OnDay, Fits, Used, DayOf;
    UseOfDay(start, ops, records, now, id);
    SettledSpend(records, open, Everybody);
    SettledSpend(records, open, Only(id));
    OpenFit(start, ops, at, open, now);
    FittingAskedAtMost(Refresh(Run(start, ops), now), open, id);
  }

  /** Approvals open after a covered run, and their records. */
  ghost predicate Pending(start: Timestamp, ops: seq<Op>, at: seq<nat>, open: seq<Op>, records: seq<Op>, now: Timestamp) {
    Backed(start, ops) && Open(start, ops, at, open) && Settle(records, open) && OnDay(records, DayOf(now))
  }

  // ----- The bound is reached -----

  /** Four employees have been approved for 10 USD and spent them. */
  function Others(): seq<Op> { Spree(4, 0, 4) }

  /** Then the fifth asks for 10 USD `n` times. */
  function Waiting(n: nat): seq<Op> { if n == 0 then Others() else Waiting(n - 1) + [Asking("e", Noon(0))] }

  function Asks(n: nat): (r: seq<Op>)
    ensures |r| == n && forall i :: 0 <= i < n ==> r[i] == Asking("e", Noon(0))
  {
    if n == 0 then [] else Asks(n - 1) + [Asking("e", Noon(0))]
  }

  function Pays(n: nat): (r: seq<Op>)
    ensures |r| == n && forall i :: 0 <= i < n ==> r[i] == Paying("e", Noon(0))
  {
    if n == 0 then [] else Pays(n - 1) + [Paying("e", Noon(0))]
  }

  function Places(n: nat): (r: seq<nat>)
    ensures |r| == n && forall i :: 0 <= i < n ==> r[i] == |Others()| + i
  {
    if n == 0 then [] else Places(n - 1) + [|Others()| + n - 1]
  }

  lemma AskingRecordsNothing(ops: seq<Op>, id: string, t: Timestamp, who: Who)
    ensures SpendSince(ops + [Asking(id, t)], DayOf, DayOf(t), who) == SpendSince(ops, DayOf, DayOf(t), who)
  {
    assert (ops + [Asking(id, t)])[..|ops|] == ops;
  }

  /** The last time is the noon, and the fifth employee has spent nothing. */
  predicate OnlyOthersSpent(ops: seq<Op>) {
    && ops != [] && ops[|ops| - 1].at == Noon(0)
    && SpendSince(ops, DayOf, DayOf(Noon(0)), Everybody) == 40.0
    && SpendSince(ops, DayOf, DayOf(Noon(0)), Only("e")) == 0.0
  }

  lemma {:induction false} WaitingSpent(n: nat)
    ensures OnlyOthersSpent(Waiting(n))
  {
    if n == 0 {
      SpreeAddsUp(4, 0, 4);
      SpreeClock(4, 0, 4);
      hide Spree, SpendSince, RecordsSince, BusyDays, Noon, DayOf;
      assert TEAM[4] == "e";
    } else {
      WaitingSpent(n - 1);
      hide Others, SpendSince, Noon, DayOf;
      AskingRecordsNothing(Waiting(n - 1), "e", Noon(0), Everybody);
      AskingRecordsNothing(Waiting(n - 1), "e", Noon(0), Only("e"));
    }
  }

  lemma {:induction false} WaitingChecked(start: Timestamp, n: nat)
    ensures CheckedFirst(start, Waiting(n))
  {
    if n == 0 {
      SpreeIsChecked(start, 4, 0, 4);
      hide CheckedFirst, Spree;
    } else {
      WaitingChecked(start, n - 1);
      hide Others, Noon, ApprovesNext;
      assert Waiting(n)[..|Waiting(n)| - 1] == Waiting(n - 1);
    }
  }

  lemma {:induction false} WaitingParts(n: nat, i: nat)
    requires i <= n
    ensures |Waiting(n)| == |Others()| + n
    ensures Waiting(n)[..|Others()| + i] == Waiting(i)
    ensures forall k :: |Others()| <= k < |Waiting(n)| ==> Waiting(n)[k] == Asking("e", Noon(0))
  {
    hide Others, Noon;
    if i < n {
      WaitingParts(n - 1, i);
    } else if n > 0 {
      WaitingParts(n - 1, n - 1);
    }
  }

  lemma AsksRecordNothing(ops: seq<Op>)
    requires forall k :: 0 <= k < |ops| ==> ops[k] == Asking("e", Noon(0))
    ensures NothingRecorded(ops)
  {
    hide Noon;
  }

  lemma WaitingApproved(start: Timestamp, n: nat, i: nat)
    requires i < n && |Others()| + i < |Waiting(n)|
    ensures Check(Run(start, Waiting(n)[..|Others()| + i + 1]), Employee("e", Thinking, 10.0), 10.0) == Approved
  {
    WaitingSpent(i);
    hide Others, Noon, Run, DayOf, SpendSince, Check;
    AskingApproved(start, Waiting(i), "e", Noon(0));
    WaitingParts(n, i + 1);
    assert Waiting(i + 1) == Waiting(i) + [Asking("e", Noon(0))];
  }

  lemma WaitingIsOpen(start: Timestamp, n: nat)
    ensures Open(start, Waiting(n), Places(n), Asks(n))
  {
    hide Others, Noon, Run, Waiting, Check;
    forall i | 0 <= i < n ensures StillOpen(start, Waiting(n), Places(n)[i], Asks(n)[i]) {
      WaitingParts(n, n);
      WaitingApproved(start, n, i);
      AsksRecordNothing(Waiting(n)[|Others()| + i + 1..]);
      hide NothingRecorded;
    }
  }

  lemma PayIsTen(t: Timestamp)
    ensures Share(Paying("e", t), Everybody) == Share(Paying("e", t), Only("e")) == 10.0
  {}

  lemma {:induction false} PaysSpend(n: nat)
    ensures (Spend(Pays(n), Everybody), Spend(Pays(n), Only("e"))) == (10.0 * n as real, 10.0 * n as real)
  {
    hide Noon, Share;
    PayIsTen(Noon(0));
    if n > 0 {
      PaysSpend(n - 1);
      assert Pays(n)[..n - 1] == Pays(n - 1);
    }
  }

  lemma {:induction false} AsksCounted(n: nat)
    ensures (CheckCount(Asks(n), Everybody), CheckCount(Asks(n), Only("e"))) == (n, n)
  {
    hide Noon;
    if n > 0 {
      AsksCounted(n - 1);
      assert Asks(n)[..n - 1] == Asks(n - 1);
    }
  }

  lemma PaysSettle(n: nat)
    ensures Settle(Pays(n), Asks(n)) && OnDay(Pays(n), DayOf(Noon(0)))
  {
    hide Noon, DayOf;
  }

  lemma WaitingUse(start: Timestamp, n: nat)
    ensures var r := Refresh(Run(start, Waiting(n)), Noon(0));
      r.companyDaily == 40.0 && Used(r.employeeDaily, "e") == 0.0
  {
    WaitingSpent(n);
    hide Waiting, Noon, DayOf, SpendSince, CheckedFirst, Run;
    UseIsSpend(start, Waiting(n), "e");
    RunClock(start, Waiting(n));
    RefreshedDaily(Run(start, Waiting(n)), Noon(0));
    hide Refresh;
  }

  lemma TenEach(n: nat)
    ensures Allowance(COMPANY_DAILY_CAP - 40.0, n) == Allowance(EMPLOYEE_DAILY_CAP, n) == 10.0 * n as real
  {}

  /** For any number of open approvals there is a covered run in which both bounds are reached. */
  lemma BoundReached(start: Timestamp, n: nat)
    ensures CheckedFirst(start, Waiting(n))
    ensures Pending(start, Waiting(n), Places(n), Asks(n), Pays(n), Noon(0))
    ensures (CheckCount(Asks(n), Everybody), CheckCount(Asks(n), Only("e"))) == (n, n)
    ensures var r, after := Refresh(Run(start, Waiting(n)), Noon(0)), Refresh(Run(start, Waiting(n) + Pays(n)), Noon(0));
      && (r.companyDaily, after.companyDaily) == (40.0, 40.0 + Allowance(COMPANY_DAILY_CAP - 40.0, n))
      && (Used(r.employeeDaily, "e"), Used(after.employeeDaily, "e")) == (0.0, Allowance(EMPLOYEE_DAILY_CAP, n))
  {
    hide Waiting, Noon, DayOf, SpendSince, Run, Refresh, CheckedFirst, Open, Settle, OnDay, Backed,
      Spend, CheckCount, Allowance, Used, Others;
    WaitingChecked(start, n);
    WaitingIsOpen(start, n);
    WaitingUse(start, n);
    AsksCounted(n);
    PaysSpend(n);
    PaysSettle(n);
    TenEach(n);
    CheckedIsBacked(start, Waiting(n));
    UseOfDay(start, Waiting(n), Pays(n), Noon(0), "e");
  }

  // ----- How many approvals may be open at once -----

  predicate CompanyKept(start: Timestamp, ops: seq<Op>, records: seq<Op>, now: Timestamp) {
    Refresh(Run(start, ops + records), now).companyDaily <= COMPANY_DAILY_CAP
  }

  predicate EmployeeKept(start: Timestamp, ops: seq<Op>, records: seq<Op>, now: Timestamp, id: string) {
    Used(Refresh(Run(start, ops + records), now).employeeDaily, id) <= EMPLOYEE_DAILY_CAP
  }

  /** Up to `n` approvals that are open at once always keep the cap of the company. */
  ghost predicate CompanySafe(n: nat) {
    forall start, ops, at, open, records, now ::
      Pending(start, ops, at, open, records, now) && CheckCount(open, Everybody) <= n ==>
        CompanyKept(start, ops, records, now)
  }

  ghost predicate EmployeeSafe(n: nat) {
    forall start, ops, at, open, records, now, id ::
      Pending(start, ops, at, open, records, now) && CheckCount(open, Only(id)) <= n ==>
        EmployeeKept(start, ops, records, now, id)
  }

  lemma AtMostLeft(left: real, n: nat)
    requires left >= 0.0 && n <= 1
    ensures Allowance(left, n) <= left
  {}

  lemma OneIsSafe(start: Timestamp, ops: seq<Op>, at: seq<nat>, open: seq<Op>, records: seq<Op>, now: Timestamp, id: string)
    requires Pending(start, ops, at, open, records, now)
    ensures CheckCount(open, Everybody) <= 1 ==> CompanyKept(start, ops, records, now)
    ensures CheckCount(open, Only(id)) <= 1 ==> EmployeeKept(start, ops, records, now, id)
  {
    hide Run, Refresh, Backed, Open, Settle, OnDay, CheckCount, Used, Allowance, DayOf;
    BackedRunKeepsCaps(start, ops);
    RefreshKeepsCaps(Run(start, ops), now);
    OpenApprovalsBound(start, ops, at, open, records, now, id);
    var r := Refresh(Run(start, ops), now);
    assert Used(r.employeeDaily, id) <= EMPLOYEE_DAILY_CAP;
    if CheckCount(open, Everybody) <= 1 { AtMostLeft(COMPANY_DAILY_CAP - r.companyDaily, CheckCount(open, Everybody)); }
    if CheckCount(open, Only(id)) <= 1 { AtMostLeft(EMPLOYEE_DAILY_CAP - Used(r.employeeDaily, id), CheckCount(open, Only(id))); }
  }

  lemma TwoOvershoot(start: Timestamp, n: nat)
    requires n > 1
    ensures !CompanySafe(n) && !EmployeeSafe(n)
  {
    BoundReached(start, n);
    hide Run, Refresh, Pending, CheckCount, Waiting, Noon, CheckedFirst;
    assert !CompanyKept(start, Waiting(n), Pays(n), Noon(0));
    assert !EmployeeKept(start, Waiting(n), Pays(n), Noon(0), "e");
    assert Pending(start, Waiting(n), Places(n), Asks(n), Pays(n), Noon(0));
  }

  /** The caps are safe from approvals that are open at once exactly if there is at most one: of the
      whole company for its cap, of the employee for the employee's. */
  lemma OpenApprovalsExactly(n: nat)
    ensures CompanySafe(n) <==> n <= 1
    ensures EmployeeSafe(n) <==> n <= 1
  {
    hide Pending, CompanyKept, EmployeeKept, CheckCount;
    if n <= 1 {
      forall start, ops, at, open, records, now | Pending(start, ops, at, open, records, now)
        ensures CheckCount(open, Everybody) <= n ==> CompanyKept(start, ops, records, now)
      {
        OneIsSafe(start, ops, at, open, records, now, "");
      }
      forall start, ops, at, open, records, now, id | Pending(start, ops, at, open, records, now)
        ensures CheckCount(open, Only(id)) <= n ==> EmployeeKept(start, ops, records, now, id)
      {
        OneIsSafe(start, ops, at, open, records, now, id);
      }
    } else {
      TwoOvershoot(Noon(0), n);
    }
  }

  /** So two checks before two records can break a cap. */
  lemma ConcurrentApprovalsOvershoot(start: Timestamp)
    ensures var e := Employee("emp", Thinking, 10.0);
      var check := Checking(e, 6.0, start);
      var record := Recording("emp", "task", 400000, "claude-4.5", start);
      && Cost(record) == 6.0
      && Check(Run(start, [check]), e, 6.0) == Approved
      && Check(Run(start, [check, check]), e, 6.0) == Approved
      && Used(Run(start, [check, check, record, record]).employeeDaily, "emp") == 12.0
  {
    var e := Employee("emp", Thinking, 10.0);
    var check := Checking(e, 6.0, start);
    var record := Recording("emp", "task", 400000, "claude-4.5", start);
    assert [check, check, record, record][..3] == [check, check, record];
    assert [check, check, record][..2] == [check, check];
    assert [check, check][..1] == [check] && [check][..0] == [];
    assert Run(start, [check]) == Fresh(start);
    assert Run(start, [check, check]) == Fresh(start);
    assert Run(start, [check, check, record]) == Spent(Fresh(start), "emp", 6.0);
  }
}
