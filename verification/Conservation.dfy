/** No money appears or disappears: balances against the ledger, refunds against deductions, and at most
    one task, hold and charge for each idempotency key. */
module Conservation {
  import opened Database
  import opened Lifecycle
  import opened Invariants
  import opened Reachable

  /** What the ledger says a tenant's rows of one kind add up to. */
  function Total(ledger: seq<Row>, t: nat, kind: Kind): int {
    if ledger == [] then 0
    else
      var row := ledger[|ledger| - 1];
      Total(ledger[..|ledger| - 1], t, kind) + if row.tenant == t && row.kind == kind then row.amount else 0
  }

  function Amounts(rows: seq<Row>): int {
    if rows == [] then 0 else Amounts(rows[..|rows| - 1]) + rows[|rows| - 1].amount
  }

  function Share(x: Task, k: nat, ledger: seq<Row>, t: nat, kind: Kind): int {
    if x.tenant == t then Amounts(RowsOf(ledger, k, kind)) else 0
  }

  /** The same total, gathered task by task over the first n tasks. */
  function TotalByTask(tasks: seq<Task>, n: nat, ledger: seq<Row>, t: nat, kind: Kind): int
    requires n <= |tasks|
  {
    if n == 0 then 0
    else TotalByTask(tasks, n - 1, ledger, t, kind) + Share(tasks[n - 1], n - 1, ledger, t, kind)
  }

  lemma {:induction false} BalanceIsTotals(ledger: seq<Row>, t: nat)
    ensures LedgerBalance(ledger, t)
            == Total(ledger, t, Recharge) + Total(ledger, t, Refund) - Total(ledger, t, Deduction)
  {
    if ledger != [] {
      BalanceIsTotals(ledger[..|ledger| - 1], t);
    }
  }

  lemma ShareAppend(x: Task, k: nat, ledger: seq<Row>, row: Row, t: nat, kind: Kind)
    ensures Share(x, k, ledger + [row], t, kind)
            == Share(x, k, ledger, t, kind) + if x.tenant == t && IsRow(row, k, kind) then row.amount else 0
  {
    var rows := RowsOf(ledger, k, kind);
    assert (ledger + [row])[..|ledger|] == ledger;
    assert (rows + [row])[..|rows|] == rows && rows + [] == rows;
  }

  lemma {:induction false} TotalByTaskAppend(tasks: seq<Task>, n: nat, ledger: seq<Row>, row: Row, t: nat, kind: Kind)
    requires n <= |tasks| && row.task.Some?
    ensures TotalByTask(tasks, n, ledger + [row], t, kind)
            == TotalByTask(tasks, n, ledger, t, kind)
               + if row.kind == kind && row.task.value < n && tasks[row.task.value].tenant == t then row.amount else 0
  {
    if n > 0 {
      TotalByTaskAppend(tasks, n - 1, ledger, row, t, kind);
      ShareAppend(tasks[n - 1], n - 1, ledger, row, t, kind);
    }
  }

  lemma {:induction false} TotalByTaskSame(tasks: seq<Task>, n: nat, a: seq<Row>, b: seq<Row>, t: nat, kind: Kind)
    requires n <= |tasks| && forall k: nat | k < n :: RowsOf(a, k, kind) == RowsOf(b, k, kind)
    ensures TotalByTask(tasks, n, a, t, kind) == TotalByTask(tasks, n, b, t, kind)
  {
    if n > 0 {
      TotalByTaskSame(tasks, n - 1, a, b, t, kind);
    }
  }

  predicate RowsHaveTasks(ledger: seq<Row>, tasks: seq<Task>, kind: Kind) {
    forall i | 0 <= i < |ledger| && ledger[i].kind == kind ::
      ledger[i].task.Some? && ledger[i].task.value < |tasks| && tasks[ledger[i].task.value].tenant == ledger[i].tenant
  }

  lemma {:induction false} TotalsAgree(ledger: seq<Row>, tasks: seq<Task>, t: nat, kind: Kind)
    requires RowsHaveTasks(ledger, tasks, kind)
    ensures Total(ledger, t, kind) == TotalByTask(tasks, |tasks|, ledger, t, kind)
  {
    if ledger == [] {
      NothingByTask(tasks, |tasks|, t, kind);
    } else {
      var n := |ledger| - 1;
      var row := ledger[n];
      TotalsAgree(ledger[..n], tasks, t, kind);
      assert ledger == ledger[..n] + [row];
      if row.kind == kind {
        TotalByTaskAppend(tasks, |tasks|, ledger[..n], row, t, kind);
      } else {
        TotalByTaskSame(tasks, |tasks|, ledger[..n], ledger, t, kind);
      }
    }
  }

  lemma {:induction false} NothingByTask(tasks: seq<Task>, n: nat, t: nat, kind: Kind)
    requires n <= |tasks|
    ensures TotalByTask(tasks, n, [], t, kind) == 0
  {
    if n > 0 {
      NothingByTask(tasks, n - 1, t, kind);
    }
  }

  lemma {:induction false} RefundsWithinDeductions(s: Db, n: nat, t: nat)
    requires ChargesOk(s) && TasksOk(s) && n <= |s.tasks|
    ensures TotalByTask(s.tasks, n, s.ledger, t, Refund) <= TotalByTask(s.tasks, n, s.ledger, t, Deduction)
  {
    if n > 0 {
      RefundsWithinDeductions(s, n - 1, t);
      assert ChargeOk(s, n - 1, s.tasks[n - 1]);
      assert TaskOk(s.tasks[n - 1], |s.tenants|);
      var refunds := RowsOf(s.ledger, n - 1, Refund);
      var deductions := RowsOf(s.ledger, n - 1, Deduction);
      assert refunds != [] ==> refunds[..0] == [];
      assert deductions != [] ==> deductions[..0] == [];
    }
  }

  /** Conservation in every reachable state: each balance is what was recharged, minus what was charged,
      plus what was refunded, and no tenant is refunded more than it was charged. */
  lemma MoneyIsConserved(steps: seq<Step>, t: nat)
    requires t < |Run(steps).tenants|
    ensures var ledger := Run(steps).ledger;
            && Run(steps).tenants[t].balance
               == Total(ledger, t, Recharge) - Total(ledger, t, Deduction) + Total(ledger, t, Refund)
            && Total(ledger, t, Refund) <= Total(ledger, t, Deduction)
  {
    var s := Run(steps);
    RunKeeps(steps);
    BalanceIsTotals(s.ledger, t);
    forall i | 0 <= i < |s.ledger| ensures RowOk(s, s.ledger[i], s.ledger[..i]) {
    }
    TotalsAgree(s.ledger, s.tasks, t, Refund);
    TotalsAgree(s.ledger, s.tasks, t, Deduction);
    RefundsWithinDeductions(s, |s.tasks|, t);
  }

  /** Each task is refunded at most once, only if it was charged, by exactly its deduction; and its feedback
      is marked refunded exactly if the refund is in the ledger. */
  lemma RefundsAreOnceAndExact(steps: seq<Step>, k: nat)
    requires k < |Run(steps).tasks|
    ensures var s := Run(steps);
            var refunds := RowsOf(s.ledger, k, Refund);
            var deductions := RowsOf(s.ledger, k, Deduction);
            && |refunds| <= 1
            && (refunds != [] ==> s.tasks[k].isCharged && |deductions| == 1
                                  && refunds[0].amount == deductions[0].amount
                                  && refunds[0].tenant == deductions[0].tenant)
            && (refunds != [] <==> k in s.feedback && s.feedback[k].isRefunded)
            && (refunds != [] ==> s.feedback[k].refundAmount == refunds[0].amount)
  {
    RunKeeps(steps);
    assert ChargeOk(Run(steps), k, Run(steps).tasks[k]);
  }

  // ----- the course of a review -----

  predicate ReviewMoves(x: Review, y: Review) {
    || x == y
    || (x == Open && y in {Accepted, Rejected})
    || (x == Rejected && y == Open)
    || (x == Accepted && y == Resolved)
  }

  /** One step moves a review forward, or reopens a rejected one; it never takes a refund back, and pays one
      only while accepting. */
  lemma ReviewStep(s: Db, step: Step, k: nat)
    requires k in s.feedback
    ensures k in Next(s, step).feedback
    ensures var x, y := s.feedback[k], Next(s, step).feedback[k];
            && ReviewMoves(x.status, y.status) && y.tenant == x.tenant
            && (x.isRefunded ==> y.isRefunded && y.refundAmount == x.refundAmount)
            && (y.isRefunded && !x.isRefunded ==> step.Accept? && x.status == Open && y.status == Accepted)
  {
    if !step.Accept? && !step.Reject? && !step.Publish? && !step.SubmitFeedback? {
      FeedbackUntouched(s, step);
    }
  }

  lemma FeedbackUntouched(s: Db, step: Step)
    requires !step.Accept? && !step.Reject? && !step.Publish? && !step.SubmitFeedback?
    ensures Next(s, step).feedback == s.feedback
  {
  }

  predicate Decided(x: Review) {
    x == Accepted || x == Resolved
  }

  /** Over any continuation of a run an accepted feedback stays decided. */
  lemma {:induction false} DecisionIsFinal(steps: seq<Step>, n: nat, k: nat)
    requires n <= |steps| && k in Run(steps[..n]).feedback && Decided(Run(steps[..n]).feedback[k].status)
    ensures k in Run(steps).feedback && Decided(Run(steps).feedback[k].status)
    decreases |steps|
  {
    hide Next;
    if n == |steps| {
      assert steps[..n] == steps;
    } else {
      var before := steps[..|steps| - 1];
      assert before[..n] == steps[..n];
      DecisionIsFinal(before, n, k);
      ReviewStep(Run(before), steps[|steps| - 1], k);
    }
  }

  // ----- idempotent submission -----

  predicate UniqueKeys(tasks: seq<Task>) {
    forall i, j | 0 <= i < j < |tasks| && tasks[i].key.Some? && tasks[i].tenant == tasks[j].tenant ::
      tasks[i].key != tasks[j].key
  }

  lemma KeysStay(s: Db, step: Step, k: nat)
    requires Inv(s) && k < |s.tasks|
    ensures |Next(s, step).tasks| >= |s.tasks|
    ensures Next(s, step).tasks[k].key == s.tasks[k].key && Next(s, step).tasks[k].tenant == s.tasks[k].tenant
  {
    TaskMoves(s, step, k);
  }

  lemma UniqueKeysStep(s: Db, step: Step)
    requires Inv(s) && UniqueKeys(s.tasks)
    ensures UniqueKeys(Next(s, step).tasks)
  {
    var tasks := Next(s, step).tasks;
    forall k | 0 <= k < |s.tasks|
      ensures k < |tasks| && tasks[k].key == s.tasks[k].key && tasks[k].tenant == s.tasks[k].tenant
    {
      KeysStay(s, step, k);
    }
    if |tasks| > |s.tasks| {
      NewTaskIsSubmitted(s, step, |tasks| - 1);
      assert FindKey(s.tasks, step.t, step.key).None?;
    }
  }

  /** A tenant's idempotency key names at most one task, in every reachable state. */
  lemma {:induction false} KeysAreUnique(steps: seq<Step>)
    ensures UniqueKeys(Run(steps).tasks)
  {
    if steps != [] {
      var before := steps[..|steps| - 1];
      KeysAreUnique(before);
      RunKeeps(before);
      UniqueKeysStep(Run(before), steps[|steps| - 1]);
    }
  }

  /** Submitting a key again, even when the competing submission committed after the look-up, reserves
      nothing and creates nothing; without the race, and whenever the request gets as far as its insert,
      the answer is the one task that has the key. */
  lemma ResubmissionChangesNothing(s: Db, k: nat, raced: bool, limits: Limits)
    requires UniqueKeys(s.tasks) && k < |s.tasks| && s.tasks[k].key.Some?
    ensures var (s', answer) := ApplySubmit(s, s.tasks[k].tenant, s.tasks[k].key, raced, limits);
            && s' == s
            && (answer == Duplicate(k) || (raced && answer in {QueueFull, NoFunds}))
  {
    var found := FindKey(s.tasks, s.tasks[k].tenant, s.tasks[k].key);
    assert found.Some?;
    assert found.value == k;
  }
}
