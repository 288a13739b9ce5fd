/** What every step of the protocol keeps, and so every reachable state satisfies. */
module Invariants {
  import opened Wrappers
  import opened Money
  import opened Database
  import opened Billing
  import opened Lifecycle

  ghost predicate TenantsOk(s: Db) {
    forall t | 0 <= t < |s.tenants| ::
      && 0 <= s.tenants[t].reserved <= s.tenants[t].balance <= MAX_ACCOUNT_BALANCE
      && UnitAmount(s.tenants[t].unitPrice)
  }

  ghost predicate TaskOk(x: Task, tenants: nat) {
    && x.tenant < tenants
    && (x.isReserved <==> Active(x.status))
    && (if x.isReserved then UnitAmount(x.reservedAmount) && !x.isCharged else x.reservedAmount == 0)
    && (if x.isCharged then UnitAmount(x.charged) else x.charged == 0)
    && (x.status == Success ==> x.isCharged && x.leaseOwner == None)
  }

  ghost predicate TasksOk(s: Db) {
    forall k | 0 <= k < |s.tasks| :: TaskOk(s.tasks[k], |s.tenants|)
  }

  ghost predicate HoldsOk(s: Db) {
    forall t | 0 <= t < |s.tenants| :: s.tenants[t].reserved == SumHolds(s.tasks, t)
  }

  ghost predicate RowOk(s: Db, row: Row, earlier: seq<Row>) {
    && row.tenant < |s.tenants|
    && row.before == LedgerBalance(earlier, row.tenant)
    && row.after == row.before + Signed(row)
    && 0 <= row.before <= MAX_ACCOUNT_BALANCE
    && 0 <= row.after <= MAX_ACCOUNT_BALANCE
    && (if row.kind == Recharge then RechargeAmount(row.amount) && row.task.None?
        else UnitAmount(row.amount) && row.task.Some?
             && row.task.value < |s.tasks| && s.tasks[row.task.value].tenant == row.tenant)
  }

  ghost predicate LedgerOk(s: Db) {
    && (forall i | 0 <= i < |s.ledger| :: RowOk(s, s.ledger[i], s.ledger[..i]))
    && (forall t | 0 <= t < |s.tenants| :: s.tenants[t].balance == LedgerBalance(s.ledger, t))
    && (forall t: nat | t >= |s.tenants| :: LedgerBalance(s.ledger, t) == 0)
  }

  /** A charged task has one deduction, of its charged amount; a refund repeats that amount, once. */
  ghost predicate ChargeOk(s: Db, k: nat, x: Task) {
    var deductions := RowsOf(s.ledger, k, Deduction);
    var refunds := RowsOf(s.ledger, k, Refund);
    && (if x.isCharged
        then |deductions| == 1 && deductions[0].tenant == x.tenant && deductions[0].amount == x.charged
        else deductions == [] && refunds == [])
    && (refunds == [] || (|refunds| == 1 && refunds[0].tenant == x.tenant && refunds[0].amount == x.charged))
  }

  ghost predicate ChargesOk(s: Db) {
    && (forall k: nat | k < |s.tasks| :: ChargeOk(s, k, s.tasks[k]))
    && (forall k: nat | k >= |s.tasks| :: RowsOf(s.ledger, k, Deduction) == [] && RowsOf(s.ledger, k, Refund) == [])
  }

  ghost predicate FeedbackOk(s: Db) {
    && (forall k | k in s.feedback ::
          && k < |s.tasks|
          && s.feedback[k].tenant == s.tasks[k].tenant
          && (s.feedback[k].isRefunded ==> s.feedback[k].status in {Accepted, Resolved})
          && s.feedback[k].refundAmount == if s.feedback[k].isRefunded then s.tasks[k].charged else 0)
    && (forall k: nat | k < |s.tasks| ::
          RowsOf(s.ledger, k, Refund) != [] <==> k in s.feedback && s.feedback[k].isRefunded)
  }

  ghost predicate Inv(s: Db) {
    TenantsOk(s) && TasksOk(s) && HoldsOk(s) && LedgerOk(s) && ChargesOk(s) && FeedbackOk(s)
  }

  /** The part of the invariant that only speaks of balances, charges, rows and feedback. */
  ghost predicate BooksOk(s: Db) {
    LedgerOk(s) && ChargesOk(s) && FeedbackOk(s)
  }

  predicate SameCharge(x: Task, y: Task) {
    x.tenant == y.tenant && x.key == y.key && x.isCharged == y.isCharged && x.charged == y.charged
  }

  lemma BooksFrame(s: Db, tenants: seq<Tenant>, tasks: seq<Task>)
    requires BooksOk(s) && |tenants| == |s.tenants| && |tasks| == |s.tasks|
    requires forall t | 0 <= t < |tenants| :: tenants[t].balance == s.tenants[t].balance
    requires forall k | 0 <= k < |tasks| :: SameCharge(s.tasks[k], tasks[k])
    ensures BooksOk(s.(tenants := tenants, tasks := tasks))
  {
    var s' := s.(tenants := tenants, tasks := tasks);
    assert LedgerOk(s') by {
      assert forall i | 0 <= i < |s.ledger| :: RowOk(s, s.ledger[i], s.ledger[..i]);
    }
    assert ChargesOk(s') by {
      assert forall k: nat | k < |tasks| :: ChargeOk(s, k, s.tasks[k]) ==> ChargeOk(s', k, tasks[k]);
    }
  }

  // ----- changes that move no money -----

  predicate SameMoney(x: Task, y: Task) {
    SameCharge(x, y) && x.isReserved == y.isReserved && x.reservedAmount == y.reservedAmount
  }

  lemma TasksChange(s: Db, tasks: seq<Task>)
    requires Inv(s) && |tasks| == |s.tasks|
    requires forall k | 0 <= k < |tasks| :: SameMoney(s.tasks[k], tasks[k]) && TaskOk(tasks[k], |s.tenants|)
    ensures Inv(s.(tasks := tasks))
  {
    BooksFrame(s, s.tenants, tasks);
    forall t | 0 <= t < |s.tenants| ensures SumHolds(tasks, t) == SumHolds(s.tasks, t) {
      SumHoldsSame(s.tasks, tasks, t);
    }
  }

  lemma TaskChange(s: Db, k: nat, x: Task)
    requires Inv(s) && k < |s.tasks| && SameMoney(s.tasks[k], x) && TaskOk(x, |s.tenants|)
    ensures Inv(WithTask(s, k, x))
  {
    TasksChange(s, s.tasks[k := x]);
  }

  lemma TenantChange(s: Db, t: nat, x: Tenant)
    requires Inv(s) && t < |s.tenants| && UnitAmount(x.unitPrice)
    requires x.balance == s.tenants[t].balance && x.reserved == s.tenants[t].reserved
    ensures Inv(s.(tenants := s.tenants[t := x]))
  {
    BooksFrame(s, s.tenants[t := x], s.tasks);
  }

  // ----- holds -----

  /** Task k's tenant after task k's hold became the one of x. */
  function Rehold(s: Db, k: nat, x: Task): Tenant
    requires k < |s.tasks| && x.tenant < |s.tenants|
  {
    var y := s.tenants[x.tenant];
    y.(reserved := y.reserved - Hold(s.tasks[k], x.tenant) + Hold(x, x.tenant))
  }

  lemma HoldChange(s: Db, k: nat, x: Task)
    requires Inv(s) && k < |s.tasks| && TaskOk(x, |s.tenants|) && SameCharge(s.tasks[k], x)
    requires Rehold(s, k, x).reserved <= s.tenants[x.tenant].balance
    ensures Rehold(s, k, x).reserved >= 0
    ensures Inv(s.(tasks := s.tasks[k := x], tenants := s.tenants[x.tenant := Rehold(s, k, x)]))
  {
    hide LedgerOk, ChargesOk, FeedbackOk;
    var y := Rehold(s, k, x);
    BooksFrame(s, s.tenants[x.tenant := y], s.tasks[k := x]);
    HoldWithinSum(s.tasks, k, x.tenant);
    forall t | 0 <= t < |s.tenants|
      ensures SumHolds(s.tasks[k := x], t) == SumHolds(s.tasks, t) - Hold(s.tasks[k], t) + Hold(x, t)
    {
      SumHoldsUpdate(s.tasks, k, x, t);
    }
  }

  // ----- new rows -----

  lemma {:induction false} NoHolds(tasks: seq<Task>, t: nat)
    requires forall k | 0 <= k < |tasks| :: tasks[k].tenant != t
    ensures SumHolds(tasks, t) == 0
  {
    if tasks != [] {
      NoHolds(tasks[..|tasks| - 1], t);
    }
  }

  lemma BooksWithNewTenant(s: Db, x: Tenant)
    requires BooksOk(s) && x.balance == 0
    ensures BooksOk(s.(tenants := s.tenants + [x]))
  {
    var s' := s.(tenants := s.tenants + [x]);
    assert LedgerOk(s') by {
      assert forall i | 0 <= i < |s.ledger| :: RowOk(s, s.ledger[i], s.ledger[..i]);
    }
    assert ChargesOk(s') by {
      assert forall k: nat | k < |s.tasks| :: ChargeOk(s, k, s.tasks[k]) ==> ChargeOk(s', k, s.tasks[k]);
    }
  }

  lemma NewTenant(s: Db, x: Tenant)
    requires Inv(s) && x.balance == 0 && x.reserved == 0 && UnitAmount(x.unitPrice)
    ensures Inv(s.(tenants := s.tenants + [x]))
  {
    hide LedgerOk, ChargesOk, FeedbackOk;
    var s' := s.(tenants := s.tenants + [x]);
    BooksWithNewTenant(s, x);
    forall k | 0 <= k < |s.tasks| ensures TaskOk(s.tasks[k], |s'.tenants|) && s.tasks[k].tenant != |s.tenants| {
      assert TaskOk(s.tasks[k], |s.tenants|);
    }
    NoHolds(s.tasks, |s.tenants|);
    assert HoldsOk(s') && TenantsOk(s');
  }

  lemma BooksWithNewTask(s: Db, x: Task, tenants: seq<Tenant>)
    requires BooksOk(s) && !x.isCharged
    requires |tenants| == |s.tenants| && forall t | 0 <= t < |tenants| :: tenants[t].balance == s.tenants[t].balance
    ensures BooksOk(s.(tasks := s.tasks + [x], tenants := tenants))
  {
    var s' := s.(tasks := s.tasks + [x], tenants := tenants);
    assert LedgerOk(s') by {
      assert forall i | 0 <= i < |s.ledger| :: RowOk(s, s.ledger[i], s.ledger[..i]);
    }
    assert ChargesOk(s') by {
      assert forall k: nat | k < |s.tasks| :: ChargeOk(s, k, s.tasks[k]) ==> ChargeOk(s', k, s.tasks[k]);
    }
  }

  lemma NewTask(s: Db, x: Task)
    requires Inv(s) && TaskOk(x, |s.tenants|) && !x.isCharged
    requires var y := s.tenants[x.tenant]; y.reserved + Hold(x, x.tenant) <= y.balance
    ensures var y := s.tenants[x.tenant];
            Inv(s.(tasks := s.tasks + [x],
                   tenants := s.tenants[x.tenant := y.(reserved := y.reserved + Hold(x, x.tenant))]))
  {
    hide LedgerOk, ChargesOk, FeedbackOk;
    var y := s.tenants[x.tenant];
    BooksWithNewTask(s, x, s.tenants[x.tenant := y.(reserved := y.reserved + Hold(x, x.tenant))]);
    forall t | 0 <= t < |s.tenants| ensures SumHolds(s.tasks + [x], t) == SumHolds(s.tasks, t) + Hold(x, t) {
      SumHoldsAppend(s.tasks, x, t);
    }
  }

  /** A row that starts from its tenant's balance extends the ledger. */
  lemma NewRow(s: Db, row: Row, tenants: seq<Tenant>, tasks: seq<Task>)
    requires LedgerOk(s) && RowOk(s, row, s.ledger)
    requires |tenants| == |s.tenants| && |tasks| == |s.tasks|
    requires forall t | 0 <= t < |tenants| ::
               tenants[t].balance == if t == row.tenant then row.after else s.tenants[t].balance
    requires forall k | 0 <= k < |tasks| :: tasks[k].tenant == s.tasks[k].tenant
    ensures LedgerOk(s.(ledger := s.ledger + [row], tenants := tenants, tasks := tasks))
  {
    var s' := s.(ledger := s.ledger + [row], tenants := tenants, tasks := tasks);
    LedgerAppend(s.ledger, row);
    forall i | 0 <= i < |s'.ledger| ensures RowOk(s', s'.ledger[i], s'.ledger[..i]) {
      assert s'.ledger[..i] == s.ledger[..i];
      if i < |s.ledger| {
        assert RowOk(s, s.ledger[i], s.ledger[..i]);
      } else {
        assert s.ledger[..i] == s.ledger;
      }
    }
  }

  lemma ChargesAfterCredit(s: Db, row: Row, s': Db)
    requires ChargesOk(s) && FeedbackOk(s) && row.kind == Recharge
    requires s'.ledger == s.ledger + [row] && s'.tasks == s.tasks && s'.feedback == s.feedback
    ensures ChargesOk(s') && FeedbackOk(s')
  {
    forall k: nat
      ensures RowsOf(s'.ledger, k, Deduction) == RowsOf(s.ledger, k, Deduction)
      ensures RowsOf(s'.ledger, k, Refund) == RowsOf(s.ledger, k, Refund)
    {
      LedgerAppend(s.ledger, row);
    }
    forall k: nat | k < |s.tasks| ensures ChargeOk(s', k, s.tasks[k]) {
      assert ChargeOk(s, k, s.tasks[k]);
    }
  }

  lemma CreditKeeps(s: Db, row: Row, s': Db)
    requires Inv(s) && row.kind == Recharge && RowOk(s, row, s.ledger)
    requires s'.ledger == s.ledger + [row] && s'.tasks == s.tasks && s'.feedback == s.feedback
    requires s'.tenants == s.tenants[row.tenant := s.tenants[row.tenant].(balance := row.after)]
    ensures Inv(s')
  {
    forall t | 0 <= t < |s'.tenants|
      ensures s'.tenants[t].balance == if t == row.tenant then row.before + row.amount else s.tenants[t].balance
      ensures s'.tenants[t].reserved == s.tenants[t].reserved && s'.tenants[t].unitPrice == s.tenants[t].unitPrice
    {
    }
    assert TenantsOk(s');
    assert LedgerOk(s') by {
      NewRow(s, row, s'.tenants, s'.tasks);
    }
    ChargesAfterCredit(s, row, s');
  }

  /** A deduction or refund row for task k settles task k and leaves the charges of the others alone. */
  lemma ChargesAfterRow(s: Db, k: nat, row: Row, s': Db)
    requires ChargesOk(s) && k < |s.tasks| == |s'.tasks| && s'.ledger == s.ledger + [row]
    requires row.task == Some(k) && row.tenant == s.tasks[k].tenant && row.kind != Recharge
    requires forall j | 0 <= j < |s.tasks| && j != k :: SameCharge(s.tasks[j], s'.tasks[j])
    requires s'.tasks[k].tenant == row.tenant && s'.tasks[k].isCharged && s'.tasks[k].charged == row.amount
    requires if row.kind == Deduction then !s.tasks[k].isCharged
             else SameCharge(s.tasks[k], s'.tasks[k]) && RowsOf(s.ledger, k, Refund) == []
    ensures ChargesOk(s')
  {
    forall j: nat ensures
      && RowsOf(s'.ledger, j, Deduction)
         == RowsOf(s.ledger, j, Deduction) + (if IsRow(row, j, Deduction) then [row] else [])
      && RowsOf(s'.ledger, j, Refund) == RowsOf(s.ledger, j, Refund) + (if IsRow(row, j, Refund) then [row] else [])
    {
      LedgerAppend(s.ledger, row);
    }
    forall j: nat | j < |s.tasks| ensures ChargeOk(s', j, s'.tasks[j]) {
      assert ChargeOk(s, j, s.tasks[j]);
    }
  }

  /** The ledger part of settling task k. */
  lemma BooksAfterCharge(s: Db, k: nat, row: Row, s': Db)
    requires BooksOk(s) && k < |s.tasks| == |s'.tasks| && |s'.tenants| == |s.tenants|
    requires !s.tasks[k].isCharged && s'.tasks[k].isCharged && s'.tasks[k].charged == row.amount
    requires row.kind == Deduction && row.task == Some(k) && RowOk(s, row, s.ledger)
    requires s'.tasks == s.tasks[k := s'.tasks[k]] && s'.tasks[k].tenant == row.tenant == s.tasks[k].tenant
    requires s'.ledger == s.ledger + [row] && s'.feedback == s.feedback
    requires forall t | 0 <= t < |s.tenants| ::
               s'.tenants[t].balance == if t == row.tenant then row.after else s.tenants[t].balance
    ensures BooksOk(s')
  {
    assert LedgerOk(s') by {
      NewRow(s, row, s'.tenants, s'.tasks);
    }
    assert ChargesOk(s') by {
      ChargesAfterRow(s, k, row, s');
    }
    assert FeedbackOk(s') by {
      LedgerAppend(s.ledger, row);
      assert ChargeOk(s, k, s.tasks[k]);
    }
  }

  /** Settling task k: its hold goes, its price leaves the balance, its deduction enters the ledger. */
  lemma ChargeKeeps(s: Db, k: nat, x: Task, s': Db)
    requires Inv(s) && k < |s.tasks| && s.tasks[k].isReserved
    requires x.tenant == s.tasks[k].tenant && x.isCharged && x.charged == s.tasks[k].reservedAmount && !x.isReserved
    requires TaskOk(x, |s.tenants|)
    requires var y := s.tenants[x.tenant];
             s' == s.(tenants := s.tenants[x.tenant := y.(balance := y.balance - x.charged,
                                                           reserved := y.reserved - x.charged)],
                      tasks := s.tasks[k := x],
                      ledger := s.ledger + [Row(x.tenant, Some(k), Deduction, x.charged,
                                                y.balance, y.balance - x.charged)])
    ensures Inv(s')
  {
    HoldWithinSum(s.tasks, k, x.tenant);
    BooksAfterCharge(s, k, s'.ledger[|s.ledger|], s');
    forall t | 0 <= t < |s.tenants|
      ensures SumHolds(s'.tasks, t) == SumHolds(s.tasks, t) - Hold(s.tasks[k], t) + Hold(x, t)
    {
      SumHoldsUpdate(s.tasks, k, x, t);
    }
  }

  lemma FeedbackAfterRefund(s: Db, k: nat, fb: Feedback, row: Row, s': Db)
    requires FeedbackOk(s) && k in s.feedback && k < |s.tasks|
    requires s'.feedback == s.feedback[k := fb] && s'.tasks == s.tasks && s'.ledger == s.ledger + [row]
    requires IsRow(row, k, Refund)
    requires fb == s.feedback[k].(status := Accepted, isRefunded := true, refundAmount := s.tasks[k].charged)
    ensures FeedbackOk(s')
  {
    forall j: nat ensures RowsOf(s'.ledger, j, Refund)
                          == RowsOf(s.ledger, j, Refund) + (if j == k then [row] else [])
    {
      LedgerAppend(s.ledger, row);
    }
  }

  lemma RefundRowOk(s: Db, k: nat, row: Row)
    requires TenantsOk(s) && TasksOk(s) && LedgerOk(s) && k < |s.tasks| && s.tasks[k].isCharged
    requires s.tasks[k].tenant < |s.tenants|
    requires var x := s.tenants[s.tasks[k].tenant];
             && x.balance + s.tasks[k].charged <= MAX_ACCOUNT_BALANCE
             && row == Row(s.tasks[k].tenant, Some(k), Refund, s.tasks[k].charged, x.balance,
                           x.balance + s.tasks[k].charged)
    ensures RowOk(s, row, s.ledger)
  {
    hide LedgerBalance;
    assert TaskOk(s.tasks[k], |s.tenants|);
  }

  /** A refund row with the feedback that records it. */
  lemma RefundRowKeeps(s: Db, k: nat, fb: Feedback, row: Row, s': Db)
    requires Inv(s) && k < |s.tasks| && k in s.feedback && s.tasks[k].isCharged && RowsOf(s.ledger, k, Refund) == []
    requires var x := s.tenants[s.tasks[k].tenant];
             && x.balance + s.tasks[k].charged <= MAX_ACCOUNT_BALANCE
             && row == Row(s.tasks[k].tenant, Some(k), Refund, s.tasks[k].charged, x.balance,
                           x.balance + s.tasks[k].charged)
             && s'.tenants == s.tenants[row.tenant := x.(balance := row.after)]
    requires fb == s.feedback[k].(status := Accepted, isRefunded := true, refundAmount := s.tasks[k].charged)
    requires s'.tasks == s.tasks && s'.ledger == s.ledger + [row] && s'.feedback == s.feedback[k := fb]
    ensures Inv(s')
  {
    hide LedgerOk, ChargesOk, FeedbackOk, RowOk, SumHolds, RowsOf;
    assert TaskOk(s.tasks[k], |s.tenants|);
    RefundRowOk(s, k, row);
    NewRow(s, row, s'.tenants, s'.tasks);
    assert s.(ledger := s.ledger + [row], tenants := s'.tenants, tasks := s'.tasks).ledger == s'.ledger;
    LedgerFrame(s.(ledger := s.ledger + [row], tenants := s'.tenants, tasks := s'.tasks), s'.feedback);
    ChargesAfterRow(s, k, row, s');
    FeedbackAfterRefund(s, k, fb, row, s');
    assert LedgerOk(s');
  }

  lemma LedgerFrame(s: Db, feedback: map<nat, Feedback>)
    requires LedgerOk(s)
    ensures LedgerOk(s.(feedback := feedback))
  {
    hide LedgerBalance;
    var s' := s.(feedback := feedback);
    forall i | 0 <= i < |s'.ledger| ensures RowOk(s', s'.ledger[i], s'.ledger[..i]) {
      assert RowOk(s, s.ledger[i], s.ledger[..i]);
    }
  }

  // ----- every step -----

  lemma SubmitKeeps(s: Db, step: Step)
    requires Inv(s) && step.Submit?
    ensures Inv(Next(s, step))
  {
    hide Inv, CountActive, SumHolds;
    var Submit(t, key, raced, limits) := step;
    var (s', r) := ApplySubmit(s, t, key, raced, limits);
    if r.Created? {
      NewTask(s, s'.tasks[|s.tasks|]);
    }
  }

  lemma RetryKeeps(s: Db, step: Step)
    requires Inv(s) && step.Retry?
    ensures Inv(Next(s, step))
  {
    hide HoldsOk, LedgerOk, ChargesOk, FeedbackOk;
    var Retry(k) := step;
    var s' := ApplyRetry(s, k);
    if s' != s {
      HoldChange(s, k, s'.tasks[k]);
    }
  }

  /** In a good state a release never raises, and takes exactly the hold. */
  lemma ReleaseIsSafe(s: Db, t: nat, k: nat)
    requires Inv(s)
    ensures match Release(s, t, k)
            case Raised => false
            case NothingHeld => k >= |s.tasks| || s.tasks[k].tenant != t || !Active(s.tasks[k].status)
            case Freed(d) =>
              && k < |s.tasks| && s.tasks[k].tenant == t && Active(s.tasks[k].status)
              && var x := s.tasks[k].(isReserved := false, reservedAmount := 0);
                 d == s.(tasks := s.tasks[k := x], tenants := s.tenants[t := Rehold(s, k, x)])
  {
    if k < |s.tasks| && s.tasks[k].tenant == t && s.tasks[k].isReserved {
      HoldWithinSum(s.tasks, k, t);
    }
  }

  /** Failing a task and giving its hold back, in either order, ends in the same good state. */
  lemma FailAndFree(s: Db, k: nat, x: Task)
    requires Inv(s) && k < |s.tasks| && x == s.tasks[k].(status := Failed, leaseOwner := x.leaseOwner,
                                                         leaseExpires := x.leaseExpires)
    ensures var freed := x.(isReserved := false, reservedAmount := 0);
            && Inv(s.(tasks := s.tasks[k := freed], tenants := s.tenants[x.tenant := Rehold(s, k, freed)]))
            && CommitReleasing(s, WithTask(s, k, x), x.tenant, k)
               == s.(tasks := s.tasks[k := freed], tenants := s.tenants[x.tenant := Rehold(s, k, freed)])
  {
    var freed := x.(isReserved := false, reservedAmount := 0);
    assert TaskOk(s.tasks[k], |s.tenants|);
    HoldWithinSum(s.tasks, k, x.tenant);
    HoldChange(s, k, freed);
    assert s.tasks[k := x][k := freed] == s.tasks[k := freed];
    if !x.isReserved {
      assert x == freed && Rehold(s, k, freed) == s.tenants[x.tenant];
      assert s.tenants[x.tenant := s.tenants[x.tenant]] == s.tenants;
    }
  }

  lemma TimeOutKeeps(s: Db, step: Step)
    requires Inv(s) && step.TimeOut?
    ensures Inv(Next(s, step))
  {
    hide HoldsOk, LedgerOk, ChargesOk, FeedbackOk, Release;
    var TimeOut(t, k, _) := step;
    ReleaseIsSafe(s, t, k);
    if k < |s.tasks| && s.tasks[k].tenant == t && Active(s.tasks[k].status) {
      var freed := s.tasks[k].(isReserved := false, reservedAmount := 0);
      assert s.tasks[k := freed][k := Failing(freed)] == s.tasks[k := Failing(freed)];
      FailAndFree(s, k, Failing(s.tasks[k]));
    }
  }

  lemma TimeOutLocallyKeeps(s: Db, step: Step)
    requires Inv(s) && step.TimeOutLocally?
    ensures Inv(Next(s, step))
  {
    hide HoldsOk, LedgerOk, ChargesOk, FeedbackOk, Release;
    var TimeOutLocally(k, _) := step;
    if k < |s.tasks| {
      ReleaseIsSafe(s, s.tasks[k].tenant, k);
      var freed := s.tasks[k].(isReserved := false, reservedAmount := 0);
      var failed := freed.(status := Failed);
      assert s.tasks[k := freed][k := failed] == s.tasks[k := failed];
      if Active(s.tasks[k].status) {
        FailAndFree(s, k, s.tasks[k].(status := Failed));
      }
    }
  }

  lemma SucceedKeeps(s: Db, step: Step)
    requires Inv(s) && step.Succeed?
    ensures Inv(Next(s, step))
  {
    hide HoldsOk, LedgerOk, ChargesOk, FeedbackOk, RowsOf;
    var Succeed(k, worker) := step;
    var s' := ApplySucceed(s, k, worker);
    if s' != s {
      var x := s'.tasks[k];
      var flushed := s.tasks[k].(status := Success, leaseOwner := None, leaseExpires := None);
      assert s.tasks[k := flushed][k := x] == s.tasks[k := x];
      ChargeKeeps(s, k, x, s');
    }
  }

  lemma FailKeeps(s: Db, step: Step)
    requires Inv(s) && step.Fail?
    ensures Inv(Next(s, step))
  {
    var Fail(k, worker) := step;
    if k < |s.tasks| {
      assert TaskOk(s.tasks[k], |s.tenants|);
      FailAndFree(s, k, Failing(s.tasks[k]));
    }
  }

  lemma ExitInactiveKeeps(s: Db, step: Step)
    requires Inv(s) && step.ExitInactive?
    ensures Inv(Next(s, step))
  {
    var ExitInactive(k, _) := step;
    if k < |s.tasks| {
      FailAndFree(s, k, Failing(s.tasks[k]));
    }
  }

  /** Feedback may be rewritten as long as the refund mark and its amount stay. */
  lemma FeedbackChange(s: Db, feedback: map<nat, Feedback>)
    requires Inv(s) && s.feedback.Keys <= feedback.Keys
    requires forall k | k in feedback ::
               && k < |s.tasks| && feedback[k].tenant == s.tasks[k].tenant
               && (feedback[k].isRefunded ==> feedback[k].status in {Accepted, Resolved})
               && feedback[k].isRefunded == (k in s.feedback && s.feedback[k].isRefunded)
               && feedback[k].refundAmount == if feedback[k].isRefunded then s.tasks[k].charged else 0
    ensures Inv(s.(feedback := feedback))
  {
    var s' := s.(feedback := feedback);
    assert LedgerOk(s') by {
      assert forall i | 0 <= i < |s.ledger| :: RowOk(s, s.ledger[i], s.ledger[..i]);
    }
    assert ChargesOk(s') by {
      assert forall k: nat | k < |s.tasks| :: ChargeOk(s, k, s.tasks[k]) ==> ChargeOk(s', k, s.tasks[k]);
    }
  }

  lemma SubmitFeedbackKeeps(s: Db, step: Step)
    requires Inv(s) && step.SubmitFeedback?
    ensures Inv(Next(s, step))
  {
    hide TenantsOk, HoldsOk, LedgerOk, ChargesOk, RowsOf;
    var SubmitFeedback(t, k, differs) := step;
    FeedbackChange(s, ApplySubmitFeedback(s, t, k, differs).feedback);
  }

  lemma RejectKeeps(s: Db, step: Step)
    requires Inv(s) && step.Reject?
    ensures Inv(Next(s, step))
  {
    hide TenantsOk, HoldsOk, LedgerOk, ChargesOk, RowsOf;
    var Reject(k) := step;
    FeedbackChange(s, ApplyReject(s, k).feedback);
  }

  lemma PublishKeeps(s: Db, step: Step)
    requires Inv(s) && step.Publish?
    ensures Inv(Next(s, step))
  {
    hide TenantsOk, HoldsOk, LedgerOk, ChargesOk, RowsOf;
    FeedbackChange(s, ApplyPublish(s).feedback);
  }

  /** Open feedback has no refund behind it, so accepting it refunds the whole charge, refunds nothing,
      or changes nothing. */
  lemma AcceptCases(s: Db, k: nat, autoRefund: bool)
    requires Inv(s) && k in s.feedback && s.feedback[k].status == Open
    ensures var fb := s.feedback[k].(status := Accepted);
            var b := s.tenants[fb.tenant].balance;
            var row := Row(fb.tenant, Some(k), Refund, s.tasks[k].charged, b, b + s.tasks[k].charged);
            && fb.tenant == s.tasks[k].tenant < |s.tenants|
            && RowsOf(s.ledger, k, Refund) == [] && !fb.isRefunded
            && ApplyAccept(s, k, autoRefund)
               == if !autoRefund || !s.tasks[k].isCharged then s.(feedback := s.feedback[k := fb])
                  else if row.after > MAX_ACCOUNT_BALANCE then s
                  else Db(s.tenants[fb.tenant := s.tenants[fb.tenant].(balance := row.after)], s.tasks,
                          s.ledger + [row],
                          s.feedback[k := fb.(isRefunded := true, refundAmount := s.tasks[k].charged)])
  {
    hide HoldsOk, LedgerOk, RowsOf;
    assert ChargeOk(s, k, s.tasks[k]);
    assert TaskOk(s.tasks[k], |s.tenants|);
  }

  lemma AcceptKeeps(s: Db, step: Step)
    requires Inv(s) && step.Accept?
    ensures Inv(Next(s, step))
  {
    hide TenantsOk, HoldsOk, LedgerOk, ChargesOk, RowsOf, RefundTask;
    var Accept(k, autoRefund) := step;
    if k in s.feedback && s.feedback[k].status == Open {
      AcceptCases(s, k, autoRefund);
      var s' := ApplyAccept(s, k, autoRefund);
      if s'.ledger == s.ledger {
        FeedbackChange(s, s'.feedback);
      } else {
        RefundRowKeeps(s, k, s'.feedback[k], s'.ledger[|s.ledger|], s');
      }
    }
  }

  lemma TenantStepKeeps(s: Db, step: Step)
    requires Inv(s) && (step.CreateTenant? || step.SetPrice? || step.SetActive?)
    ensures Inv(Next(s, step))
  {
    match step
    case CreateTenant(price, active) =>
      if UnitPrice(price).Ok? { NewTenant(s, Tenant(active, 0, 0, UnitPrice(price).value)); }
    case SetPrice(t, price) =>
      if UnitPrice(price).Ok? && t < |s.tenants| {
        TenantChange(s, t, s.tenants[t].(unitPrice := UnitPrice(price).value));
      }
    case SetActive(t, active) =>
      if t < |s.tenants| { TenantChange(s, t, s.tenants[t].(active := active)); }
  }

  lemma DepositKeeps(s: Db, step: Step)
    requires Inv(s) && step.Deposit?
    ensures Inv(Next(s, step))
  {
    var Deposit(t, amount) := step;
    var a := ValidateMoney(amount, MAX_RECHARGE_AMOUNT, MIN_RECHARGE_AMOUNT, false);
    if a.Ok? && Credit(s, t, a.value).Some? {
      var s' := Credit(s, t, a.value).value;
      CreditKeeps(s, s'.ledger[|s.ledger|], s');
    }
  }

  lemma ClaimKeeps(s: Db, step: Step)
    requires Inv(s) && step.Claim?
    ensures Inv(Next(s, step))
  {
    var Claim(k, worker, now, lease) := step;
    if k < |s.tasks| {
      assert TaskOk(s.tasks[k], |s.tenants|);
      TaskChange(s, k, ApplyClaim(s, k, worker, now, lease).tasks[k]);
    }
  }

  lemma CancelKeeps(s: Db, step: Step)
    requires Inv(s) && step.Cancel?
    ensures Inv(Next(s, step))
  {
    var Cancel(k, worker) := step;
    if k < |s.tasks| {
      assert TaskOk(s.tasks[k], |s.tenants|);
      TaskChange(s, k, ApplyCancel(s, k, worker).tasks[k]);
    }
  }

  lemma RecoverKeeps(s: Db, step: Step)
    requires Inv(s) && step.Recover?
    ensures Inv(Next(s, step))
  {
    var Recover(now) := step;
    TasksChange(s, ApplyRecover(s, now).tasks);
  }

  lemma RecoverLocallyKeeps(s: Db, step: Step)
    requires Inv(s) && step.RecoverLocally?
    ensures Inv(Next(s, step))
  {
    TasksChange(s, ApplyRecoverLocally(s).tasks);
  }
}
