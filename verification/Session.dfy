/** The service's methods as they run: statement by statement inside a transaction that commits or rolls
    back. Each is proved to do what its step of the protocol says. */
module Session {
  import opened Wrappers
  import opened Money
  import opened Database
  import opened Billing
  import opened Lifecycle
  import opened Invariants
  import Reachable

  datatype ReleaseOutcome = NoHold | HoldFreed | ReleaseError

  function RechargeAmountOf(value: MoneyInput): Result<int, MoneyError> {
    ValidateMoney(value, MAX_RECHARGE_AMOUNT, MIN_RECHARGE_AMOUNT, false)
  }

  /** A tenant that does not exist is no error; the other refusals raise. */
  datatype RechargeOutcome = Recharged(row: Row) | NoTenant | RechargeError

  datatype RefundOutcome = NotCharged | RefundRow(row: Row) | RefundError

  lemma StepKeeps(s: Db, step: Step, s': Db)
    requires s' == Next(s, step)
    ensures Inv(s) ==> Inv(s')
  {
    hide Inv, Next;
    if Inv(s) {
      Reachable.NextKeeps(s, step);
    }
  }

  /** A task as a submission inserts it. */
  function Submitted(t: nat, key: Option<string>, price: int): Task {
    Task(t, key, Pending, false, 0, true, price, None, None, 0)
  }

  /** Nothing but task k changed, if anything, and it holds and owes what it did. */
  predicate OnlyTask(s: Db, s': Db, k: nat, allowed: bool) {
    && s'.tenants == s.tenants && s'.ledger == s.ledger && s'.feedback == s.feedback && |s'.tasks| == |s.tasks|
    && (forall j | 0 <= j < |s.tasks| && s'.tasks[j] != s.tasks[j] ::
          allowed && j == k && SameMoney(s.tasks[j], s'.tasks[j]))
  }

  /** Nothing but the review of task k changed, if anything, and no refund mark appeared or went. */
  predicate OnlyReview(s: Db, s': Db, k: nat) {
    && s'.tenants == s.tenants && s'.tasks == s.tasks && s'.ledger == s.ledger
    && (forall j | j in s.feedback :: j in s'.feedback && s'.feedback[j].isRefunded == s.feedback[j].isRefunded
                                      && s'.feedback[j].refundAmount == s.feedback[j].refundAmount)
    && (forall j | j in s'.feedback && j != k :: j in s.feedback && s'.feedback[j] == s.feedback[j])
    && (forall j | j in s'.feedback && j !in s.feedback :: !s'.feedback[j].isRefunded)
  }

  lemma ReservationIsForOneTask(s: Db, t: nat, key: Option<string>)
    requires Inv(s) && Reserve(s, t).Some?
    ensures var (held, price) := Reserve(s, t).value;
            Inv(held.(tasks := held.tasks + [Submitted(t, key, price)]))
  {
    hide Inv;
    NewTask(s, Submitted(t, key, Reserve(s, t).value.1));
  }

  class Session {
    var work: Db        // what the open transaction sees
    var committed: Db   // what every other transaction sees

    constructor (s: Db)
      ensures work == s && committed == s
    {
      work, committed := s, s;
    }

    method Commit()
      modifies this
      ensures work == committed == old(work)
    {
      committed := work;
    }

    method Rollback()
      modifies this
      ensures work == committed == old(committed)
    {
      work := committed;
    }

    method SetTenant(t: nat, x: Tenant)
      requires t < |work.tenants|
      modifies this`work
      ensures work == old(work).(tenants := old(work).tenants[t := x])
    {
      work := work.(tenants := work.tenants[t := x]);
    }

    method SetTask(k: nat, x: Task)
      requires k < |work.tasks|
      modifies this`work
      ensures work == WithTask(old(work), k, x)
    {
      work := WithTask(work, k, x);
    }

    method AddRow(row: Row)
      modifies this`work
      ensures work == old(work).(ledger := old(work).ledger + [row])
    {
      work := work.(ledger := work.ledger + [row]);
    }

    // ----- billing_service.py -----

    method ReserveForNewTask(t: nat) returns (price: Option<int>)
      modifies this`work
      ensures match Reserve(old(work), t)
              case None => price == None && work == old(work)
              case Some((held, p)) => price == Some(p) && work == held
      ensures price.Some? ==>
                && t < |old(work).tenants| == |work.tenants|
                && work.tenants[t].balance == old(work).tenants[t].balance
                && old(work).tenants[t].reserved + price.value == work.tenants[t].reserved <= work.tenants[t].balance
                && (forall u | 0 <= u < |work.tenants| && u != t :: work.tenants[u] == old(work).tenants[u])
                && work.tasks == old(work).tasks && work.ledger == old(work).ledger
      ensures price.Some? && Inv(old(work)) ==>
                forall key :: Inv(work.(tasks := work.tasks + [Submitted(t, key, price.value)]))
    {
      hide Inv;
      ghost var start := work;
      if t >= |work.tenants| || !CanFund(work.tenants[t]) {
        return None;
      }
      var x := work.tenants[t];
      SetTenant(t, x.(reserved := x.reserved + x.unitPrice));
      var tenant := work.tenants[t];
      price := Some(tenant.unitPrice);
      if Inv(start) {
        forall key ensures Inv(work.(tasks := work.tasks + [Submitted(t, key, price.value)])) {
          ReservationIsForOneTask(start, t, key);
        }
      }
    }

    method ReleaseTaskReservation(t: nat, k: nat) returns (r: ReleaseOutcome)
      modifies this`work
      ensures match Release(old(work), t, k)
              case NothingHeld => r == NoHold && work == old(work)
              case Freed(d) => r == HoldFreed && work == d
              case Raised => r == ReleaseError && work == old(work)
    {
      if k >= |work.tasks| || work.tasks[k].tenant != t || !work.tasks[k].isReserved {
        return NoHold;
      }
      var amount := work.tasks[k].reservedAmount;
      if !UnitAmount(amount) {
        return ReleaseError;
      }
      if t >= |work.tenants| || work.tenants[t].reserved < amount {
        return ReleaseError;
      }
      SetTenant(t, work.tenants[t].(reserved := work.tenants[t].reserved - amount));
      SetTask(k, work.tasks[k].(isReserved := false, reservedAmount := 0));
      return HoldFreed;
    }

    /** On None the transaction is as it was or rolled back; on success it is committed. */
    method DeductForTaskSuccess(t: nat, k: nat) returns (tx: Option<Row>)
      modifies this
      ensures match Deduct(old(work), t, k)
              case None => tx == None && committed == old(committed) && work in {old(work), old(committed)}
              case Some(d) => work == committed == d && d.ledger != [] && tx == Some(d.ledger[|d.ledger| - 1])
    {
      if k >= |work.tasks| || work.tasks[k].tenant != t || work.tasks[k].isCharged
         || work.tasks[k].status !in {Processing, Success} || t >= |work.tenants| {
        return None;
      }
      ghost var start := work;
      var task := work.tasks[k];
      var price := task.reservedAmount;
      if task.isReserved {
        if !UnitAmount(price) {
          Rollback();
          return None;
        }
        var x := work.tenants[t];
        if !(x.active && x.balance <= MAX_ACCOUNT_BALANCE && x.reserved <= x.balance
             && x.balance >= price && x.reserved >= price) {
          Rollback();
          return None;
        }
        SetTenant(t, x.(balance := x.balance - price, reserved := x.reserved - price));
      } else {
        var x := work.tenants[t];
        if !CanFund(x) {
          Rollback();
          return None;
        }
        SetTenant(t, x.(balance := x.balance - x.unitPrice));
        price := work.tenants[t].unitPrice;
      }
      var balanceAfter := work.tenants[t].balance;
      var balanceBefore := balanceAfter + price;
      // The task UPDATE repeats the guards of the read above. Here nothing can come between the two;
      // module Deduction is about what happens when something does.
      SetTask(k, work.tasks[k].(isCharged := true, charged := price, isReserved := false, reservedAmount := 0));
      if RowsOf(work.ledger, k, Deduction) != [] {
        Rollback();
        return None;
      }
      var row := Row(t, Some(k), Deduction, price, balanceBefore, balanceAfter);
      AddRow(row);
      assert work == Deduct(start, t, k).value;
      Commit();
      return Some(row);
    }

    method RechargeBalance(t: nat, value: MoneyInput) returns (r: RechargeOutcome)
      requires work == committed
      modifies this
      ensures work == committed == ApplyDeposit(old(work), t, value)
      ensures r.Recharged? ==>
                && t < |old(work).tenants| && value.Number? && r.row.amount as real == Ticks(value)
                && var y, a := old(work).tenants[t], r.row.amount;
                   && r.row == Row(t, None, Recharge, a, y.balance, y.balance + a)
                   && work == Db(old(work).tenants[t := Tenant(y.active, y.balance + a, y.reserved, y.unitPrice)],
                                 old(work).tasks, old(work).ledger + [r.row], old(work).feedback)
      ensures r.Recharged? <==>
                && value.Number? && value.exponent >= -4 && 100.0 <= Ticks(value) <= 10_000_000_000.0
                && t < |old(work).tenants| && 0 <= old(work).tenants[t].reserved <= old(work).tenants[t].balance
                && old(work).tenants[t].balance as real + Ticks(value) <= 999_999_999_999.0
      ensures !r.Recharged? ==> work == old(work)
      ensures r.NoTenant? <==> RechargeAmountOf(value).Ok? && t >= |old(work).tenants|
      ensures r.RechargeError? <==>
                || RechargeAmountOf(value).Err?
                || (t < |old(work).tenants| && Credit(old(work), t, RechargeAmountOf(value).value).None?)
      ensures Inv(old(work)) ==> Inv(work)
    {
      hide Inv;
      StepKeeps(work, Deposit(t, value), ApplyDeposit(work, t, value));
      var checked := RechargeAmountOf(value);
      if checked.Err? {
        return RechargeError;
      }
      if t >= |work.tenants| {
        return NoTenant;
      }
      var amount := checked.value;
      var balanceBefore := work.tenants[t].balance;
      if balanceBefore < 0 || balanceBefore > MAX_ACCOUNT_BALANCE {
        return RechargeError;
      }
      var x := work.tenants[t];
      if !(0 <= x.reserved <= x.balance && x.balance <= MAX_ACCOUNT_BALANCE - amount) {
        Rollback();
        return RechargeError;
      }
      SetTenant(t, x.(balance := x.balance + amount));
      var balanceAfter := work.tenants[t].balance;
      var row := Row(t, None, Recharge, amount, balanceBefore, balanceAfter);
      AddRow(row);
      Commit();
      return Recharged(row);
    }

    method RefundTaskDeduction(t: nat, k: nat) returns (r: RefundOutcome)
      modifies this`work
      ensures match RefundTask(old(work), t, k)
              case NoCharge => r == NotCharged && work == old(work)
              case Existing(row) => r == RefundRow(row) && work == old(work)
              case Paid(d, row) => r == RefundRow(row) && work == d
              case RefundRaised => r == RefundError && work == old(work)
    {
      var existing := RowsOf(work.ledger, k, Refund);
      if existing != [] {
        return RefundRow(existing[0]);
      }
      if k >= |work.tasks| || work.tasks[k].tenant != t {
        return NotCharged;
      }
      if !work.tasks[k].isCharged || work.tasks[k].charged <= 0 {
        return NotCharged;
      }
      var deductions := RowsOf(work.ledger, k, Deduction);
      if |deductions| != 1 || deductions[0].tenant != t {
        return RefundError;
      }
      var amount := deductions[0].amount;
      if !RechargeAmount(amount) {
        return RefundError;
      }
      if t >= |work.tenants| || work.tenants[t].balance < 0
         || work.tenants[t].balance + amount > MAX_ACCOUNT_BALANCE {
        return RefundError;
      }
      SetTenant(t, work.tenants[t].(balance := work.tenants[t].balance + amount));
      var balanceAfter := work.tenants[t].balance;
      var row := Row(t, Some(k), Refund, amount, balanceAfter - amount, balanceAfter);
      AddRow(row);
      return RefundRow(row);
    }

    method UpdateUnitPrice(t: nat, value: MoneyInput) returns (updated: bool)
      requires work == committed
      modifies this
      ensures work == committed == ApplySetPrice(old(work), t, value)
      ensures updated <==> value.Number? && value.exponent >= -4 && 100.0 <= Ticks(value) <= 1_000_000.0
                           && t < |old(work).tenants|
      ensures updated ==> t < |work.tenants| && work.tenants[t].unitPrice as real == Ticks(value)
      ensures work.tasks == old(work).tasks && work.ledger == old(work).ledger && |work.tenants| == |old(work).tenants|
      ensures forall u | 0 <= u < |work.tenants| ::
                && work.tenants[u].balance == old(work).tenants[u].balance
                && work.tenants[u].reserved == old(work).tenants[u].reserved
                && (work.tenants[u].unitPrice != old(work).tenants[u].unitPrice ==> updated && u == t)
      ensures Inv(old(work)) ==> Inv(work)
    {
      hide Inv;
      StepKeeps(work, SetPrice(t, value), ApplySetPrice(work, t, value));
      var price := UnitPrice(value);
      if price.Err? || t >= |work.tenants| {
        return false;
      }
      SetTenant(t, work.tenants[t].(unitPrice := price.value));
      Commit();
      return true;
    }

    // ----- extract.py: submission -----

    method SubmitTask(t: nat, key: Option<string>, raced: bool, limits: Limits) returns (answer: Submission)
      requires work == committed
      modifies this
      ensures work == committed
      ensures (committed, answer) == ApplySubmit(old(work), t, key, raced, limits)
      ensures Inv(old(work)) ==> Inv(work)
    {
      hide Inv;
      StepKeeps(work, Submit(t, key, raced, limits), ApplySubmit(work, t, key, raced, limits).0);
      var existing := if raced then None else FindKey(work.tasks, t, key);
      if existing.Some? {
        return Duplicate(existing.value);
      }
      if CountActive(work.tasks, Some(t)) >= limits.tenantPending
         || CountActive(work.tasks, None) >= limits.globalPending {
        return QueueFull;
      }
      var price := ReserveForNewTask(t);
      if price.None? {
        Rollback();
        return NoFunds;
      }
      var clash := FindKey(work.tasks, t, key);
      if clash.Some? {
        Rollback();
        return Duplicate(clash.value);
      }
      answer := Created(|work.tasks|);
      work := work.(tasks := work.tasks + [Submitted(t, key, price.value)]);
      Commit();
    }

    // ----- extraction_service.py: process_task -----

    method ClaimTask(k: nat, worker: string, now: int, lease: int) returns (claimed: bool)
      requires work == committed
      modifies this
      ensures work == committed == ApplyClaim(old(work), k, worker, now, lease)
      ensures claimed <==> k < |old(work).tasks| && var x := old(work).tasks[k];
                           || x.status == Pending
                           || (x.status == Processing && match x.leaseExpires case None => true case Some(e) => e < now)
      ensures claimed ==>
                var x := old(work).tasks[k];
                var y := Task(x.tenant, x.key, Processing, x.isCharged, x.charged, x.isReserved, x.reservedAmount,
                              Some(worker), Some(now + lease), x.attempts + 1);
                work == Db(old(work).tenants, old(work).tasks[k := y], old(work).ledger, old(work).feedback)
      ensures !claimed ==> work == old(work)
      ensures OnlyTask(old(work), work, k, claimed) && (Inv(old(work)) ==> Inv(work))
    {
      hide Inv;
      StepKeeps(work, Claim(k, worker, now, lease), ApplyClaim(work, k, worker, now, lease));
      if k >= |work.tasks| || !Claimable(work.tasks[k], now) {
        Rollback();
        return false;
      }
      SetTask(k, work.tasks[k].(status := Processing, leaseOwner := Some(worker), leaseExpires := Some(now + lease),
                                attempts := work.tasks[k].attempts + 1));
      Commit();
      return true;
    }

    method ExitIfInactive(k: nat) returns (exited: bool)
      requires work == committed && k < |work.tasks|
      modifies this
      ensures work == committed == ApplyExitInactive(old(work), k)
      ensures exited <==> !(old(work).tasks[k].tenant < |old(work).tenants|
                            && old(work).tenants[old(work).tasks[k].tenant].active)
      ensures Inv(old(work)) ==> Inv(work)
    {
      hide Inv;
      StepKeeps(work, ExitInactive(k, ""), ApplyExitInactive(work, k));
      var t := work.tasks[k].tenant;
      if t < |work.tenants| && work.tenants[t].active {
        return false;
      }
      SetTask(k, Failing(work.tasks[k]));
      var released := ReleaseTaskReservation(t, k);
      if released.ReleaseError? {
        Rollback();
      } else {
        Commit();
      }
      return true;
    }

    method FinishSuccessfully(k: nat, worker: string)
      requires work == committed
      modifies this
      ensures work == committed == ApplySucceed(old(work), k, worker)
      ensures Inv(old(work)) ==> Inv(work)
    {
      hide Inv;
      StepKeeps(work, Succeed(k, worker), ApplySucceed(work, k, worker));
      if k >= |work.tasks| || work.tasks[k].status != Processing || work.tasks[k].leaseOwner != Some(worker) {
        Rollback();
        return;
      }
      var t := work.tasks[k].tenant;
      SetTask(k, work.tasks[k].(status := Success, leaseOwner := None, leaseExpires := None));
      var tx := DeductForTaskSuccess(t, k);
      if tx.None? {
        Rollback();
      }
    }

    method FinishWithFailure(k: nat, worker: string)
      requires work == committed
      modifies this
      ensures work == committed == ApplyFail(old(work), k, worker)
      ensures Inv(old(work)) ==> Inv(work)
    {
      hide Inv;
      StepKeeps(work, Fail(k, worker), ApplyFail(work, k, worker));
      if k >= |work.tasks| || work.tasks[k].leaseOwner != Some(worker) {
        Rollback();
        return;
      }
      var task := Failing(work.tasks[k]);
      if !task.isCharged {
        task := task.(charged := 0);
      }
      SetTask(k, task);
      var released := ReleaseTaskReservation(task.tenant, k);
      if released.ReleaseError? {
        Rollback();
      } else {
        Commit();
      }
    }

    method HandBack(k: nat, worker: string)
      requires work == committed
      modifies this
      ensures work == committed == ApplyCancel(old(work), k, worker)
      ensures OnlyTask(old(work), work, k, k < |old(work).tasks| && old(work).tasks[k].status == Processing
                                           && old(work).tasks[k].leaseOwner == Some(worker))
      ensures k < |work.tasks| ==> !(work.tasks[k].status == Processing && work.tasks[k].leaseOwner == Some(worker))
      ensures Inv(old(work)) ==> Inv(work)
    {
      hide Inv;
      StepKeeps(work, Cancel(k, worker), ApplyCancel(work, k, worker));
      if k < |work.tasks| && work.tasks[k].status == Processing && work.tasks[k].leaseOwner == Some(worker) {
        SetTask(k, work.tasks[k].(status := Pending, leaseOwner := None, leaseExpires := None));
      }
      Commit();
    }

    // ----- celery_tasks.py and queue_service.py -----

    method MarkTimeout(t: nat, k: nat)
      requires work == committed
      modifies this
      ensures work == committed == ApplyTimeOut(old(work), t, k)
      ensures Inv(old(work)) ==> Inv(work)
    {
      hide Inv;
      StepKeeps(work, TimeOut(t, k, ""), ApplyTimeOut(work, t, k));
      if k >= |work.tasks| || work.tasks[k].tenant != t || !Active(work.tasks[k].status) {
        return;
      }
      var released := ReleaseTaskReservation(t, k);
      if released.ReleaseError? {
        Rollback();
        return;
      }
      SetTask(k, Failing(work.tasks[k]));
      Commit();
    }

    method MarkLocalTimeout(k: nat)
      requires work == committed
      modifies this
      ensures work == committed == ApplyTimeOutLocally(old(work), k)
      ensures Inv(old(work)) ==> Inv(work)
    {
      hide Inv;
      StepKeeps(work, TimeOutLocally(k, ""), ApplyTimeOutLocally(work, k));
      if k >= |work.tasks| {
        return;
      }
      var released := ReleaseTaskReservation(work.tasks[k].tenant, k);
      if released.ReleaseError? {
        Rollback();
        return;
      }
      if Active(work.tasks[k].status) {
        SetTask(k, work.tasks[k].(status := Failed));
      }
      Commit();
    }

    /** One bulk UPDATE of the expired leases. */
    method RecoverStaleTasks(now: int)
      requires work == committed
      modifies this
      ensures work == committed == ApplyRecover(old(work), now)
      ensures Inv(old(work)) ==> Inv(work)
    {
      hide Inv;
      StepKeeps(work, Recover(now), ApplyRecover(work, now));
      for k := 0 to |work.tasks|
        invariant |work.tasks| == |old(work).tasks| && committed == old(committed)
        invariant work == old(work).(tasks := work.tasks)
        invariant forall j | 0 <= j < |work.tasks| ::
                    work.tasks[j] == if j < k then Requeue(old(work).tasks[j], now) else old(work).tasks[j]
      {
        var x := work.tasks[k];
        if x.status == Processing && (x.leaseExpires.None? || x.leaseExpires.value < now) {
          SetTask(k, x.(status := Pending, leaseOwner := None, leaseExpires := None));
        }
      }
      assert work.tasks == RequeueAll(old(work).tasks, now);
      Commit();
    }

    /** The bulk UPDATE of an in-process start, which does not look at leases. */
    method RecoverUncompletedTasks()
      requires work == committed
      modifies this
      ensures work == committed == ApplyRecoverLocally(old(work))
      ensures Inv(old(work)) ==> Inv(work)
    {
      hide Inv;
      StepKeeps(work, RecoverLocally, ApplyRecoverLocally(work));
      for k := 0 to |work.tasks|
        invariant |work.tasks| == |old(work).tasks| && committed == old(committed)
        invariant work == old(work).(tasks := work.tasks)
        invariant forall j | 0 <= j < |work.tasks| ::
                    work.tasks[j] == if j < k then RequeueLocally(old(work).tasks[j]) else old(work).tasks[j]
      {
        if work.tasks[k].status == Processing {
          SetTask(k, work.tasks[k].(status := Pending));
        }
      }
      assert work.tasks == RequeueAllLocally(old(work).tasks);
      Commit();
    }

    // ----- v1/feedback.py -----

    method SubmitTaskFeedback(t: nat, k: nat, differs: bool) returns (accepted: bool)
      requires work == committed
      modifies this
      ensures work == committed == ApplySubmitFeedback(old(work), t, k, differs)
      ensures accepted ==> k in work.feedback && work.feedback[k].status == Open
      ensures !accepted ==> work == old(work)
      ensures k in old(work).feedback && old(work).feedback[k].status in {Accepted, Resolved} ==> !accepted
      ensures OnlyReview(old(work), work, k) && (Inv(old(work)) ==> Inv(work))
    {
      hide Inv;
      StepKeeps(work, SubmitFeedback(t, k, differs), ApplySubmitFeedback(work, t, k, differs));
      if k >= |work.tasks| || work.tasks[k].tenant != t {
        return false;
      }
      if work.tasks[k].status !in {Success, Failed} || !differs {
        return false;
      }
      if k in work.feedback {
        if work.feedback[k].status in {Accepted, Resolved} {
          return false;
        }
        work := work.(feedback := work.feedback[k := work.feedback[k].(status := Open)]);
      } else {
        work := work.(feedback := work.feedback[k := Feedback(t, Open, false, 0)]);
      }
      Commit();
      return true;
    }

    // ----- admin/tasks.py and admin/feedback.py -----

    method RetryTask(k: nat) returns (retried: bool)
      requires work == committed
      modifies this
      ensures work == committed == ApplyRetry(old(work), k)
      ensures retried <==> work != old(work)
      ensures Inv(old(work)) ==> Inv(work)
    {
      hide Inv;
      StepKeeps(work, Retry(k), ApplyRetry(work, k));
      if k >= |work.tasks| || work.tasks[k].status != Failed || work.tasks[k].isCharged || work.tasks[k].isReserved {
        return false;
      }
      var price := ReserveForNewTask(work.tasks[k].tenant);
      if price.None? {
        return false;
      }
      SetTask(k, work.tasks[k].(status := Pending, reservedAmount := price.value, isReserved := true,
                                leaseOwner := None, leaseExpires := None));
      Commit();
      return true;
    }

    method RejectFeedback(k: nat)
      requires work == committed
      modifies this
      ensures work == committed == ApplyReject(old(work), k)
      ensures k in old(work).feedback && old(work).feedback[k].status in {Accepted, Resolved} ==> work == old(work)
      ensures OnlyReview(old(work), work, k) && (Inv(old(work)) ==> Inv(work))
    {
      hide Inv;
      StepKeeps(work, Reject(k), ApplyReject(work, k));
      if k !in work.feedback || work.feedback[k].status != Open {
        return;
      }
      work := work.(feedback := work.feedback[k := work.feedback[k].(status := Rejected)]);
      Commit();
    }

    method AcceptFeedback(k: nat, autoRefund: bool)
      requires work == committed
      modifies this
      ensures work == committed == ApplyAccept(old(work), k, autoRefund)
      ensures Inv(old(work)) ==> Inv(work)
    {
      hide Inv;
      StepKeeps(work, Accept(k, autoRefund), ApplyAccept(work, k, autoRefund));
      if k !in work.feedback || work.feedback[k].status != Open || k >= |work.tasks| {
        return;
      }
      var fb := work.feedback[k];
      if autoRefund && !fb.isRefunded {
        var refund := RefundTaskDeduction(fb.tenant, k);
        if refund.RefundError? {
          Rollback();
          return;
        }
        if refund.RefundRow? {
          fb := fb.(isRefunded := true, refundAmount := refund.row.amount);
        }
      }
      fb := fb.(status := Accepted);
      work := work.(feedback := work.feedback[k := fb]);
      Commit();
    }
  }
}
