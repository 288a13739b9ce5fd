/** What each transaction does to the rows, and exactly when, said over the columns themselves. */
module StepEffects {
  import opened Wrappers
  import opened Money
  import opened Database
  import opened Billing
  import opened Lifecycle
  import opened Invariants

  // ----- leases -----

  /** A claim takes a pending task, or one whose lease has run out or was never dated. A live lease keeps its
      owner. */
  lemma ClaimTakesExactly(s: Db, k: nat, worker: string, now: int, lease: int)
    requires k < |s.tasks|
    ensures var x := s.tasks[k];
            var s' := Next(s, Claim(k, worker, now, lease));
            && (s' != s <==>
                  || x.status == Pending
                  || (x.status == Processing && match x.leaseExpires case None => true case Some(e) => e < now))
            && (s' != s ==>
                  s' == Db(s.tenants,
                           s.tasks[k := Task(x.tenant, x.key, Processing, x.isCharged, x.charged, x.isReserved,
                                             x.reservedAmount, Some(worker), Some(now + lease), x.attempts + 1)],
                           s.ledger, s.feedback))
  {
    var s' := Next(s, Claim(k, worker, now, lease));
    if s' == s {
      assert s'.tasks[k].attempts == s.tasks[k].attempts;
    }
  }

  /** Recovery puts back the processing tasks without a live lease, and nothing else. */
  lemma RecoveryRequeuesExactly(s: Db, now: int, k: nat)
    requires k < |s.tasks|
    ensures var x := s.tasks[k];
            var s' := Next(s, Recover(now));
            && s' == s.(tasks := s'.tasks) && |s'.tasks| == |s.tasks|
            && s'.tasks[k]
               == if x.status == Processing && match x.leaseExpires case None => true case Some(e) => e < now
                  then Task(x.tenant, x.key, Pending, x.isCharged, x.charged, x.isReserved, x.reservedAmount, None,
                            None, x.attempts)
                  else x
  {
  }

  /** The start-up recovery puts back every processing task and leaves the lease columns. */
  lemma LocalRecoveryRequeuesAll(s: Db, k: nat)
    requires k < |s.tasks|
    ensures var x := s.tasks[k];
            var s' := Next(s, RecoverLocally);
            && s' == s.(tasks := s'.tasks) && |s'.tasks| == |s.tasks|
            && s'.tasks[k]
               == Task(x.tenant, x.key, if x.status == Processing then Pending else x.status, x.isCharged, x.charged,
                       x.isReserved, x.reservedAmount, x.leaseOwner, x.leaseExpires, x.attempts)
  {
  }

  lemma CancelHandsBackExactly(s: Db, k: nat, worker: string)
    requires k < |s.tasks|
    ensures var x := s.tasks[k];
            var s' := Next(s, Cancel(k, worker));
            && (s' != s <==> x.status == Processing && x.leaseOwner == Some(worker))
            && (s' != s ==>
                  s' == Db(s.tenants,
                           s.tasks[k := Task(x.tenant, x.key, Pending, x.isCharged, x.charged, x.isReserved,
                                             x.reservedAmount, None, None, x.attempts)],
                           s.ledger, s.feedback))
  {
    var s' := Next(s, Cancel(k, worker));
    if s' == s {
      assert s'.tasks[k].status == s.tasks[k].status;
    }
  }

  // ----- failing a task -----

  /** The tables once task k has failed and nothing is held for it. */
  function Dropped(s: Db, k: nat, owner: Option<string>, expires: Option<int>): Db
    requires k < |s.tasks| && s.tasks[k].tenant < |s.tenants|
  {
    var x := s.tasks[k];
    var y := s.tenants[x.tenant];
    Db(s.tenants[x.tenant := Tenant(y.active, y.balance, y.reserved - Hold(x, x.tenant), y.unitPrice)],
       s.tasks[k := Task(x.tenant, x.key, Failed, x.isCharged, x.charged, false, 0, owner, expires, x.attempts)],
       s.ledger, s.feedback)
  }

  lemma DroppedIs(s: Db, k: nat, x: Task)
    requires Inv(s) && k < |s.tasks| && x == Failing(s.tasks[k])
    ensures s.tasks[k].tenant < |s.tenants|
    ensures CommitReleasing(s, WithTask(s, k, x), x.tenant, k) == Dropped(s, k, None, None)
  {
    assert TaskOk(s.tasks[k], |s.tenants|);
    HoldWithinSum(s.tasks, k, x.tenant);
    assert s.tasks[k := x][k := x.(isReserved := false, reservedAmount := 0)]
           == s.tasks[k := x.(isReserved := false, reservedAmount := 0)];
  }

  /** In a good state a failure is written by the lease owner alone. It gives back what the task held. */
  lemma FailureDropsExactly(s: Db, k: nat, worker: string)
    requires Inv(s) && k < |s.tasks|
    ensures s.tasks[k].tenant < |s.tenants|
    ensures Next(s, Fail(k, worker))
            == if s.tasks[k].leaseOwner == Some(worker) then Dropped(s, k, None, None) else s
  {
    DroppedIs(s, k, Failing(s.tasks[k]));
    assert TaskOk(s.tasks[k], |s.tenants|);
  }

  /** The exit after a claim asks only whether the tenant is active. */
  lemma ExitDropsExactly(s: Db, k: nat, worker: string)
    requires Inv(s) && k < |s.tasks|
    ensures s.tasks[k].tenant < |s.tenants|
    ensures Next(s, ExitInactive(k, worker))
            == if s.tenants[s.tasks[k].tenant].active then s else Dropped(s, k, None, None)
  {
    DroppedIs(s, k, Failing(s.tasks[k]));
  }

  /** A timeout fails an unfinished task of the named tenant. */
  lemma TimeOutDropsExactly(s: Db, t: nat, k: nat, worker: string)
    requires Inv(s) && k < |s.tasks|
    ensures s.tasks[k].tenant < |s.tenants|
    ensures Next(s, TimeOut(t, k, worker))
            == if s.tasks[k].tenant == t && s.tasks[k].status in {Pending, Processing} then Dropped(s, k, None, None)
               else s
  {
    assert TaskOk(s.tasks[k], |s.tenants|);
    HoldWithinSum(s.tasks, k, s.tasks[k].tenant);
    var x := Failing(s.tasks[k]).(isReserved := false, reservedAmount := 0);
    assert s.tasks[k := s.tasks[k].(isReserved := false, reservedAmount := 0)][k := x] == s.tasks[k := x];
  }

  /** So does the in-process timeout, which leaves the lease columns. */
  lemma LocalTimeOutDropsExactly(s: Db, k: nat, worker: string)
    requires Inv(s) && k < |s.tasks|
    ensures s.tasks[k].tenant < |s.tenants|
    ensures Next(s, TimeOutLocally(k, worker))
            == if s.tasks[k].status in {Pending, Processing}
               then Dropped(s, k, s.tasks[k].leaseOwner, s.tasks[k].leaseExpires)
               else s
  {
    assert TaskOk(s.tasks[k], |s.tenants|);
    HoldWithinSum(s.tasks, k, s.tasks[k].tenant);
    var x := s.tasks[k].(isReserved := false, reservedAmount := 0);
    assert s.tasks[k := x][k := x.(status := Failed)] == s.tasks[k := x.(status := Failed)];
  }

  // ----- money -----

  /** A number with at most four places as written, between two amounts in ticks. */
  predicate Between(v: MoneyInput, low: real, high: real) {
    v.Number? && v.exponent >= -4 && low <= Ticks(v) <= high
  }

  /** A recharge from 0.01 to 1,000,000 credits its very amount, unless the balance would pass 99,999,999.9999. */
  lemma RechargeCreditsExactly(s: Db, t: nat, v: MoneyInput)
    requires Inv(s)
    ensures var s' := Next(s, Deposit(t, v));
            && (s' != s <==> && Between(v, 100.0, 10_000_000_000.0) && t < |s.tenants|
                             && s.tenants[t].balance as real + Ticks(v) <= 999_999_999_999.0)
            && (s' != s ==>
                  exists a: int :: && a as real == Ticks(v)
                                   && s' == Recharged(s, t, a))
  {
    var s' := Next(s, Deposit(t, v));
    var a := ValidateMoney(v, MAX_RECHARGE_AMOUNT, MIN_RECHARGE_AMOUNT, false);
    if a.Ok? && t < |s.tenants| && s.tenants[t].balance + a.value <= MAX_ACCOUNT_BALANCE {
      assert s' == Recharged(s, t, a.value);
      assert |s'.ledger| == |s.ledger| + 1;
    }
  }

  function Recharged(s: Db, t: nat, a: int): Db
    requires t < |s.tenants|
  {
    var y := s.tenants[t];
    Db(s.tenants[t := Tenant(y.active, y.balance + a, y.reserved, y.unitPrice)], s.tasks,
       s.ledger + [Row(t, None, Recharge, a, y.balance, y.balance + a)], s.feedback)
  }

  /** A price from 0.01 to 100 is set as given. */
  lemma PriceIsSetExactly(s: Db, t: nat, v: MoneyInput)
    requires t < |s.tenants|
    ensures var s' := Next(s, SetPrice(t, v));
            if Between(v, 100.0, 1_000_000.0)
            then |s'.tenants| == |s.tenants|
                 && var y := s.tenants[t];
                    var p := s'.tenants[t].unitPrice;
                    && p as real == Ticks(v)
                    && s' == s.(tenants := s.tenants[t := Tenant(y.active, y.balance, y.reserved, p)])
            else s' == s
  {
  }

  lemma TenantIsCreatedExactly(s: Db, v: MoneyInput, active: bool)
    ensures var s' := Next(s, CreateTenant(v, active));
            if Between(v, 100.0, 1_000_000.0)
            then |s'.tenants| == |s.tenants| + 1
                 && var p := s'.tenants[|s.tenants|].unitPrice;
                    p as real == Ticks(v) && s' == s.(tenants := s.tenants + [Tenant(active, 0, 0, p)])
            else s' == s
  {
  }

  lemma ActivityIsSet(s: Db, t: nat, active: bool)
    requires t < |s.tenants|
    ensures var y := s.tenants[t];
            Next(s, SetActive(t, active))
            == s.(tenants := s.tenants[t := Tenant(active, y.balance, y.reserved, y.unitPrice)])
  {
  }

  // ----- submission -----

  /** The unfinished tasks, of one tenant or of all. */
  function Unfinished(tasks: seq<Task>, who: Option<nat>): set<int> {
    set k | 0 <= k < |tasks| && tasks[k].status in {Pending, Processing}
            && (who == None || who == Some(tasks[k].tenant))
  }

  lemma {:induction false} CountIsSize(tasks: seq<Task>, who: Option<nat>)
    ensures CountActive(tasks, who) == |Unfinished(tasks, who)|
  {
    hide Unfinished;
    NothingUnfinished(who);
    if tasks != [] {
      var n := |tasks| - 1;
      CountIsSize(tasks[..n], who);
      UnfinishedInside(tasks[..n], who);
      UnfinishedGrows(tasks[..n], tasks[n], who);
      assert tasks[..n] + [tasks[n]] == tasks;
    }
  }

  lemma UnfinishedInside(tasks: seq<Task>, who: Option<nat>)
    ensures |tasks| !in Unfinished(tasks, who)
  {
  }

  lemma NothingUnfinished(who: Option<nat>)
    ensures Unfinished([], who) == {}
  {
  }

  lemma UnfinishedGrows(tasks: seq<Task>, x: Task, who: Option<nat>)
    ensures Unfinished(tasks + [x], who)
            == Unfinished(tasks, who)
               + if Active(x.status) && (who == None || who == Some(x.tenant)) then {|tasks|} else {}
  {
    forall k ensures k in Unfinished(tasks + [x], who)
                     <==> k in Unfinished(tasks, who)
                          || (k == |tasks| && Active(x.status) && (who == None || who == Some(x.tenant)))
    {
      if 0 <= k < |tasks| {
        assert (tasks + [x])[k] == tasks[k];
      }
    }
  }

  ghost predicate KeyTaken(tasks: seq<Task>, t: nat, key: Option<string>) {
    key.Some? && exists k | 0 <= k < |tasks| :: tasks[k].tenant == t && tasks[k].key == key
  }

  predicate HasRoom(s: Db, t: nat, limits: Limits) {
    |Unfinished(s.tasks, Some(t))| < limits.tenantPending && |Unfinished(s.tasks, None)| < limits.globalPending
  }

  /** An active tenant with a price's worth of unreserved balance. */
  predicate CanPay(s: Db, t: nat) {
    && t < |s.tenants| && s.tenants[t].active
    && s.tenants[t].balance - s.tenants[t].reserved >= s.tenants[t].unitPrice
  }

  /** The tables once the tenant's price is held for a new task. */
  function Held(s: Db, t: nat): seq<Tenant>
    requires t < |s.tenants|
  {
    var y := s.tenants[t];
    s.tenants[t := Tenant(y.active, y.balance, y.reserved + y.unitPrice, y.unitPrice)]
  }

  lemma ReserveHoldsExactly(s: Db, t: nat)
    requires Inv(s)
    ensures Reserve(s, t).Some? <==> CanPay(s, t)
    ensures CanPay(s, t) ==> Reserve(s, t) == Some((s.(tenants := Held(s, t)), s.tenants[t].unitPrice))
  {
  }

  lemma FoundIsTaken(tasks: seq<Task>, t: nat, key: Option<string>)
    ensures FindKey(tasks, t, key).Some? <==> KeyTaken(tasks, t, key)
  {
  }

  /** Which answer a submission gets. A duplicate that the look-up misses is found by the insertion. */
  lemma SubmissionAnswers(s: Db, t: nat, key: Option<string>, raced: bool, limits: Limits)
    requires Inv(s)
    ensures var (s', answer) := ApplySubmit(s, t, key, raced, limits);
            var taken := KeyTaken(s.tasks, t, key);
            if taken && !raced then answer.Duplicate?
            else if !HasRoom(s, t, limits) then answer == QueueFull
            else if !CanPay(s, t) then answer == NoFunds
            else if taken then answer.Duplicate?
            else answer == Created(|s.tasks|)
                 && s' == Db(Held(s, t),
                             s.tasks + [Task(t, key, Pending, false, 0, true, s.tenants[t].unitPrice, None, None, 0)],
                             s.ledger, s.feedback)
    ensures var (s', answer) := ApplySubmit(s, t, key, raced, limits);
            && (!answer.Created? ==> s' == s)
            && (answer.Duplicate? ==> answer.k < |s.tasks| && s.tasks[answer.k].tenant == t && key.Some?
                                      && s.tasks[answer.k].key == key)
  {
    hide Inv, FindKey, Reserve, KeyTaken, CountActive, Unfinished, CanPay, Held;
    CountIsSize(s.tasks, Some(t));
    CountIsSize(s.tasks, None);
    FoundIsTaken(s.tasks, t, key);
    ReserveHoldsExactly(s, t);
    CanPayTenant(s, t);
  }

  lemma CanPayTenant(s: Db, t: nat)
    ensures CanPay(s, t) ==> t < |s.tenants|
  {
  }

  /** A retry takes a failed task without a charge, at the tenant's current price. */
  lemma RetryTakesExactly(s: Db, k: nat)
    requires Inv(s) && k < |s.tasks|
    ensures var x := s.tasks[k];
            && (Next(s, Retry(k)) != s <==> x.status == Failed && !x.isCharged && CanPay(s, x.tenant))
            && (Next(s, Retry(k)) != s ==>
                  Next(s, Retry(k))
                  == Db(Held(s, x.tenant),
                        s.tasks[k := Task(x.tenant, x.key, Pending, false, x.charged, true,
                                          s.tenants[x.tenant].unitPrice, None, None, x.attempts)],
                        s.ledger, s.feedback))
  {
    var x := s.tasks[k];
    assert TaskOk(x, |s.tenants|);
    hide Inv, Reserve, CanPay, Held;
    ReserveHoldsExactly(s, x.tenant);
    CanPayTenant(s, x.tenant);
    if Next(s, Retry(k)) == s {
      assert Next(s, Retry(k)).tasks[k].status == x.status;
    }
  }

  /** A charge without a reservation is made exactly if the tenant could reserve the current price; it pays that. */
  lemma UnreservedChargeExactly(s: Db, t: nat, k: nat)
    requires TenantsOk(s) && k < |s.tasks| && !s.tasks[k].isReserved
    ensures var x := s.tasks[k];
            Deduct(s, t, k).Some?
            <==> && x.tenant == t && !x.isCharged && (x.status == Processing || x.status == Success) && CanPay(s, t)
                 && forall row | row in s.ledger :: !(row.task == Some(k) && row.kind == Deduction)
    ensures Deduct(s, t, k).Some? ==>
              && CanPay(s, t)
              && var x, y := s.tasks[k], s.tenants[t];
                 Deduct(s, t, k).value
                 == Db(s.tenants[t := Tenant(y.active, y.balance - y.unitPrice, y.reserved, y.unitPrice)],
                       s.tasks[k := Task(t, x.key, x.status, true, y.unitPrice, false, 0, x.leaseOwner, x.leaseExpires,
                                         x.attempts)],
                       s.ledger + [Row(t, Some(k), Deduction, y.unitPrice, y.balance, y.balance - y.unitPrice)],
                       s.feedback)
  {
    hide RowsOf;
    NoRowExactly(s.ledger, k, Deduction);
  }

  lemma {:induction false} NoRowExactly(ledger: seq<Row>, k: nat, kind: Kind)
    ensures RowsOf(ledger, k, kind) == [] <==> forall row | row in ledger :: !(row.task == Some(k) && row.kind == kind)
  {
    if ledger != [] {
      NoRowExactly(ledger[..|ledger| - 1], k, kind);
    }
  }

  // ----- feedback -----

  /** Feedback on a finished task opens its review, or opens it again unless it is decided. */
  lemma FeedbackOpensExactly(s: Db, t: nat, k: nat, differs: bool)
    requires k < |s.tasks|
    ensures var s' := Next(s, SubmitFeedback(t, k, differs));
            if s.tasks[k].tenant != t || s.tasks[k].status in {Pending, Processing} || !differs then s' == s
            else if k !in s.feedback then s' == s.(feedback := s.feedback[k := Feedback(t, Open, false, 0)])
            else
              var f := s.feedback[k];
              s' == if f.status == Accepted || f.status == Resolved then s
                    else s.(feedback := s.feedback[k := Feedback(f.tenant, Open, f.isRefunded, f.refundAmount)])
  {
  }

  lemma RejectionExactly(s: Db, k: nat)
    requires k in s.feedback
    ensures var f := s.feedback[k];
            Next(s, Reject(k))
            == if f.status == Open
               then s.(feedback := s.feedback[k := Feedback(f.tenant, Rejected, f.isRefunded, f.refundAmount)])
               else s
  {
  }

  /** A publication resolves the accepted reviews. */
  lemma PublicationResolvesExactly(s: Db, k: nat)
    requires k in s.feedback
    ensures var f := s.feedback[k];
            var s' := Next(s, Publish);
            && s' == s.(feedback := s'.feedback) && s'.feedback.Keys == s.feedback.Keys
            && s'.feedback[k] == Feedback(f.tenant, if f.status == Accepted then Resolved else f.status, f.isRefunded,
                                          f.refundAmount)
  {
  }

  /** The tables once an open review is accepted and its task's charge paid back. */
  function PaidBack(s: Db, k: nat): Db
    requires k < |s.tasks| && s.tasks[k].tenant < |s.tenants|
  {
    var t := s.tasks[k].tenant;
    var y := s.tenants[t];
    var a := s.tasks[k].charged;
    Db(s.tenants[t := Tenant(y.active, y.balance + a, y.reserved, y.unitPrice)], s.tasks,
       s.ledger + [Row(t, Some(k), Refund, a, y.balance, y.balance + a)],
       s.feedback[k := Feedback(t, Accepted, true, a)])
  }

  /** An acceptance with automatic refund pays back the whole charge, once. Where the balance would pass its
      maximum the review stays open. */
  lemma AcceptancePaysExactly(s: Db, k: nat, autoRefund: bool)
    requires Inv(s) && k in s.feedback
    ensures k < |s.tasks| && s.tasks[k].tenant < |s.tenants|
    ensures var x := s.tasks[k];
            Next(s, Accept(k, autoRefund))
            == if s.feedback[k].status != Open then s
               else if !autoRefund || !x.isCharged
               then s.(feedback := s.feedback[k := Feedback(x.tenant, Accepted, false, 0)])
               else if s.tenants[x.tenant].balance + x.charged > 999_999_999_999 then s
               else PaidBack(s, k)
  {
    assert TaskOk(s.tasks[k], |s.tenants|);
    assert ChargeOk(s, k, s.tasks[k]);
  }

  /** Asking again for a refund that was paid finds its row and pays nothing more, whatever else happened to the
      accounts and tasks since. */
  lemma RefundIsPaidOnce(s: Db, t: nat, k: nat, later: Db)
    requires RefundTask(s, t, k).Paid?
    requires later.ledger == RefundTask(s, t, k).db.ledger
    ensures RefundTask(later, t, k) == Existing(RefundTask(s, t, k).row)
    ensures var row := RefundTask(s, t, k).row;
            && row.task == Some(k) && row.kind == Refund && row.tenant == t && row.after == row.before + row.amount
            && (exists d | d in s.ledger :: d.task == Some(k) && d.kind == Deduction && d.amount == row.amount)
            && RefundTask(s, t, k).db == s.(tenants := RefundTask(s, t, k).db.tenants, ledger := s.ledger + [row])
  {
    hide RowsOf;
    var row := RefundTask(s, t, k).row;
    LedgerAppend(s.ledger, row);
    OneRowIsThere(s.ledger, k, Deduction);
  }

  lemma {:induction false} OneRowIsThere(ledger: seq<Row>, k: nat, kind: Kind)
    ensures forall row | row in RowsOf(ledger, k, kind) :: row in ledger && row.task == Some(k) && row.kind == kind
  {
    if ledger != [] {
      OneRowIsThere(ledger[..|ledger| - 1], k, kind);
    }
  }
}
