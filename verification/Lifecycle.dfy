/** Every committed transaction of the service as one step, and runs of steps. */
module Lifecycle {
  import opened Wrappers
  import opened Money
  import opened Database
  import opened Billing

  datatype Limits = Limits(tenantPending: nat, globalPending: nat)

  /** One transaction with everything nondeterministic as an argument: clocks, worker identities,
      outcomes of the extraction. `raced` says that the duplicate look-up of a submission ran before a
      competing submission committed, so that only the unique constraint can stop it. */
  datatype Step =
    | CreateTenant(price: MoneyInput, active: bool)
    | SetPrice(t: nat, price: MoneyInput)
    | SetActive(t: nat, active: bool)
    | Deposit(t: nat, amount: MoneyInput)
    | Submit(t: nat, key: Option<string>, raced: bool, limits: Limits)
    | Claim(k: nat, worker: string, now: int, lease: int)
    | ExitInactive(k: nat, worker: string)
    | Succeed(k: nat, worker: string)
    | Fail(k: nat, worker: string)
    | Cancel(k: nat, worker: string)
    | TimeOut(t: nat, k: nat, worker: string)
    | TimeOutLocally(k: nat, worker: string)
    | Recover(now: int)
    | RecoverLocally
    | Retry(k: nat)
    | SubmitFeedback(t: nat, k: nat, differs: bool)
    | Accept(k: nat, autoRefund: bool)
    | Reject(k: nat)
    | Publish

  function WithTask(s: Db, k: nat, x: Task): Db
    requires k < |s.tasks|
  {
    s.(tasks := s.tasks[k := x])
  }

  // ----- tenants -----

  function UnitPrice(v: MoneyInput): Result<int, MoneyError> {
    ValidateMoney(v, MAX_UNIT_PRICE, MIN_UNIT_PRICE, false)
  }

  function ApplyCreateTenant(s: Db, price: MoneyInput, active: bool): Db {
    match UnitPrice(price)
    case Err(_) => s
    case Ok(p) => s.(tenants := s.tenants + [Tenant(active, 0, 0, p)])
  }

  function ApplySetPrice(s: Db, t: nat, price: MoneyInput): Db {
    match UnitPrice(price)
    case Err(_) => s
    case Ok(p) => if t < |s.tenants| then s.(tenants := s.tenants[t := s.tenants[t].(unitPrice := p)]) else s
  }

  function ApplySetActive(s: Db, t: nat, active: bool): Db {
    if t < |s.tenants| then s.(tenants := s.tenants[t := s.tenants[t].(active := active)]) else s
  }

  function ApplyDeposit(s: Db, t: nat, amount: MoneyInput): Db {
    match ValidateMoney(amount, MAX_RECHARGE_AMOUNT, MIN_RECHARGE_AMOUNT, false)
    case Err(_) => s
    case Ok(a) => match Credit(s, t, a)
                  case None => s
                  case Some(d) => d
  }

  // ----- submission -----

  /** find_idempotent_task. */
  function FindKey(tasks: seq<Task>, t: nat, key: Option<string>): (r: Option<nat>)
    ensures r.Some? ==> key.Some? && r.value < |tasks| && tasks[r.value].tenant == t && tasks[r.value].key == key
    ensures r.None? && key.Some? ==> forall k | 0 <= k < |tasks| :: !(tasks[k].tenant == t && tasks[k].key == key)
  {
    if tasks == [] || key.None? then None
    else
      var last := |tasks| - 1;
      if tasks[last].tenant == t && tasks[last].key == key then Some(last)
      else FindKey(tasks[..last], t, key)
  }

  datatype Submission = Created(k: nat) | Duplicate(k: nat) | QueueFull | NoFunds

  function ApplySubmit(s: Db, t: nat, key: Option<string>, raced: bool, limits: Limits): (Db, Submission) {
    var found := FindKey(s.tasks, t, key);
    if found.Some? && !raced then (s, Duplicate(found.value))
    else if CountActive(s.tasks, Some(t)) >= limits.tenantPending then (s, QueueFull)
    else if CountActive(s.tasks, None) >= limits.globalPending then (s, QueueFull)
    else
      match Reserve(s, t)
      case None => (s, NoFunds)
      case Some((held, price)) =>
        if found.Some? then (s, Duplicate(found.value))   // unique (tenant_id, key): rolled back
        else
          (held.(tasks := held.tasks + [Task(t, key, Pending, false, 0, true, price, None, None, 0)]),
           Created(|s.tasks|))
  }

  // ----- processing -----

  predicate Claimable(x: Task, now: int) {
    x.status == Pending || (x.status == Processing && (x.leaseExpires.None? || x.leaseExpires.value < now))
  }

  function ApplyClaim(s: Db, k: nat, worker: string, now: int, lease: int): Db {
    if k < |s.tasks| && Claimable(s.tasks[k], now) then
      WithTask(s, k, s.tasks[k].(status := Processing, leaseOwner := Some(worker),
                                 leaseExpires := Some(now + lease), attempts := s.tasks[k].attempts + 1))
    else s
  }

  function Failing(x: Task): Task {
    x.(status := Failed, leaseOwner := None, leaseExpires := None)
  }

  /** A status change that then releases the hold; an exception in the release undoes both. */
  function CommitReleasing(before: Db, changed: Db, t: nat, k: nat): Db {
    match Release(changed, t, k)
    case NothingHeld => changed
    case Freed(d) => d
    case Raised => before
  }

  /** The exit after a claim by a tenant that is no longer active. The source has no lease guard here. */
  function ApplyExitInactive(s: Db, k: nat): Db {
    if k >= |s.tasks| then s
    else
      var t := s.tasks[k].tenant;
      if t < |s.tenants| && s.tenants[t].active then s
      else CommitReleasing(s, WithTask(s, k, Failing(s.tasks[k])), t, k)
  }

  function ApplySucceed(s: Db, k: nat, worker: string): Db {
    if k >= |s.tasks| || s.tasks[k].status != Processing || s.tasks[k].leaseOwner != Some(worker) then s
    else
      var flushed := WithTask(s, k, s.tasks[k].(status := Success, leaseOwner := None, leaseExpires := None));
      match Deduct(flushed, s.tasks[k].tenant, k)
      case None => s
      case Some(d) => d
  }

  function ApplyFail(s: Db, k: nat, worker: string): Db {
    if k >= |s.tasks| || s.tasks[k].leaseOwner != Some(worker) then s
    else
      var x := Failing(s.tasks[k]);
      CommitReleasing(s, WithTask(s, k, if x.isCharged then x else x.(charged := 0)), x.tenant, k)
  }

  function ApplyCancel(s: Db, k: nat, worker: string): Db {
    if k < |s.tasks| && s.tasks[k].status == Processing && s.tasks[k].leaseOwner == Some(worker) then
      WithTask(s, k, s.tasks[k].(status := Pending, leaseOwner := None, leaseExpires := None))
    else s
  }

  // ----- timeouts, recovery, retry -----

  /** The Celery timeout: no lease guard, only the status. */
  function ApplyTimeOut(s: Db, t: nat, k: nat): Db {
    if k >= |s.tasks| || s.tasks[k].tenant != t || !Active(s.tasks[k].status) then s
    else
      match Release(s, t, k)
      case Raised => s
      case NothingHeld => WithTask(s, k, Failing(s.tasks[k]))
      case Freed(d) => WithTask(d, k, Failing(d.tasks[k]))
  }

  /** The in-process timeout: releases first, then fails the task only if it is still active. The queue
      entry names the task's own tenant. */
  function ApplyTimeOutLocally(s: Db, k: nat): Db {
    if k >= |s.tasks| then s
    else
      match Release(s, s.tasks[k].tenant, k)
      case Raised => s
      case NothingHeld => FailIfActive(s, k)
      case Freed(d) => FailIfActive(d, k)
  }

  function FailIfActive(s: Db, k: nat): Db {
    if k < |s.tasks| && Active(s.tasks[k].status) then WithTask(s, k, s.tasks[k].(status := Failed)) else s
  }

  /** One bulk UPDATE: expired leases go back to the queue. */
  function Requeue(x: Task, now: int): Task {
    if x.status == Processing && (x.leaseExpires.None? || x.leaseExpires.value < now)
    then x.(status := Pending, leaseOwner := None, leaseExpires := None)
    else x
  }

  /** One bulk UPDATE at start-up in local mode, which leaves the lease columns as they are. */
  function RequeueLocally(x: Task): Task {
    if x.status == Processing then x.(status := Pending) else x
  }

  function RequeueAll(tasks: seq<Task>, now: int): (r: seq<Task>)
    ensures |r| == |tasks| && forall k | 0 <= k < |r| :: r[k] == Requeue(tasks[k], now)
  {
    if tasks == [] then [] else RequeueAll(tasks[..|tasks| - 1], now) + [Requeue(tasks[|tasks| - 1], now)]
  }

  function RequeueAllLocally(tasks: seq<Task>): (r: seq<Task>)
    ensures |r| == |tasks| && forall k | 0 <= k < |r| :: r[k] == RequeueLocally(tasks[k])
  {
    if tasks == [] then [] else RequeueAllLocally(tasks[..|tasks| - 1]) + [RequeueLocally(tasks[|tasks| - 1])]
  }

  function ApplyRecover(s: Db, now: int): Db {
    s.(tasks := RequeueAll(s.tasks, now))
  }

  function ApplyRecoverLocally(s: Db): Db {
    s.(tasks := RequeueAllLocally(s.tasks))
  }

  function ApplyRetry(s: Db, k: nat): Db {
    if k >= |s.tasks| || s.tasks[k].status != Failed || s.tasks[k].isCharged || s.tasks[k].isReserved then s
    else
      match Reserve(s, s.tasks[k].tenant)
      case None => s
      case Some((held, price)) =>
        WithTask(held, k, held.tasks[k].(status := Pending, reservedAmount := price, isReserved := true,
                                         leaseOwner := None, leaseExpires := None))
  }

  // ----- feedback -----

  function ApplySubmitFeedback(s: Db, t: nat, k: nat, differs: bool): Db {
    if k >= |s.tasks| || s.tasks[k].tenant != t || Active(s.tasks[k].status) || !differs then s
    else if k in s.feedback then
      if s.feedback[k].status in {Accepted, Resolved} then s
      else s.(feedback := s.feedback[k := s.feedback[k].(status := Open)])
    else s.(feedback := s.feedback[k := Feedback(t, Open, false, 0)])
  }

  function ApplyAccept(s: Db, k: nat, autoRefund: bool): Db {
    if k !in s.feedback || s.feedback[k].status != Open || k >= |s.tasks| then s
    else
      var fb := s.feedback[k].(status := Accepted);
      if !autoRefund || fb.isRefunded then s.(feedback := s.feedback[k := fb])
      else
        match RefundTask(s, fb.tenant, k)
        case RefundRaised => s
        case NoCharge => s.(feedback := s.feedback[k := fb])
        case Existing(row) => s.(feedback := s.feedback[k := fb.(isRefunded := true, refundAmount := row.amount)])
        case Paid(d, row) => d.(feedback := d.feedback[k := fb.(isRefunded := true, refundAmount := row.amount)])
  }

  function ApplyReject(s: Db, k: nat): Db {
    if k in s.feedback && s.feedback[k].status == Open
    then s.(feedback := s.feedback[k := s.feedback[k].(status := Rejected)])
    else s
  }

  function ApplyPublish(s: Db): Db {
    s.(feedback := map k | k in s.feedback ::
                     if s.feedback[k].status == Accepted then s.feedback[k].(status := Resolved) else s.feedback[k])
  }

  // ----- runs -----

  function Next(s: Db, step: Step): Db {
    match step
    case CreateTenant(price, active) => ApplyCreateTenant(s, price, active)
    case SetPrice(t, price) => ApplySetPrice(s, t, price)
    case SetActive(t, active) => ApplySetActive(s, t, active)
    case Deposit(t, amount) => ApplyDeposit(s, t, amount)
    case Submit(t, key, raced, limits) => ApplySubmit(s, t, key, raced, limits).0
    case Claim(k, worker, now, lease) => ApplyClaim(s, k, worker, now, lease)
    case ExitInactive(k, _) => ApplyExitInactive(s, k)
    case Succeed(k, worker) => ApplySucceed(s, k, worker)
    case Fail(k, worker) => ApplyFail(s, k, worker)
    case Cancel(k, worker) => ApplyCancel(s, k, worker)
    case TimeOut(t, k, _) => ApplyTimeOut(s, t, k)
    case TimeOutLocally(k, _) => ApplyTimeOutLocally(s, k)
    case Recover(now) => ApplyRecover(s, now)
    case RecoverLocally => ApplyRecoverLocally(s)
    case Retry(k) => ApplyRetry(s, k)
    case SubmitFeedback(t, k, differs) => ApplySubmitFeedback(s, t, k, differs)
    case Accept(k, autoRefund) => ApplyAccept(s, k, autoRefund)
    case Reject(k) => ApplyReject(s, k)
    case Publish => ApplyPublish(s)
  }

  const EMPTY := Db([], [], [], map[])

  /** The tables after a run that starts with no tenant. */
  function Run(steps: seq<Step>): Db {
    if steps == [] then EMPTY else Next(Run(steps[..|steps| - 1]), steps[|steps| - 1])
  }
}
