/** Reachable states: the invariant over every run. */
module Reachable {
  import opened Wrappers
  import opened Money
  import opened Database
  import opened Billing
  import opened Lifecycle
  import opened Invariants

  lemma NextKeeps(s: Db, step: Step)
    requires Inv(s)
    ensures Inv(Next(s, step))
  {
    match step
    case CreateTenant(_, _) => TenantStepKeeps(s, step);
    case SetPrice(_, _) => TenantStepKeeps(s, step);
    case SetActive(_, _) => TenantStepKeeps(s, step);
    case Deposit(_, _) => DepositKeeps(s, step);
    case Submit(_, _, _, _) => SubmitKeeps(s, step);
    case Claim(_, _, _, _) => ClaimKeeps(s, step);
    case ExitInactive(_, _) => ExitInactiveKeeps(s, step);
    case Succeed(_, _) => SucceedKeeps(s, step);
    case Fail(_, _) => FailKeeps(s, step);
    case Cancel(_, _) => CancelKeeps(s, step);
    case TimeOut(_, _, _) => TimeOutKeeps(s, step);
    case TimeOutLocally(_, _) => TimeOutLocallyKeeps(s, step);
    case Recover(_) => RecoverKeeps(s, step);
    case RecoverLocally => RecoverLocallyKeeps(s, step);
    case Retry(_) => RetryKeeps(s, step);
    case SubmitFeedback(_, _, _) => SubmitFeedbackKeeps(s, step);
    case Accept(_, _) => AcceptKeeps(s, step);
    case Reject(_) => RejectKeeps(s, step);
    case Publish => PublishKeeps(s, step);
  }

  /** Every reachable state is good. */
  lemma {:induction false} RunKeeps(steps: seq<Step>)
    ensures Inv(Run(steps))
  {
    if steps != [] {
      RunKeeps(steps[..|steps| - 1]);
      NextKeeps(Run(steps[..|steps| - 1]), steps[|steps| - 1]);
    }
  }

  /** Reservation accounting: the stored aggregate is the sum of the holds, the account stays in its
      bounds, and a task holds money exactly while it is pending or processing. */
  lemma ReservationAccounting(steps: seq<Step>)
    ensures forall t | 0 <= t < |Run(steps).tenants| ::
              && Run(steps).tenants[t].reserved == SumHolds(Run(steps).tasks, t)
              && 0 <= Run(steps).tenants[t].reserved <= Run(steps).tenants[t].balance <= MAX_ACCOUNT_BALANCE
    ensures forall k | 0 <= k < |Run(steps).tasks| ::
              Run(steps).tasks[k].isReserved <==> Run(steps).tasks[k].status in {Pending, Processing}
  {
    RunKeeps(steps);
    assert forall k | 0 <= k < |Run(steps).tasks| :: TaskOk(Run(steps).tasks[k], |Run(steps).tenants|);
  }

  // ----- one task's view of a step -----

  predicate FailedFrom(x: Task, y: Task) {
    && y.status == Failed && SameCharge(x, y) && !y.isReserved
    && (y.leaseOwner == None || y.leaseOwner == x.leaseOwner)
  }

  predicate Requeued(x: Task, y: Task) {
    && x.status == Processing && y.status == Pending && SameMoney(x, y)
    && (y.leaseOwner == None || y.leaseOwner == x.leaseOwner)
  }

  /** How a step may change task k from x to y. */
  predicate Moves(s: Db, step: Step, k: nat, x: Task, y: Task)
    requires x.tenant < |s.tenants|
  {
    match step
    case Claim(j, worker, now, _) =>
      && j == k && Claimable(x, now) && y.status == Processing && SameMoney(x, y) && y.leaseOwner == Some(worker)
    case ExitInactive(j, _) => j == k && !s.tenants[x.tenant].active && FailedFrom(x, y)
    case Succeed(j, worker) =>
      && j == k && x.status == Processing && x.leaseOwner == Some(worker) && s.tenants[x.tenant].active
      && y == x.(status := Success, leaseOwner := None, leaseExpires := None, isCharged := true,
                 charged := x.reservedAmount, isReserved := false, reservedAmount := 0)
    case Fail(j, worker) => j == k && x.leaseOwner == Some(worker) && FailedFrom(x, y)
    case Cancel(j, worker) => j == k && x.leaseOwner == Some(worker) && Requeued(x, y)
    case TimeOut(_, j, _) => j == k && Active(x.status) && FailedFrom(x, y)
    case TimeOutLocally(j, _) => j == k && Active(x.status) && FailedFrom(x, y)
    case Recover(_) => Requeued(x, y)
    case RecoverLocally => Requeued(x, y)
    case Retry(j) =>
      && j == k && x.status == Failed && !x.isCharged && y.leaseOwner == None
      && y.status == Pending && SameCharge(x, y) && y.isReserved && y.reservedAmount == s.tenants[x.tenant].unitPrice
    case _ => false
  }

  lemma ClaimMoves(s: Db, step: Step, k: nat)
    requires Inv(s) && k < |s.tasks| && (step.Claim? || step.Cancel?)
    ensures |Next(s, step).tasks| == |s.tasks|
    ensures Next(s, step).tasks[k] == s.tasks[k] || Moves(s, step, k, s.tasks[k], Next(s, step).tasks[k])
  {
    assert TaskOk(s.tasks[k], |s.tenants|);
  }

  lemma SucceedMoves(s: Db, step: Step, k: nat)
    requires Inv(s) && k < |s.tasks| && step.Succeed?
    ensures |Next(s, step).tasks| == |s.tasks|
    ensures Next(s, step).tasks[k] == s.tasks[k] || Moves(s, step, k, s.tasks[k], Next(s, step).tasks[k])
  {
    assert TaskOk(s.tasks[k], |s.tenants|);
  }

  lemma FailMoves(s: Db, step: Step, k: nat)
    requires Inv(s) && k < |s.tasks| && (step.Fail? || step.ExitInactive?)
    ensures |Next(s, step).tasks| == |s.tasks|
    ensures Next(s, step).tasks[k] == s.tasks[k] || Moves(s, step, k, s.tasks[k], Next(s, step).tasks[k])
  {
    hide TenantsOk, HoldsOk, LedgerOk, ChargesOk, FeedbackOk, SumHolds, Release;
    if step.k < |s.tasks| {
      assert TaskOk(s.tasks[step.k], |s.tenants|);
      FailAndFree(s, step.k, Lifecycle.Failing(s.tasks[step.k]));
    }
  }

  lemma TimeOutMoves(s: Db, step: Step, k: nat)
    requires Inv(s) && k < |s.tasks| && (step.TimeOut? || step.TimeOutLocally?)
    ensures |Next(s, step).tasks| == |s.tasks|
    ensures Next(s, step).tasks[k] == s.tasks[k] || Moves(s, step, k, s.tasks[k], Next(s, step).tasks[k])
  {
    hide TenantsOk, HoldsOk, LedgerOk, ChargesOk, FeedbackOk, SumHolds, Release;
    if step.k < |s.tasks| {
      assert TaskOk(s.tasks[step.k], |s.tenants|);
      ReleaseIsSafe(s, s.tasks[step.k].tenant, step.k);
    }
  }

  lemma RecoverMoves(s: Db, step: Step, k: nat)
    requires Inv(s) && k < |s.tasks| && (step.Recover? || step.RecoverLocally?)
    ensures |Next(s, step).tasks| == |s.tasks|
    ensures Next(s, step).tasks[k] == s.tasks[k] || Moves(s, step, k, s.tasks[k], Next(s, step).tasks[k])
  {
    assert TaskOk(s.tasks[k], |s.tenants|);
  }

  lemma RetryMoves(s: Db, step: Step, k: nat)
    requires Inv(s) && k < |s.tasks| && step.Retry?
    ensures |Next(s, step).tasks| == |s.tasks|
    ensures Next(s, step).tasks[k] == s.tasks[k] || Moves(s, step, k, s.tasks[k], Next(s, step).tasks[k])
  {
    assert TaskOk(s.tasks[k], |s.tenants|);
  }

  /** A submission leaves the tasks alone or adds one that holds the current price. */
  lemma SubmitAppends(s: Db, step: Step)
    requires step.Submit?
    ensures Next(s, step).tasks == s.tasks
            || (step.t < |s.tenants|
                && Next(s, step).tasks == s.tasks + [Task(step.t, step.key, Pending, false, 0, true,
                                                          s.tenants[step.t].unitPrice, None, None, 0)])
  {
  }

  /** Steps that write no task. */
  lemma OthersLeaveTasks(s: Db, step: Step)
    requires || step.CreateTenant? || step.SetPrice? || step.SetActive? || step.Deposit?
             || step.SubmitFeedback? || step.Accept? || step.Reject? || step.Publish?
    ensures Next(s, step).tasks == s.tasks
  {
  }

  /** Every step leaves task k alone or moves it as `Moves` says; `Moves` speaks of one task only. */
  lemma TaskMoves(s: Db, step: Step, k: nat)
    requires Inv(s) && k < |s.tasks|
    ensures |Next(s, step).tasks| >= |s.tasks| && s.tasks[k].tenant < |s.tenants|
    ensures Next(s, step).tasks[k] == s.tasks[k] || Moves(s, step, k, s.tasks[k], Next(s, step).tasks[k])
  {
    assert TaskOk(s.tasks[k], |s.tenants|);
    hide Next, Inv, Moves;
    match step
    case Claim(_, _, _, _) => ClaimMoves(s, step, k);
    case Cancel(_, _) => ClaimMoves(s, step, k);
    case Succeed(_, _) => SucceedMoves(s, step, k);
    case Fail(_, _) => FailMoves(s, step, k);
    case ExitInactive(_, _) => FailMoves(s, step, k);
    case TimeOut(_, _, _) => TimeOutMoves(s, step, k);
    case TimeOutLocally(_, _) => TimeOutMoves(s, step, k);
    case Recover(_) => RecoverMoves(s, step, k);
    case RecoverLocally => RecoverMoves(s, step, k);
    case Retry(_) => RetryMoves(s, step, k);
    case Submit(_, _, _, _) => SubmitAppends(s, step);
    case _ => OthersLeaveTasks(s, step);
  }

  lemma TasksStay(s: Db, step: Step)
    requires Inv(s) && !step.Submit?
    ensures |Next(s, step).tasks| == |s.tasks|
  {
    if s.tasks != [] {
      hide Next, Inv, Moves;
      match step
      case Claim(_, _, _, _) => ClaimMoves(s, step, 0);
      case Cancel(_, _) => ClaimMoves(s, step, 0);
      case Succeed(_, _) => SucceedMoves(s, step, 0);
      case Fail(_, _) => FailMoves(s, step, 0);
      case ExitInactive(_, _) => FailMoves(s, step, 0);
      case TimeOut(_, _, _) => TimeOutMoves(s, step, 0);
      case TimeOutLocally(_, _) => TimeOutMoves(s, step, 0);
      case Recover(_) => RecoverMoves(s, step, 0);
      case RecoverLocally => RecoverMoves(s, step, 0);
      case Retry(_) => RetryMoves(s, step, 0);
      case _ => OthersLeaveTasks(s, step);
    } else {
      NoTasksNoChange(s, step);
    }
  }

  lemma NoTasksNoChange(s: Db, step: Step)
    requires s.tasks == [] && !step.Submit?
    ensures Next(s, step).tasks == []
  {
  }

  /** Tasks come from submissions only. */
  lemma NewTaskIsSubmitted(s: Db, step: Step, k: nat)
    requires Inv(s) && |s.tasks| <= k < |Next(s, step).tasks|
    ensures step.Submit? && k == |s.tasks| && step.t < |s.tenants|
    ensures Next(s, step).tasks[k]
            == Task(step.t, step.key, Pending, false, 0, true, s.tenants[step.t].unitPrice, None, None, 0)
  {
    if step.Submit? {
      SubmitAppends(s, step);
    } else {
      TasksStay(s, step);
    }
  }

  // ----- lease fencing -----

  /** Step j of the run is a claim of task k that took effect. */
  predicate ClaimAt(steps: seq<Step>, j: nat, k: nat)
    requires j < |steps|
  {
    var s := Run(steps[..j]);
    steps[j].Claim? && steps[j].k == k && k < |s.tasks| && Claimable(s.tasks[k], steps[j].now)
  }

  ghost predicate LastClaim(steps: seq<Step>, j: nat, k: nat) {
    && j < |steps| && ClaimAt(steps, j, k)
    && forall i | j < i < |steps| :: !ClaimAt(steps, i, k)
  }

  /** Only an effective claim gives task k a new lease owner. */
  lemma LeaseStep(s: Db, step: Step, k: nat)
    requires Inv(s) && k < |Next(s, step).tasks| && Next(s, step).tasks[k].leaseOwner.Some?
    ensures k < |s.tasks|
    ensures if step.Claim? && step.k == k && Claimable(s.tasks[k], step.now)
            then Next(s, step).tasks[k].leaseOwner == Some(step.worker)
            else Next(s, step).tasks[k].leaseOwner == s.tasks[k].leaseOwner
  {
    if k >= |s.tasks| {
      NewTaskIsSubmitted(s, step, k);
    } else {
      TaskMoves(s, step, k);
    }
  }

  lemma ClaimAtPrefix(steps: seq<Step>, n: nat, i: nat, k: nat)
    requires i < n <= |steps|
    ensures ClaimAt(steps[..n], i, k) == ClaimAt(steps, i, k)
  {
    assert steps[..n][..i] == steps[..i];
  }

  lemma LastClaimExtends(steps: seq<Step>, j: nat, k: nat)
    requires steps != [] && LastClaim(steps[..|steps| - 1], j, k) && !ClaimAt(steps, |steps| - 1, k)
    ensures LastClaim(steps, j, k)
  {
    var n := |steps| - 1;
    ClaimAtPrefix(steps, n, j, k);
    forall i | j < i < |steps| ensures !ClaimAt(steps, i, k) {
      if i < n {
        ClaimAtPrefix(steps, n, i, k);
      }
    }
  }

  lemma LeaseStepOfRun(steps: seq<Step>, k: nat)
    requires k < |Run(steps).tasks| && Run(steps).tasks[k].leaseOwner.Some?
    ensures steps != []
    ensures var n := |steps| - 1;
            if ClaimAt(steps, n, k) then Run(steps).tasks[k].leaseOwner == Some(steps[n].worker)
            else k < |Run(steps[..n]).tasks| && Run(steps[..n]).tasks[k].leaseOwner == Run(steps).tasks[k].leaseOwner
  {
    var n := |steps| - 1;
    RunKeeps(steps[..n]);
    LeaseStep(Run(steps[..n]), steps[n], k);
  }

  /** Whoever holds the lease of a task made its latest claim. */
  lemma {:induction false} OwnerIsLastClaimant(steps: seq<Step>, k: nat) returns (j: nat)
    requires k < |Run(steps).tasks| && Run(steps).tasks[k].leaseOwner.Some?
    ensures LastClaim(steps, j, k) && Run(steps).tasks[k].leaseOwner == Some(steps[j].worker)
  {
    LeaseStepOfRun(steps, k);
    var n := |steps| - 1;
    if ClaimAt(steps, n, k) {
      j := n;
    } else {
      j := OwnerIsLastClaimant(steps[..n], k);
      LastClaimExtends(steps, j, k);
    }
  }

  /** In any interleaving, a success, failure or cancellation that changes anything is written under the
      worker id of the latest claim of its task. No clock is compared. */
  lemma Fencing(steps: seq<Step>, step: Step) returns (j: nat)
    requires step.Succeed? || step.Fail? || step.Cancel?
    requires Next(Run(steps), step) != Run(steps)
    ensures LastClaim(steps, j, step.k) && steps[j].worker == step.worker
  {
    j := OwnerIsLastClaimant(steps, step.k);
  }

  /** With a fresh worker id for every claim of a task, the success, failure and cancellation of an execution
      superseded by a later claim leave every table as it was. Its other writes are another matter: see
      `SupersededActsExactly` in module Settlement. */
  lemma SupersededWorkerIsInert(steps: seq<Step>, mine: nat, later: nat, step: Step)
    requires step.Succeed? || step.Fail? || step.Cancel?
    requires mine < later < |steps| && ClaimAt(steps, mine, step.k) && ClaimAt(steps, later, step.k)
    requires steps[mine].worker == step.worker
    requires forall i, j | 0 <= i < j < |steps| && ClaimAt(steps, i, step.k) && ClaimAt(steps, j, step.k) ::
               steps[i].worker != steps[j].worker
    ensures Next(Run(steps), step) == Run(steps)
  {
    if Next(Run(steps), step) != Run(steps) {
      var j := Fencing(steps, step);
    }
  }

  /** Runs that start like this: a funded tenant, one task, claimed by worker "a", whose lease ran out and
      was recovered, and claimed again by `second`. */
  function TwiceClaimed(second: string): seq<Step> {
    [CreateTenant(Number(5000, -4), true), Deposit(0, Number(9000, -4)), Submit(0, None, false, Limits(10, 10)),
     Claim(0, "a", 0, 600), Recover(601), Claim(0, second, 602, 600)]
  }

  function TwiceClaimedDb(second: string): Db {
    Db([Tenant(true, 9000, 5000, 5000)],
       [Task(0, None, Processing, false, 0, true, 5000, Some(second), Some(1202), 2)],
       [Row(0, None, Recharge, 9000, 0, 9000)], map[])
  }

  lemma RunSnoc(steps: seq<Step>, step: Step)
    ensures Run(steps + [step]) == Next(Run(steps), step)
  {
    assert (steps + [step])[..|steps|] == steps;
  }

  function Funded(tasks: seq<Task>): Db {
    Db([Tenant(true, 9000, if tasks == [] then 0 else 5000, 5000)], tasks,
       [Row(0, None, Recharge, 9000, 0, 9000)], map[])
  }

  function Held(status: Status, owner: Option<string>, expires: Option<int>, attempts: nat): Task {
    Task(0, None, status, false, 0, true, 5000, owner, expires, attempts)
  }

  lemma FundedStep()
    ensures Next(Next(EMPTY, CreateTenant(Number(5000, -4), true)), Deposit(0, Number(9000, -4))) == Funded([])
  {
    assert Pow10(0) == 1;
    assert UnitPrice(Number(5000, -4)) == Ok(5000);
    assert Next(EMPTY, CreateTenant(Number(5000, -4), true)) == Db([Tenant(true, 0, 0, 5000)], [], [], map[]);
  }

  lemma SubmittedStep()
    ensures Next(Funded([]), Submit(0, None, false, Limits(10, 10))) == Funded([Held(Pending, None, None, 0)])
  {
  }

  lemma ClaimedStep(x: Task, worker: string, now: int)
    requires x == Held(Pending, None, None, x.attempts)
    ensures Next(Funded([x]), Claim(0, worker, now, 600))
            == Funded([Held(Processing, Some(worker), Some(now + 600), x.attempts + 1)])
  {
  }

  lemma RecoveredStep(worker: string)
    ensures Next(Funded([Held(Processing, Some(worker), Some(600), 1)]), Recover(601))
            == Funded([Held(Pending, None, None, 1)])
  {
  }

  lemma TwiceClaimedRun(second: string)
    ensures Run(TwiceClaimed(second)) == TwiceClaimedDb(second)
    ensures ClaimAt(TwiceClaimed(second), 3, 0) && ClaimAt(TwiceClaimed(second), 5, 0)
  {
    hide Next;
    var steps := TwiceClaimed(second);
    ActiveAtFirstClaim(second);
    assert steps[..4] == steps[..3] + [steps[3]];
    RunSnoc(steps[..3], steps[3]);
    ClaimedStep(Held(Pending, None, None, 0), "a", 0);
    assert steps[..5] == steps[..4] + [steps[4]] && steps == steps[..5] + [steps[5]];
    RunSnoc(steps[..4], steps[4]);
    RecoveredStep("a");
    RunSnoc(steps[..5], steps[5]);
    ClaimedStep(Held(Pending, None, None, 1), second, 602);
  }

  lemma ActiveAtFirstClaim(second: string)
    ensures Run(TwiceClaimed(second)[..3]) == Funded([Held(Pending, None, None, 0)])
  {
    hide Next;
    var steps := TwiceClaimed(second);
    assert steps[..1] == [] + [steps[0]] && steps[..2] == steps[..1] + [steps[1]];
    RunSnoc([], steps[0]);
    RunSnoc(steps[..1], steps[1]);
    FundedStep();
    assert steps[..3] == steps[..2] + [steps[2]];
    RunSnoc(steps[..2], steps[2]);
    SubmittedStep();
  }

  /** Fencing is by worker id only: a Celery redelivery keeps its request id, and then the execution of the
      first claim can still fail the task that the second one is working on. */
  lemma ReusedWorkerIdIsNotFenced()
    ensures exists steps: seq<Step>, mine: nat, later: nat ::
              && mine < later < |steps| && ClaimAt(steps, mine, 0) && ClaimAt(steps, later, 0)
              && Next(Run(steps), Fail(0, steps[mine].worker)) != Run(steps)
  {
    TwiceClaimedRun("a");
    assert Next(TwiceClaimedDb("a"), Fail(0, "a")).tasks[0].status == Failed;
    assert ClaimAt(TwiceClaimed("a"), 3, 0);
  }

  // ----- settlement -----

  /** A task is SUCCESS exactly if it was charged. */
  predicate Settled(s: Db) {
    forall k | 0 <= k < |s.tasks| :: s.tasks[k].status == Success <==> s.tasks[k].isCharged
  }

  /** The guard of the one branch that can leave SUCCESS: the exit of an inactive tenant's claim meets a
      task that a later claimant already finished. */
  predicate ExitHitsSuccess(s: Db, step: Step) {
    && step.ExitInactive? && step.k < |s.tasks| && s.tasks[step.k].status == Success
    && s.tasks[step.k].tenant < |s.tenants| && !s.tenants[s.tasks[step.k].tenant].active
  }

  /** SUCCESS is left by that branch and by nothing else. */
  lemma SuccessIsLeftOnlyByExit(s: Db, step: Step, k: nat)
    requires Inv(s) && k < |s.tasks| && s.tasks[k].status == Success
    ensures k < |Next(s, step).tasks|
    ensures Next(s, step).tasks[k].status != Success <==> ExitHitsSuccess(s, step) && step.k == k
  {
    TaskMoves(s, step, k);
    assert TaskOk(s.tasks[k], |s.tenants|);
  }

  /** Charges are permanent: no step takes one back or changes its amount. */
  lemma ChargeIsPermanent(s: Db, step: Step, k: nat)
    requires Inv(s) && k < |s.tasks| && s.tasks[k].isCharged
    ensures k < |Next(s, step).tasks|
    ensures Next(s, step).tasks[k].isCharged && Next(s, step).tasks[k].charged == s.tasks[k].charged
  {
    TaskMoves(s, step, k);
    assert TaskOk(s.tasks[k], |s.tenants|);
  }
}
