/** Charges over whole runs: who is charged, how often, and at which price. */
module Settlement {
  import opened Wrappers
  import opened Money
  import opened Database
  import opened Billing
  import opened Lifecycle
  import opened Invariants
  import opened Reachable

  // ----- SUCCESS means charged -----

  lemma SettledStep(s: Db, step: Step)
    requires Inv(s) && Settled(s)
    ensures Settled(Next(s, step)) <==> !ExitHitsSuccess(s, step)
  {
    var s' := Next(s, step);
    forall k | 0 <= k < |s'.tasks|
      ensures (s'.tasks[k].status == Success <==> s'.tasks[k].isCharged)
              <==> !(ExitHitsSuccess(s, step) && step.k == k)
    {
      if k >= |s.tasks| {
        NewTaskIsSubmitted(s, step, k);
      } else {
        assert TaskOk(s.tasks[k], |s.tenants|);
        TaskMoves(s, step, k);
        if s.tasks[k].isCharged {
          ChargeIsPermanent(s, step, k);
          SuccessIsLeftOnlyByExit(s, step, k);
        }
      }
    }
    if ExitHitsSuccess(s, step) {
      SuccessIsLeftOnlyByExit(s, step, step.k);
    }
  }

  /** Settled in the last state of the run and in all earlier ones. */
  predicate SettledThroughout(steps: seq<Step>) {
    Settled(Run(steps)) && (steps == [] || SettledThroughout(steps[..|steps| - 1]))
  }

  predicate NoExitOnSuccess(steps: seq<Step>) {
    steps == []
    || (!ExitHitsSuccess(Run(steps[..|steps| - 1]), steps[|steps| - 1]) && NoExitOnSuccess(steps[..|steps| - 1]))
  }

  /** SUCCESS and charged coincide in every state of a run exactly if no inactive-tenant exit of the run
      meets a finished task. */
  lemma {:induction false} SettlementExact(steps: seq<Step>)
    ensures SettledThroughout(steps) <==> NoExitOnSuccess(steps)
  {
    if steps != [] {
      var before := steps[..|steps| - 1];
      SettlementExact(before);
      RunKeeps(before);
      if Settled(Run(before)) {
        SettledStep(Run(before), steps[|steps| - 1]);
      }
    }
  }

  lemma LeaseHolderIsUnfinished(s: Db, step: Step)
    requires Inv(s) && step.ExitInactive?
    requires step.k < |s.tasks| ==> s.tasks[step.k].leaseOwner == Some(step.worker)
    ensures !ExitHitsSuccess(s, step)
  {
    if step.k < |s.tasks| {
      assert TaskOk(s.tasks[step.k], |s.tenants|);
    }
  }

  /** Every inactive-tenant exit of the run is made by the current lease holder. */
  predicate ExitsHoldLease(steps: seq<Step>) {
    steps == []
    || var s := Run(steps[..|steps| - 1]);
       var step := steps[|steps| - 1];
       && (step.ExitInactive? && step.k < |s.tasks| ==> s.tasks[step.k].leaseOwner == Some(step.worker))
       && ExitsHoldLease(steps[..|steps| - 1])
  }

  /** The lease guard that the other writes of a worker have would be enough. */
  lemma {:induction false} LeaseGuardSettles(steps: seq<Step>)
    requires ExitsHoldLease(steps)
    ensures NoExitOnSuccess(steps)
  {
    if steps != [] {
      var before := steps[..|steps| - 1];
      var step := steps[|steps| - 1];
      LeaseGuardSettles(before);
      RunKeeps(before);
      if step.ExitInactive? {
        LeaseHolderIsUnfinished(Run(before), step);
      }
    }
  }

  /** Worker "b" finishes task 0; then the tenant is deactivated. */
  function ThenFinished(claimed: seq<Step>): seq<Step> {
    claimed + [Succeed(0, "b")] + [SetActive(0, false)]
  }

  lemma FinishThenDeactivate(s: Db)
    requires Inv(s) && |s.tenants| == |s.tasks| == 1 && s.tenants[0].active && s.tasks[0].tenant == 0
    requires s.tasks[0].status == Processing && s.tasks[0].leaseOwner == Some("b")
    ensures var s' := Next(Next(s, Succeed(0, "b")), SetActive(0, false));
            |s'.tenants| == |s'.tasks| == 1 && !s'.tenants[0].active && s'.tasks[0] == Finished(s.tasks[0])
  {
    HeldChargeSucceeds(s, 0, "b");
  }

  /** No two claims of task k were made under one worker id. */
  ghost predicate FreshIds(steps: seq<Step>, k: nat) {
    forall i, j | 0 <= i < j < |steps| && ClaimAt(steps, i, k) && ClaimAt(steps, j, k) ::
      steps[i].worker != steps[j].worker
  }

  lemma TwoFreshClaims(steps: seq<Step>)
    requires |steps| > 5 && steps[3].Claim? && steps[5].Claim? && steps[3].worker != steps[5].worker
    requires forall i | 0 <= i < |steps| && i != 3 && i != 5 :: !steps[i].Claim?
    ensures FreshIds(steps, 0)
  {
    hide Run;
    forall i, j | 0 <= i < j < |steps| && ClaimAt(steps, i, 0) && ClaimAt(steps, j, 0)
      ensures steps[i].worker != steps[j].worker
    {
      assert steps[i].Claim? && steps[j].Claim?;
    }
  }

  lemma ExitFails(s: Db)
    requires |s.tenants| == |s.tasks| == 1 && !s.tenants[0].active && s.tasks[0].tenant == 0
    requires !s.tasks[0].isReserved
    ensures var s' := Next(s, ExitInactive(0, "a"));
            |s'.tasks| == 1 && s'.tasks[0].status == Failed && s'.tasks[0].isCharged == s.tasks[0].isCharged
  {
  }

  /** Without it: worker "a" claims while the tenant is active, loses its lease to a later claim under another id,
      the later claimant finishes and is charged for the task, the tenant is deactivated, and only now does "a"
      look at the tenant: its exit turns the charged task into a failed one. */
  lemma LateExitUnsettles()
    ensures exists steps: seq<Step>, mine: nat, later: nat ::
              && mine < later < |steps| && ClaimAt(steps, mine, 0) && ClaimAt(steps, later, 0) && FreshIds(steps, 0)
              && 0 < |Run(steps[..mine]).tenants| && Run(steps[..mine]).tenants[0].active
              && |Run(steps).tasks| == 1 && Run(steps).tasks[0].status == Success && Run(steps).tasks[0].isCharged
              && var s' := Next(Run(steps), ExitInactive(0, steps[mine].worker));
                 |s'.tasks| == 1 && s'.tasks[0].status == Failed && s'.tasks[0].isCharged
  {
    hide Next, Run;
    var claimed := TwiceClaimed("b");
    var steps := ThenFinished(claimed);
    TwiceClaimedRun("b");
    ActiveAtFirstClaim("b");
    RunKeeps(claimed);
    FinishThenDeactivate(Run(claimed));
    RunSnoc(claimed, Succeed(0, "b"));
    RunSnoc(claimed + [Succeed(0, "b")], SetActive(0, false));
    assert steps[..|claimed|] == claimed && steps[..3] == claimed[..3];
    ClaimAtPrefix(steps, |claimed|, 3, 0);
    ClaimAtPrefix(steps, |claimed|, 5, 0);
    TwoFreshClaims(steps);
    ExitFails(Run(steps));
    assert ClaimAt(steps, 3, 0) && ClaimAt(steps, 5, 0);
  }

  /** In every reachable state: a charged task has exactly one deduction, of its charged amount; an
      uncharged task has none and carries no charge; a finished task holds nothing. */
  lemma ChargesMatchLedger(steps: seq<Step>, k: nat)
    requires k < |Run(steps).tasks|
    ensures var s := Run(steps);
            var x := s.tasks[k];
            && (x.isCharged <==> |RowsOf(s.ledger, k, Deduction)| == 1)
            && (x.isCharged <==> RowsOf(s.ledger, k, Deduction) != [])
            && (x.isCharged ==> RowsOf(s.ledger, k, Deduction)[0].amount == x.charged > 0)
            && (!x.isCharged ==> x.charged == 0)
            && (x.status == Success ==> x.isCharged)
            && (x.status in {Success, Failed} ==> !x.isReserved && x.reservedAmount == 0)
  {
    RunKeeps(steps);
    assert ChargeOk(Run(steps), k, Run(steps).tasks[k]);
    assert TaskOk(Run(steps).tasks[k], |Run(steps).tenants|);
  }

  // ----- the price of a hold -----

  /** The step reserves money for task k: its submission or a retry that goes through. */
  predicate Reserves(s: Db, step: Step, k: nat) {
    match step
    case Submit(t, key, raced, limits) => ApplySubmit(s, t, key, raced, limits).1 == Created(k)
    case Retry(j) =>
      && j == k < |s.tasks| && s.tasks[k].status == Failed && !s.tasks[k].isCharged && !s.tasks[k].isReserved
      && Reserve(s, s.tasks[k].tenant).Some?
    case _ => false
  }

  predicate ReservedAt(steps: seq<Step>, j: nat, k: nat)
    requires j < |steps|
  {
    Reserves(Run(steps[..j]), steps[j], k)
  }

  ghost predicate LastReserved(steps: seq<Step>, j: nat, k: nat) {
    && j < |steps| && ReservedAt(steps, j, k)
    && forall i | j < i < |steps| :: !ReservedAt(steps, i, k)
  }

  lemma ReservedAtPrefix(steps: seq<Step>, n: nat, i: nat, k: nat)
    requires i < n <= |steps|
    ensures ReservedAt(steps[..n], i, k) == ReservedAt(steps, i, k)
  {
    assert steps[..n][..i] == steps[..i];
  }

  lemma LastReservedExtends(steps: seq<Step>, j: nat, k: nat)
    requires steps != [] && LastReserved(steps[..|steps| - 1], j, k) && !ReservedAt(steps, |steps| - 1, k)
    ensures LastReserved(steps, j, k)
  {
    var n := |steps| - 1;
    ReservedAtPrefix(steps, n, j, k);
    forall i | j < i < |steps| ensures !ReservedAt(steps, i, k) {
      if i < n {
        ReservedAtPrefix(steps, n, i, k);
      }
    }
  }

  /** One step: the hold of task k is new and at the current price, or it is the one it was. */
  lemma HoldStep(s: Db, step: Step, k: nat)
    requires Inv(s) && k < |Next(s, step).tasks| && Next(s, step).tasks[k].isReserved
    ensures var x := Next(s, step).tasks[k];
            if Reserves(s, step, k)
            then x.tenant < |s.tenants| && x.reservedAmount == s.tenants[x.tenant].unitPrice
            else k < |s.tasks| && s.tasks[k].isReserved && x.tenant == s.tasks[k].tenant
                 && x.reservedAmount == s.tasks[k].reservedAmount
  {
    hide TenantsOk, HoldsOk, LedgerOk, ChargesOk, FeedbackOk, CountActive, FindKey;
    if k >= |s.tasks| {
      NewTaskIsSubmitted(s, step, k);
    } else {
      TaskMoves(s, step, k);
      assert TaskOk(s.tasks[k], |s.tenants|);
    }
  }

  /** A held amount is the unit price that stood when the task was last reserved for, whatever price
      changes, recharges and other charges the run contains since. */
  lemma {:induction false} HeldPrice(steps: seq<Step>, k: nat) returns (j: nat)
    requires k < |Run(steps).tasks| && Run(steps).tasks[k].isReserved
    ensures LastReserved(steps, j, k)
    ensures var x := Run(steps).tasks[k];
            x.tenant < |Run(steps[..j]).tenants|
            && x.reservedAmount == Run(steps[..j]).tenants[x.tenant].unitPrice
  {
    var n := |steps| - 1;
    RunKeeps(steps[..n]);
    HoldStep(Run(steps[..n]), steps[n], k);
    if ReservedAt(steps, n, k) {
      j := n;
    } else {
      j := HeldPrice(steps[..n], k);
      LastReservedExtends(steps, j, k);
      assert steps[..n][..j] == steps[..j];
    }
  }

  /** Task k after a successful charge of its hold. */
  function Finished(x: Task): Task {
    x.(status := Success, leaseOwner := None, leaseExpires := None,
       isCharged := true, charged := x.reservedAmount, isReserved := false, reservedAmount := 0)
  }

  /** A held reservation can always be charged, in every good and so in every reachable state: the lease
      holder of an active tenant's task succeeds, the charge is the held amount, and only this hold
      leaves the account. */
  lemma HeldChargeSucceeds(s: Db, k: nat, worker: string)
    requires Inv(s) && k < |s.tasks| && s.tasks[k].status == Processing && s.tasks[k].leaseOwner == Some(worker)
    requires s.tasks[k].tenant < |s.tenants| && s.tenants[s.tasks[k].tenant].active
    ensures var x := s.tasks[k];
            var y := s.tenants[x.tenant];
            Next(s, Succeed(k, worker))
            == Db(s.tenants[x.tenant := y.(balance := y.balance - x.reservedAmount,
                                           reserved := y.reserved - x.reservedAmount)],
                  s.tasks[k := Finished(x)],
                  s.ledger + [Row(x.tenant, Some(k), Deduction, x.reservedAmount,
                                  y.balance, y.balance - x.reservedAmount)],
                  s.feedback)
  {
    var x := s.tasks[k];
    assert TaskOk(x, |s.tenants|);
    assert ChargeOk(s, k, x);
    HoldWithinSum(s.tasks, k, x.tenant);
    var flushed := x.(status := Success, leaseOwner := None, leaseExpires := None);
    assert s.tasks[k := flushed][k := Finished(x)] == s.tasks[k := Finished(x)];
  }

  /** Exactly when a worker's write changes anything: it names the lease owner, and the task is in a state for it. */
  lemma WriteTakesEffectExactly(s: Db, step: Step)
    requires Inv(s) && (step.Succeed? || step.Fail? || step.Cancel?)
    ensures Next(s, step) != s
            <==> && step.k < |s.tasks| && s.tasks[step.k].leaseOwner == Some(step.worker)
                 && (step.Fail? || s.tasks[step.k].status == Processing)
                 && (step.Succeed? ==> s.tasks[step.k].tenant < |s.tenants| && s.tenants[s.tasks[step.k].tenant].active)
  {
    if step.k < |s.tasks| && s.tasks[step.k].leaseOwner == Some(step.worker) {
      var x := s.tasks[step.k];
      assert TaskOk(x, |s.tenants|);
      if step.Fail? {
        FailEffect(s, step.k, step.worker);
      } else if step.Succeed? && x.status == Processing {
        SuccessEffect(s, step.k, step.worker);
      }
    }
  }

  lemma FailEffect(s: Db, k: nat, worker: string)
    requires Inv(s) && k < |s.tasks| && s.tasks[k].leaseOwner == Some(worker)
    ensures Next(s, Fail(k, worker)) != s
  {
    hide TenantsOk, HoldsOk, LedgerOk, ChargesOk, FeedbackOk;
    assert TaskOk(s.tasks[k], |s.tenants|);
    FailAndFree(s, k, Failing(s.tasks[k]));
    var freed := Failing(s.tasks[k]).(isReserved := false, reservedAmount := 0);
    assert Next(s, Fail(k, worker)).tasks[k] == freed;
  }

  lemma SuccessEffect(s: Db, k: nat, worker: string)
    requires Inv(s) && k < |s.tasks| && s.tasks[k].leaseOwner == Some(worker) && s.tasks[k].status == Processing
    ensures Next(s, Succeed(k, worker)) != s
            <==> s.tasks[k].tenant < |s.tenants| && s.tenants[s.tasks[k].tenant].active
  {
    hide TenantsOk, HoldsOk, LedgerOk, ChargesOk, FeedbackOk;
    assert TaskOk(s.tasks[k], |s.tenants|);
    if s.tenants[s.tasks[k].tenant].active {
      HeldChargeSucceeds(s, k, worker);
      assert Next(s, Succeed(k, worker)).tasks[k] == Finished(s.tasks[k]);
    }
  }

  // ----- superseded executions -----

  /** What an execution can still write to its task after its claim. */
  predicate IsWrite(step: Step) {
    step.Succeed? || step.Fail? || step.Cancel? || step.ExitInactive? || step.TimeOut? || step.TimeOutLocally?
  }

  /** The exit of an inactive tenant's execution alters the row unless it is failed and free already. */
  predicate ExitAlters(s: Db, k: nat) {
    && k < |s.tasks| && s.tasks[k].tenant < |s.tenants| && !s.tenants[s.tasks[k].tenant].active
    && !(s.tasks[k].status == Failed && s.tasks[k].leaseOwner == None && s.tasks[k].leaseExpires == None)
  }

  /** A timeout fails the task as long as it is pending or processing, whoever works on it. */
  predicate TimeOutAlters(s: Db, step: Step)
    requires step.TimeOut? || step.TimeOutLocally?
  {
    step.k < |s.tasks| && Active(s.tasks[step.k].status) && (step.TimeOut? ==> s.tasks[step.k].tenant == step.t)
  }

  lemma ExitEffect(s: Db, k: nat, worker: string)
    requires Inv(s)
    ensures Next(s, ExitInactive(k, worker)) != s <==> ExitAlters(s, k)
  {
    hide TenantsOk, HoldsOk, LedgerOk, ChargesOk, FeedbackOk;
    if k < |s.tasks| {
      var x := s.tasks[k];
      assert TaskOk(x, |s.tenants|);
      FailAndFree(s, k, Failing(x));
      var freed := Failing(x).(isReserved := false, reservedAmount := 0);
      if !s.tenants[x.tenant].active {
        assert Next(s, ExitInactive(k, worker)).tasks[k] == freed;
        if freed == x {
          assert Rehold(s, k, freed) == s.tenants[x.tenant];
        }
      }
    }
  }

  lemma TimeOutEffect(s: Db, step: Step)
    requires Inv(s) && (step.TimeOut? || step.TimeOutLocally?)
    ensures Next(s, step) != s <==> TimeOutAlters(s, step)
  {
    hide TenantsOk, HoldsOk, LedgerOk, ChargesOk, FeedbackOk, Release;
    if step.k < |s.tasks| {
      var x := s.tasks[step.k];
      assert TaskOk(x, |s.tenants|);
      ReleaseIsSafe(s, if step.TimeOut? then step.t else x.tenant, step.k);
      if TimeOutAlters(s, step) {
        assert Next(s, step).tasks[step.k].status == Failed;
      }
    }
  }

  /** Exactly what an execution superseded by a later claim can still do, with a fresh worker id for every
      claim: its success, failure and cancellation do nothing, but its exit still hits any unfailed task of an
      inactive tenant, and its timeout any task that is pending or processing. */
  lemma SupersededActsExactly(steps: seq<Step>, mine: nat, later: nat, step: Step)
    requires IsWrite(step) && FreshIds(steps, step.k)
    requires mine < later < |steps| && ClaimAt(steps, mine, step.k) && ClaimAt(steps, later, step.k)
    requires steps[mine].worker == step.worker
    ensures Next(Run(steps), step) != Run(steps)
            <==> || (step.ExitInactive? && ExitAlters(Run(steps), step.k))
                 || ((step.TimeOut? || step.TimeOutLocally?) && TimeOutAlters(Run(steps), step))
  {
    hide Next, Run, ClaimAt, ExitAlters, TimeOutAlters, Inv;
    RunKeeps(steps);
    if step.ExitInactive? {
      ExitEffect(Run(steps), step.k, step.worker);
    } else if step.TimeOut? || step.TimeOutLocally? {
      TimeOutEffect(Run(steps), step);
    } else {
      SupersededWorkerIsInert(steps, mine, later, step);
    }
  }

  /** Worker "a" is cancelled by its time limit, which hands the task back; "b" claims it. */
  function HandedOver(): seq<Step> {
    [CreateTenant(Number(5000, -4), true), Deposit(0, Number(9000, -4)), Submit(0, None, false, Limits(10, 10)),
     Claim(0, "a", 0, 600), Cancel(0, "a"), Claim(0, "b", 1, 600)]
  }

  lemma HandedOverRun()
    ensures Run(HandedOver()) == Funded([Held(Processing, Some("b"), Some(601), 2)])
    ensures ClaimAt(HandedOver(), 3, 0) && ClaimAt(HandedOver(), 5, 0)
  {
    hide Next;
    var steps := HandedOver();
    assert steps[..3] == TwiceClaimed("b")[..3];
    ActiveAtFirstClaim("b");
    assert steps[..4] == steps[..3] + [steps[3]];
    RunSnoc(steps[..3], steps[3]);
    ClaimedStep(Held(Pending, None, None, 0), "a", 0);
    assert steps[..5] == steps[..4] + [steps[4]] && steps == steps[..5] + [steps[5]];
    RunSnoc(steps[..4], steps[4]);
    CancelledStep();
    RunSnoc(steps[..5], steps[5]);
    ClaimedStep(Held(Pending, None, None, 1), "b", 1);
  }

  lemma CancelledStep()
    ensures Next(Funded([Held(Processing, Some("a"), Some(600), 1)]), Cancel(0, "a"))
            == Funded([Held(Pending, None, None, 1)])
  {
  }

  lemma TimedOutStep()
    ensures var s := Next(Funded([Held(Processing, Some("b"), Some(601), 2)]), TimeOut(0, 0, "a"));
            && s == Db([Tenant(true, 9000, 0, 5000)], [Task(0, None, Failed, false, 0, false, 0, None, None, 2)],
                       [Row(0, None, Recharge, 9000, 0, 9000)], map[])
            && Next(s, Succeed(0, "b")) == s
  {
  }

  /** With fresh ids and nothing out of the ordinary: between the cancellation of "a" and its timeout, which is a
      transaction of its own, "b" claims the task. The timeout fails the task that "b" works on, and the success
      of "b" then changes nothing. */
  lemma LateTimeOutHitsSuccessor()
    ensures var steps := HandedOver();
            var s := Next(Run(steps), TimeOut(0, 0, steps[3].worker));
            && ClaimAt(steps, 3, 0) && ClaimAt(steps, 5, 0) && FreshIds(steps, 0)
            && |Run(steps).tasks| == 1 && Run(steps).tasks[0].status == Processing
            && Run(steps).tasks[0].leaseOwner == Some(steps[5].worker)
            && |s.tasks| == 1 && s.tasks[0].status == Failed
            && Next(s, Succeed(0, steps[5].worker)) == s
  {
    hide Next, Run;
    HandedOverRun();
    TimedOutStep();
    TwoFreshClaims(HandedOver());
  }

  /** A task that has a deduction in the ledger but is not marked charged can never be charged again: as imported
      data may have it, but no run of the service produces. */
  lemma OldDeductionBlocksCharge(s: Db, k: nat, worker: string)
    requires RowsOf(s.ledger, k, Deduction) != []
    ensures Next(s, Succeed(k, worker)) == s
  {
  }

  /** A charge without a reservation, as for rows older than reservations, never eats into the holds of
      other tasks: it needs nothing of the task table but the accounting itself. */
  lemma UnreservedChargeSparesHolds(s: Db, t: nat, k: nat)
    requires TenantsOk(s) && HoldsOk(s)
    requires k < |s.tasks| && !s.tasks[k].isReserved && Deduct(s, t, k).Some?
    ensures var s' := Deduct(s, t, k).value;
            && TenantsOk(s') && HoldsOk(s')
            && s'.tenants[t].reserved == s.tenants[t].reserved <= s'.tenants[t].balance
            && s'.tasks[k].charged == s.tenants[t].unitPrice
  {
    var s' := Deduct(s, t, k).value;
    forall u | 0 <= u < |s.tenants| ensures SumHolds(s'.tasks, u) == SumHolds(s.tasks, u) {
      SumHoldsUpdate(s.tasks, k, s'.tasks[k], u);
    }
  }
}
