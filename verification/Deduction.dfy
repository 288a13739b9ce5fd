/** deduct_for_task_success statement by statement, run by any number of sessions for one task at once.
    Sessions read the task without a lock; the tenant row is locked from its UPDATE until commit or
    rollback, and every UPDATE re-evaluates its guard on the committed row. */
module Deduction {
  import opened Wrappers
  import opened Money
  import opened Database
  import opened Billing
  import opened Lifecycle
  import Invariants

  /** Where one session stands, with what it read or wrote and did not commit. */
  datatype Phase =
    | Idle
    | HasRead(wasReserved: bool, held: int)
    | HasDebited(wasReserved: bool, price: int, tenant: Tenant)
    | HasMarked(wasReserved: bool, price: int, tenant: Tenant)   // and holds the task row
    | Charged
    | GaveUp

  /** Committed tables, the session that holds the tenant row, and all sessions. */
  datatype World = World(db: Db, lock: Option<nat>, phases: seq<Phase>)

  /** A statement of session i, or a whole transaction of somebody else. */
  datatype Event = Statement(i: nat) | Elsewhere(step: Step)

  predicate ForTask(s: Db, t: nat, k: nat) {
    k < |s.tasks| && s.tasks[k].tenant == t && t < |s.tenants|
  }

  predicate Chargeable(x: Task) {
    !x.isCharged && x.status in {Processing, Success}
  }

  /** The tenant after the debit, if the guard of the UPDATE holds. */
  function Debit(x: Tenant, wasReserved: bool, held: int): Option<(Tenant, int)> {
    if wasReserved then
      if UnitAmount(held) && x.active && x.balance <= MAX_ACCOUNT_BALANCE && x.reserved <= x.balance
         && x.balance >= held && x.reserved >= held
      then Some((x.(balance := x.balance - held, reserved := x.reserved - held), held))
      else None
    else if CanFund(x) then Some((x.(balance := x.balance - x.unitPrice), x.unitPrice))
    else None
  }

  function Mark(x: Task, price: int): Task {
    x.(isCharged := true, charged := price, isReserved := false, reservedAmount := 0)
  }

  function Moved(w: World, i: nat, p: Phase): World
    requires i < |w.phases|
  {
    w.(phases := w.phases[i := p])
  }

  /** The next statement of session i; a session that needs a row another one holds waits. */
  function Execute(w: World, t: nat, k: nat, i: nat): World
    requires ForTask(w.db, t, k) && i < |w.phases|
  {
    match w.phases[i]
    case Idle =>
      if Chargeable(w.db.tasks[k])
      then Moved(w, i, HasRead(w.db.tasks[k].isReserved, w.db.tasks[k].reservedAmount))
      else Moved(w, i, GaveUp)
    case HasRead(wasReserved, held) =>
      if w.lock.Some? then w
      else
        (match Debit(w.db.tenants[t], wasReserved, held)
         case None => Moved(w, i, GaveUp)
         case Some((tenant, price)) => Moved(w, i, HasDebited(wasReserved, price, tenant)).(lock := Some(i)))
    case HasDebited(wasReserved, price, tenant) =>
      if Chargeable(w.db.tasks[k])
      then Moved(w, i, HasMarked(wasReserved, price, tenant))
      else Moved(w, i, GaveUp).(lock := None)
    case HasMarked(_, price, tenant) =>
      if RowsOf(w.db.ledger, k, Deduction) != [] then Moved(w, i, GaveUp).(lock := None)
      else
        var row := Row(t, Some(k), Deduction, price, tenant.balance + price, tenant.balance);
        Moved(w, i, Charged).(
          lock := None,
          db := w.db.(tenants := w.db.tenants[t := tenant], tasks := w.db.tasks[k := Mark(w.db.tasks[k], price)],
                      ledger := w.db.ledger + [row]))
    case Charged => w
    case GaveUp => w
  }

  /** Another transaction. It waits for the tenant row, and it is one that writes neither this task nor its
      deduction: the only caller of the deduction has already updated the task row when it calls, so that other
      writers of that row wait. `LocksAllow` below drops this restriction. */
  predicate MayRun(w: World, t: nat, k: nat, step: Step)
    requires ForTask(w.db, t, k)
  {
    var s := Next(w.db, step);
    && ForTask(s, t, k) && s.tasks[k] == w.db.tasks[k]
    && RowsOf(s.ledger, k, Deduction) == RowsOf(w.db.ledger, k, Deduction)
    && (w.lock == None || s.tenants[t] == w.db.tenants[t])
  }

  function Happen(w: World, t: nat, k: nat, e: Event): World
    requires ForTask(w.db, t, k)
  {
    match e
    case Statement(i) => if i < |w.phases| then Execute(w, t, k, i) else w
    case Elsewhere(step) => if MayRun(w, t, k, step) then w.(db := Next(w.db, step)) else w
  }

  /** What an uncommitted session knows is still true of the committed rows, unless the task is charged. */
  predicate Honest(w: World, t: nat, k: nat, p: Phase)
    requires ForTask(w.db, t, k)
  {
    var x := w.db.tasks[k];
    match p
    case HasRead(wasReserved, held) => x.isCharged || (wasReserved == x.isReserved && held == x.reservedAmount)
    case HasDebited(wasReserved, price, tenant) =>
      x.isCharged || (wasReserved == x.isReserved
                      && Debit(w.db.tenants[t], wasReserved, x.reservedAmount) == Some((tenant, price)))
    case HasMarked(wasReserved, price, tenant) =>
      && Chargeable(x) && wasReserved == x.isReserved
      && Debit(w.db.tenants[t], wasReserved, x.reservedAmount) == Some((tenant, price))
    case Charged => x.isCharged
    case _ => true
  }

  function CountCharged(phases: seq<Phase>): nat {
    if phases == [] then 0
    else CountCharged(phases[..|phases| - 1]) + if phases[|phases| - 1] == Charged then 1 else 0
  }

  predicate Consistent(w: World, t: nat, k: nat) {
    && ForTask(w.db, t, k)
    && (forall i | 0 <= i < |w.phases| :: Honest(w, t, k, w.phases[i]))
    && (forall i | 0 <= i < |w.phases| && (w.phases[i].HasDebited? || w.phases[i].HasMarked?) :: w.lock == Some(i))
    && CountCharged(w.phases) <= (if w.db.tasks[k].isCharged then 1 else 0)
  }

  lemma {:induction false} CountChargedUpdate(phases: seq<Phase>, i: nat, p: Phase)
    requires i < |phases|
    ensures CountCharged(phases[i := p])
            == CountCharged(phases) - (if phases[i] == Charged then 1 else 0) + (if p == Charged then 1 else 0)
  {
    var n := |phases| - 1;
    if i < n {
      assert phases[i := p][..n] == phases[..n][i := p];
      CountChargedUpdate(phases[..n], i, p);
    } else {
      assert phases[i := p][..n] == phases[..n];
    }
  }

  lemma CommitIsDeduct(w: World, t: nat, k: nat, i: nat)
    requires ForTask(w.db, t, k) && i < |w.phases| && Honest(w, t, k, w.phases[i])
    requires w.phases[i].HasMarked? && RowsOf(w.db.ledger, k, Deduction) == []
    ensures Deduct(w.db, t, k) == Some(Execute(w, t, k, i).db)
  {
    var HasMarked(wasReserved, price, tenant) := w.phases[i];
    assert tenant.balance + price == w.db.tenants[t].balance;
  }

  /** A statement that does not commit changes one phase, and what it then knows is true. */
  lemma StatementKeeps(w: World, t: nat, k: nat, i: nat)
    requires Consistent(w, t, k) && i < |w.phases|
    requires !(w.phases[i].HasMarked? && RowsOf(w.db.ledger, k, Deduction) == [])
    ensures var w' := Execute(w, t, k, i);
            Consistent(w', t, k) && w'.db == w.db && (w'.phases[i] == Charged ==> w.phases[i] == Charged)
  {
    hide RowsOf, CanFund, CountCharged;
    var w' := Execute(w, t, k, i);
    CountChargedUpdate(w.phases, i, w'.phases[i]);
    forall j | 0 <= j < |w'.phases| ensures Honest(w', t, k, w'.phases[j]) {
      assert Honest(w, t, k, w.phases[j]);
    }
  }

  /** The commit charges the task, and every other session's knowledge stays true of a charged task. */
  lemma CommitKeeps(w: World, t: nat, k: nat, i: nat)
    requires Consistent(w, t, k) && i < |w.phases|
    requires w.phases[i].HasMarked? && RowsOf(w.db.ledger, k, Deduction) == []
    ensures Consistent(Execute(w, t, k, i), t, k)
    ensures !w.db.tasks[k].isCharged && Execute(w, t, k, i).phases == w.phases[i := Charged]
  {
    var w' := Execute(w, t, k, i);
    CountChargedUpdate(w.phases, i, Charged);
    assert Honest(w, t, k, w.phases[i]);
    forall j | 0 <= j < |w'.phases| ensures Honest(w', t, k, w'.phases[j]) {
      assert j != i ==> !w.phases[j].HasMarked?;
    }
  }

  /** A statement changes the committed tables only when it commits, and then it is the whole atomic
      deduction at that moment. */
  lemma StatementIsAtomic(w: World, t: nat, k: nat, i: nat)
    requires Consistent(w, t, k) && i < |w.phases|
    ensures var w' := Execute(w, t, k, i);
            && Consistent(w', t, k)
            && if w.phases[i] != Charged && w'.phases[i] == Charged
               then !w.db.tasks[k].isCharged && Deduct(w.db, t, k) == Some(w'.db)
               else w'.db == w.db
  {
    if w.phases[i].HasMarked? && RowsOf(w.db.ledger, k, Deduction) == [] {
      assert Honest(w, t, k, w.phases[i]);
      CommitKeeps(w, t, k, i);
      CommitIsDeduct(w, t, k, i);
    } else {
      StatementKeeps(w, t, k, i);
    }
  }

  lemma ElsewhereKeeps(w: World, t: nat, k: nat, step: Step)
    requires Consistent(w, t, k) && MayRun(w, t, k, step)
    ensures Consistent(w.(db := Next(w.db, step)), t, k)
  {
    var w' := w.(db := Next(w.db, step));
    forall i | 0 <= i < |w.phases| ensures Honest(w', t, k, w.phases[i]) {
      assert Honest(w, t, k, w.phases[i]);
    }
  }

  /** The world after a run, from fresh sessions on a given database. */
  function Play(s: Db, sessions: nat, t: nat, k: nat, events: seq<Event>): (w: World)
    requires ForTask(s, t, k)
    ensures ForTask(w.db, t, k)
  {
    if events == [] then World(s, None, Idles(sessions))
    else Happen(Play(s, sessions, t, k, events[..|events| - 1]), t, k, events[|events| - 1])
  }

  function Idles(n: nat): (r: seq<Phase>)
    ensures |r| == n && forall i | 0 <= i < n :: r[i] == Idle
  {
    if n == 0 then [] else Idles(n - 1) + [Idle]
  }

  datatype Serial = Charge | Other(step: Step)

  /** Whole transactions, one after the other. */
  function Replay(s: Db, t: nat, k: nat, log: seq<Serial>): Db {
    if log == [] then s
    else
      var before := Replay(s, t, k, log[..|log| - 1]);
      match log[|log| - 1]
      case Other(step) => Next(before, step)
      case Charge => (match Deduct(before, t, k) case None => before case Some(d) => d)
  }

  function Charges(log: seq<Serial>): nat {
    if log == [] then 0 else Charges(log[..|log| - 1]) + if log[|log| - 1] == Charge then 1 else 0
  }

  lemma {:induction false} CountIdles(n: nat)
    ensures CountCharged(Idles(n)) == 0
  {
    if n > 0 {
      CountIdles(n - 1);
      assert Idles(n)[..n - 1] == Idles(n - 1);
    }
  }

  /** One event, and what it adds to the serial history. */
  lemma EventIsSerial(w: World, t: nat, k: nat, e: Event) returns (added: Option<Serial>)
    requires Consistent(w, t, k)
    ensures var w' := Happen(w, t, k, e);
            && Consistent(w', t, k)
            && (match added
                case None => w'.db == w.db && CountCharged(w'.phases) == CountCharged(w.phases)
                case Some(Other(step)) =>
                  && w'.db == Next(w.db, step) && w'.phases == w.phases && w'.db.tasks[k] == w.db.tasks[k]
                case Some(Charge) =>
                  && Deduct(w.db, t, k) == Some(w'.db) && !w.db.tasks[k].isCharged && w'.db.tasks[k].isCharged
                  && CountCharged(w'.phases) == CountCharged(w.phases) + 1)
  {
    added := None;
    match e
    case Statement(i) =>
      if i < |w.phases| {
        StatementIsAtomic(w, t, k, i);
        var p := Execute(w, t, k, i).phases[i];
        CountChargedUpdate(w.phases, i, p);
        if w.phases[i] != Charged && p == Charged {
          added := Some(Charge);
        }
      }
    case Elsewhere(step) =>
      if MayRun(w, t, k, step) {
        ElsewhereKeeps(w, t, k, step);
        added := Some(Other(step));
      }
  }

  lemma ReplaySnoc(s: Db, t: nat, k: nat, log: seq<Serial>, last: Serial)
    ensures Charges(log + [last]) == Charges(log) + if last == Charge then 1 else 0
    ensures Replay(s, t, k, log + [last])
            == match last
               case Other(step) => Next(Replay(s, t, k, log), step)
               case Charge => (match Deduct(Replay(s, t, k, log), t, k)
                               case None => Replay(s, t, k, log)
                               case Some(d) => d)
  {
    assert (log + [last])[..|log|] == log;
  }

  /** At most one of any number of concurrent deductions commits, in any interleaving with each other and
      with transactions that leave this task and its deduction alone; and the committed tables are those of a
      serial history that contains those transactions and one atomic deduction per committed session. The
      rolled-back sessions leave no trace. */
  lemma {:induction false} AtMostOneCharge(s: Db, sessions: nat, t: nat, k: nat, events: seq<Event>)
    returns (log: seq<Serial>)
    requires ForTask(s, t, k)
    ensures var w := Play(s, sessions, t, k, events);
            && CountCharged(w.phases) == Charges(log) <= 1
            && w.db == Replay(s, t, k, log)
            && (if Charges(log) == 1 then !s.tasks[k].isCharged && w.db.tasks[k].isCharged
                else w.db.tasks[k] == s.tasks[k])
            && Consistent(w, t, k)
  {
    log := [];
    if events == [] {
      CountIdles(sessions);
    } else {
      log := AtMostOneCharge(s, sessions, t, k, events[..|events| - 1]);
      var added := EventIsSerial(Play(s, sessions, t, k, events[..|events| - 1]), t, k, events[|events| - 1]);
      if added.Some? {
        ReplaySnoc(s, t, k, log, added.value);
        log := log + [added.value];
      }
    }
  }

  // ----- with others writing the task too -----

  /** Any other transaction at all, as far as the row locks let it: the tenant row belongs to the session that
      debited it, the task row to the one that marked it. */
  predicate LocksAllow(w: World, t: nat, k: nat, step: Step)
    requires ForTask(w.db, t, k)
  {
    StepKeepsCharge(w.db, t, k, step);
    var s := Next(w.db, step);
    && (w.lock == None || s.tenants[t] == w.db.tenants[t])
    && ((exists i | 0 <= i < |w.phases| :: w.phases[i].HasMarked?) ==> s.tasks[k] == w.db.tasks[k])
  }

  /** No transaction removes a row, gives a task to another tenant or takes a charge back, from any state. */
  lemma StepKeepsCharge(s: Db, t: nat, k: nat, step: Step)
    requires ForTask(s, t, k)
    ensures ForTask(Next(s, step), t, k)
    ensures s.tasks[k].isCharged ==> Next(s, step).tasks[k].isCharged
  {
    hide Next;
    match step
    case Claim(_, _, _, _) => WorkerKeepsCharge(s, t, k, step);
    case ExitInactive(_, _) => WorkerKeepsCharge(s, t, k, step);
    case Succeed(_, _) => WorkerKeepsCharge(s, t, k, step);
    case Fail(_, _) => WorkerKeepsCharge(s, t, k, step);
    case Cancel(_, _) => WorkerKeepsCharge(s, t, k, step);
    case TimeOut(_, _, _) => QueueKeepsCharge(s, t, k, step);
    case TimeOutLocally(_, _) => QueueKeepsCharge(s, t, k, step);
    case Recover(_) => QueueKeepsCharge(s, t, k, step);
    case RecoverLocally => QueueKeepsCharge(s, t, k, step);
    case Retry(_) => QueueKeepsCharge(s, t, k, step);
    case _ => OthersKeepCharge(s, t, k, step);
  }

  lemma WorkerKeepsCharge(s: Db, t: nat, k: nat, step: Step)
    requires ForTask(s, t, k)
    requires step.Claim? || step.ExitInactive? || step.Succeed? || step.Fail? || step.Cancel?
    ensures ForTask(Next(s, step), t, k)
    ensures s.tasks[k].isCharged ==> Next(s, step).tasks[k].isCharged
  {
    hide RowsOf, CanFund, UnitAmount;
  }

  lemma QueueKeepsCharge(s: Db, t: nat, k: nat, step: Step)
    requires ForTask(s, t, k)
    requires step.TimeOut? || step.TimeOutLocally? || step.Recover? || step.RecoverLocally? || step.Retry?
    ensures ForTask(Next(s, step), t, k)
    ensures s.tasks[k].isCharged ==> Next(s, step).tasks[k].isCharged
  {
    hide CanFund, UnitAmount;
  }

  lemma OthersKeepCharge(s: Db, t: nat, k: nat, step: Step)
    requires ForTask(s, t, k)
    requires || step.CreateTenant? || step.SetPrice? || step.SetActive? || step.Deposit? || step.Submit?
             || step.SubmitFeedback? || step.Accept? || step.Reject? || step.Publish?
    ensures ForTask(Next(s, step), t, k)
    ensures s.tasks[k].isCharged ==> Next(s, step).tasks[k].isCharged
  {
    hide RowsOf, CanFund, CountActive, FindKey, UnitAmount, ValidateMoney;
  }

  function Interfere(w: World, t: nat, k: nat, e: Event): (w': World)
    requires ForTask(w.db, t, k)
    ensures ForTask(w'.db, t, k) && (w.db.tasks[k].isCharged ==> w'.db.tasks[k].isCharged)
  {
    match e
    case Statement(i) =>
      if i < |w.phases| then ExecuteKeepsRow(w, t, k, i); Execute(w, t, k, i) else w
    case Elsewhere(step) =>
      StepKeepsCharge(w.db, t, k, step);
      if LocksAllow(w, t, k, step) then w.(db := Next(w.db, step)) else w
  }

  lemma ExecuteKeepsRow(w: World, t: nat, k: nat, i: nat)
    requires ForTask(w.db, t, k) && i < |w.phases|
    ensures ForTask(Execute(w, t, k, i).db, t, k)
    ensures w.db.tasks[k].isCharged ==> Execute(w, t, k, i).db.tasks[k].isCharged
  {
    hide RowsOf, CanFund, Chargeable, Debit;
  }

  function PlayFreely(s: Db, sessions: nat, t: nat, k: nat, events: seq<Event>): (w: World)
    requires ForTask(s, t, k)
    ensures ForTask(w.db, t, k)
  {
    if events == [] then World(s, None, Idles(sessions))
    else Interfere(PlayFreely(s, sessions, t, k, events[..|events| - 1]), t, k, events[|events| - 1])
  }

  /** What survives interference: the lock, and that a marked task is still to be charged. */
  predicate OneCharges(w: World, t: nat, k: nat, charged: bool) {
    && ForTask(w.db, t, k)
    && (forall i | 0 <= i < |w.phases| && w.phases[i].HasMarked? :: Chargeable(w.db.tasks[k]))
    && (forall i | 0 <= i < |w.phases| && (w.phases[i].HasDebited? || w.phases[i].HasMarked?) :: w.lock == Some(i))
    && CountCharged(w.phases) + (if charged then 1 else 0) <= (if w.db.tasks[k].isCharged then 1 else 0)
  }

  lemma FreeStatement(w: World, t: nat, k: nat, i: nat, charged: bool)
    requires OneCharges(w, t, k, charged) && i < |w.phases|
    ensures OneCharges(Execute(w, t, k, i), t, k, charged)
  {
    var w' := Execute(w, t, k, i);
    CountChargedUpdate(w.phases, i, w'.phases[i]);
    forall j | 0 <= j < |w'.phases| && w'.phases[j].HasMarked? ensures Chargeable(w'.db.tasks[k]) {
      if j != i {
        assert w.phases[j].HasMarked?;
      }
    }
  }

  /** Whatever else is written to the task in between, by timeouts, recoveries, retries or other workers: at
      most one of the concurrent deductions commits, and none if the task was charged already. */
  lemma {:induction false} AtMostOneUnderInterference(s: Db, sessions: nat, t: nat, k: nat, events: seq<Event>)
    requires ForTask(s, t, k)
    ensures var w := PlayFreely(s, sessions, t, k, events);
            && OneCharges(w, t, k, s.tasks[k].isCharged)
            && CountCharged(w.phases) <= (if s.tasks[k].isCharged then 0 else 1)
  {
    hide Interfere;
    if events == [] {
      CountIdles(sessions);
    } else {
      var w := PlayFreely(s, sessions, t, k, events[..|events| - 1]);
      AtMostOneUnderInterference(s, sessions, t, k, events[..|events| - 1]);
      FreeEvent(w, t, k, events[|events| - 1], s.tasks[k].isCharged);
    }
  }

  lemma FreeEvent(w: World, t: nat, k: nat, e: Event, charged: bool)
    requires OneCharges(w, t, k, charged)
    ensures OneCharges(Interfere(w, t, k, e), t, k, charged)
  {
    hide Next, Execute, CountCharged;
    if e.Elsewhere? {
      StepKeepsCharge(w.db, t, k, e.step);
    }
    if e.Statement? && e.i < |w.phases| {
      FreeStatement(w, t, k, e.i, charged);
    }
  }

  // ----- what a charge does to the tables then -----

  /** Session i is about to commit its charge. */
  predicate Commits(w: World, k: nat, i: nat)
    requires i < |w.phases|
  {
    w.phases[i].HasMarked? && RowsOf(w.db.ledger, k, Deduction) == []
  }

  /** A statement that does not commit leaves every committed table as it is. */
  lemma OnlyCommitWrites(w: World, t: nat, k: nat, i: nat)
    requires ForTask(w.db, t, k) && i < |w.phases| && !Commits(w, k, i)
    ensures Execute(w, t, k, i).db == w.db
  {
    hide RowsOf, CanFund;
  }

  /** What a session debited is what its debit would still do to the locked tenant row. */
  predicate DebitsStand(w: World, t: nat)
    requires t < |w.db.tenants|
  {
    forall i | 0 <= i < |w.phases| ::
      match w.phases[i]
      case HasDebited(wasReserved, price, tenant) =>
        Debit(w.db.tenants[t], wasReserved, price) == Some((tenant, price))
      case HasMarked(wasReserved, price, tenant) =>
        Debit(w.db.tenants[t], wasReserved, price) == Some((tenant, price))
      case _ => true
  }

  /** The hold that session i read and debited is the hold of the row it marked. */
  predicate ReadStands(w: World, k: nat, i: nat)
    requires i < |w.phases| && w.phases[i].HasMarked? && k < |w.db.tasks|
  {
    var x := w.db.tasks[k];
    w.phases[i].wasReserved == x.isReserved && (x.isReserved ==> w.phases[i].price == x.reservedAmount)
  }

  /** A commit is the atomic deduction of that moment exactly if the read still stands. */
  lemma CommitIsDeductExactly(w: World, t: nat, k: nat, i: nat, charged: bool)
    requires OneCharges(w, t, k, charged) && DebitsStand(w, t) && i < |w.phases| && Commits(w, k, i)
    ensures Deduct(w.db, t, k) == Some(Execute(w, t, k, i).db) <==> ReadStands(w, k, i)
  {
    hide RowsOf, CountCharged;
    var HasMarked(wasReserved, price, tenant) := w.phases[i];
    var x := w.db.tasks[k];
    var d := Execute(w, t, k, i).db;
    assert Chargeable(x) && Debit(w.db.tenants[t], wasReserved, price) == Some((tenant, price));
    assert d.tenants[t] == tenant && d.ledger[|w.db.ledger|].amount == price;
    if Deduct(w.db, t, k).Some? {
      var y := Deduct(w.db, t, k).value;
      assert y.ledger[|w.db.ledger|].amount == (if x.isReserved then x.reservedAmount else w.db.tenants[t].unitPrice);
      assert y.tenants[t].reserved == w.db.tenants[t].reserved - if x.isReserved then x.reservedAmount else 0;
    }
  }

  lemma DebitsStandStatement(w: World, t: nat, k: nat, i: nat, charged: bool)
    requires OneCharges(w, t, k, charged) && DebitsStand(w, t) && i < |w.phases|
    ensures DebitsStand(Execute(w, t, k, i), t)
  {
    hide RowsOf, CountCharged, CanFund, Chargeable;
    var w' := Execute(w, t, k, i);
    if Commits(w, k, i) {
      forall j | 0 <= j < |w.phases| && j != i ensures !w.phases[j].HasDebited? && !w.phases[j].HasMarked? {
      }
    } else {
      OnlyCommitWrites(w, t, k, i);
    }
  }

  lemma DebitsStandElsewhere(w: World, t: nat, k: nat, step: Step, charged: bool)
    requires OneCharges(w, t, k, charged) && DebitsStand(w, t) && LocksAllow(w, t, k, step)
    requires t < |Next(w.db, step).tenants|
    ensures DebitsStand(w.(db := Next(w.db, step)), t)
  {
    hide Next, CountCharged, Chargeable;
  }

  lemma {:induction false} DebitsStandThroughout(s: Db, sessions: nat, t: nat, k: nat, events: seq<Event>)
    requires ForTask(s, t, k)
    ensures DebitsStand(PlayFreely(s, sessions, t, k, events), t)
  {
    hide OneCharges, DebitsStand, Execute, LocksAllow, Next;
    if events == [] {
      NothingDebited(s, sessions, t);
    } else {
      var before := events[..|events| - 1];
      var w := PlayFreely(s, sessions, t, k, before);
      DebitsStandThroughout(s, sessions, t, k, before);
      AtMostOneUnderInterference(s, sessions, t, k, before);
      match events[|events| - 1]
      case Statement(i) =>
        if i < |w.phases| {
          DebitsStandStatement(w, t, k, i, s.tasks[k].isCharged);
        }
      case Elsewhere(step) =>
        if LocksAllow(w, t, k, step) {
          StepKeepsCharge(w.db, t, k, step);
          DebitsStandElsewhere(w, t, k, step, s.tasks[k].isCharged);
        }
    }
  }

  lemma NothingDebited(s: Db, sessions: nat, t: nat)
    requires t < |s.tenants|
    ensures DebitsStand(World(s, None, Idles(sessions)), t)
  {
  }

  /** In any interleaving with any other transactions: a statement leaves the committed tables alone unless it
      commits, and a commit is one atomic deduction exactly if the hold that was read is still the task's. */
  lemma ChargeIsAtomicExactly(s: Db, sessions: nat, t: nat, k: nat, events: seq<Event>, i: nat)
    requires ForTask(s, t, k) && i < |PlayFreely(s, sessions, t, k, events).phases|
    ensures var w := PlayFreely(s, sessions, t, k, events);
            var w' := Execute(w, t, k, i);
            if Commits(w, k, i) then Deduct(w.db, t, k) == Some(w'.db) <==> ReadStands(w, k, i)
            else w'.db == w.db
  {
    hide PlayFreely, Execute, OneCharges, DebitsStand, Commits, ReadStands, Deduct;
    var w := PlayFreely(s, sessions, t, k, events);
    AtMostOneUnderInterference(s, sessions, t, k, events);
    DebitsStandThroughout(s, sessions, t, k, events);
    if Commits(w, k, i) {
      CommitIsDeductExactly(w, t, k, i, s.tasks[k].isCharged);
    } else {
      OnlyCommitWrites(w, t, k, i);
    }
  }

  // ----- a read that does not stand -----

  function Account(reserved: int, balance: int): Tenant {
    Tenant(true, balance, reserved, 6000)
  }

  /** One tenant whose price went up to 6000 while its task holds 5000. */
  function OneTask(x: Task, reserved: int): Db {
    Db([Account(reserved, 20000)], [x], [Row(0, None, Recharge, 20000, 0, 20000)], map[])
  }

  function HeldTask(amount: int, owner: Option<string>, attempts: nat): Task {
    Task(0, None, if owner.None? then Pending else Processing, false, 0, true, amount, owner,
         if owner.None? then None else Some(600), attempts)
  }

  function FreedTask(): Task {
    Task(0, None, Failed, false, 0, false, 0, None, None, 1)
  }

  const STALE := [Statement(0), Elsewhere(TimeOut(0, 0, "a")), Elsewhere(Retry(0)), Elsewhere(Claim(0, "b", 0, 600)),
                  Statement(0), Statement(0), Statement(0)]

  lemma PlayFreelyStep(s: Db, sessions: nat, t: nat, k: nat, events: seq<Event>, n: nat)
    requires ForTask(s, t, k) && n < |events|
    ensures PlayFreely(s, sessions, t, k, events[..n + 1])
            == Interfere(PlayFreely(s, sessions, t, k, events[..n]), t, k, events[n])
  {
    hide Interfere;
    assert events[..n + 1][..n] == events[..n];
  }

  lemma StaleSteps()
    ensures Next(OneTask(HeldTask(5000, Some("a"), 1), 5000), TimeOut(0, 0, "a")) == OneTask(FreedTask(), 0)
    ensures Next(OneTask(FreedTask(), 0), Retry(0)) == OneTask(HeldTask(6000, None, 1), 6000)
    ensures Next(OneTask(HeldTask(6000, None, 1), 6000), Claim(0, "b", 0, 600))
            == OneTask(HeldTask(6000, Some("b"), 2), 6000)
  {
  }

  lemma StaleStep(s: Db, n: nat, before: World, after: World)
    requires ForTask(s, 0, 0) && n < |STALE| && PlayFreely(s, 1, 0, 0, STALE[..n]) == before
    requires ForTask(before.db, 0, 0) && Interfere(before, 0, 0, STALE[n]) == after
    ensures PlayFreely(s, 1, 0, 0, STALE[..n + 1]) == after
  {
    hide PlayFreely, Interfere;
    PlayFreelyStep(s, 1, 0, 0, STALE, n);
  }

  /** The tables after the stale run. */
  function StaleDb(): Db {
    Db([Account(1000, 15000)], [Mark(HeldTask(6000, Some("b"), 2), 5000)],
       [Row(0, None, Recharge, 20000, 0, 20000), Row(0, Some(0), Deduction, 5000, 20000, 15000)], map[])
  }

  lemma StaleRun()
    ensures ForTask(OneTask(HeldTask(5000, Some("a"), 1), 5000), 0, 0)
    ensures PlayFreely(OneTask(HeldTask(5000, Some("a"), 1), 5000), 1, 0, 0, STALE)
            == World(StaleDb(), None, [Charged])
  {
    hide PlayFreely, Next, RowsOf;
    var s := OneTask(HeldTask(5000, Some("a"), 1), 5000);
    var w1 := World(s, None, [HasRead(true, 5000)]);
    var w2 := w1.(db := OneTask(FreedTask(), 0));
    var w3 := w1.(db := OneTask(HeldTask(6000, None, 1), 6000));
    var w4 := w1.(db := OneTask(HeldTask(6000, Some("b"), 2), 6000));
    var w5 := World(w4.db, Some(0), [HasDebited(true, 5000, Account(1000, 15000))]);
    var w6 := World(w4.db, Some(0), [HasMarked(true, 5000, Account(1000, 15000))]);
    StaleSteps();
    StaleStart(s);
    StaleStep(s, 0, World(s, None, [Idle]), w1);
    StaleStep(s, 1, w1, w2);
    StaleStep(s, 2, w2, w3);
    StaleStep(s, 3, w3, w4);
    StaleStep(s, 4, w4, w5);
    StaleStep(s, 5, w5, w6);
    NoDeductionYet();
    StaleStep(s, 6, w6, World(StaleDb(), None, [Charged]));
    assert STALE[..7] == STALE;
  }

  lemma StaleStart(s: Db)
    requires ForTask(s, 0, 0)
    ensures PlayFreely(s, 1, 0, 0, []) == World(s, None, [Idle])
  {
    assert Idles(1) == [Idle];
  }

  lemma NoDeductionYet()
    ensures RowsOf([Row(0, None, Recharge, 20000, 0, 20000)], 0, Deduction) == []
  {
  }

  /** Without the row lock: from a good state, a session that read a hold of 5000, lost its task to a timeout and
      a retry, and goes on, charges 5000 and leaves 1000 reserved that no task holds. */
  lemma StaleReadBreaksAccounting()
    ensures var s := OneTask(HeldTask(5000, Some("a"), 1), 5000);
            && Invariants.Inv(s) && ForTask(s, 0, 0)
            && !Invariants.HoldsOk(PlayFreely(s, 1, 0, 0, STALE).db)
  {
    StaleRun();
    StaleStartIsGood();
    assert SumHolds(StaleDb().tasks, 0) == 0;
  }

  lemma StaleStartIsGood()
    ensures Invariants.Inv(OneTask(HeldTask(5000, Some("a"), 1), 5000))
  {
    var s := OneTask(HeldTask(5000, Some("a"), 1), 5000);
    var row := s.ledger[0];
    assert s.ledger[..0] == [] && LedgerBalance([], 0) == 0;
    assert s.ledger == [] + [row];
    LedgerAppend([], row);
    assert SumHolds(s.tasks[..0], 0) == 0;
    assert SumHolds(s.tasks, 0) == 5000;
  }
}
