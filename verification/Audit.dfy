/** Replaying the ledger of the live service: rebuild_ledgers, fed with the tables of any reachable state,
    rejects nothing and arrives at the stored balances and reserved balances. */
module Audit {
  import opened Wrappers
  import opened Database
  import opened Lifecycle
  import opened Sorting
  import opened Rebuild
  import opened RebuildProofs
  import Invariants
  import Reachable

  function Amount(ticks: int): Dec {
    Finite(ticks as real)
  }

  // ----- live rows as the migration reads them -----

  predicate ShowsTenant(account: Account, s: Db) {
    && account.id < |s.tenants|
    && account.balance == Amount(s.tenants[account.id].balance)
    && account.reserved == Amount(s.tenants[account.id].reserved)
  }

  predicate ShowsTask(job: Job, k: nat, x: Task) {
    && job.id == k && job.tenant == x.tenant && job.status == Some(x.status)
    && job.isCharged == x.isCharged && job.charged == Amount(x.charged)
    && job.isReserved == x.isReserved && job.reservedAmount == Amount(x.reservedAmount)
    && job.leaseOwner == x.leaseOwner && job.leaseExpires == x.leaseExpires
  }

  predicate ShowsRow(row: TxRow, live: Row) {
    var kind := match live.kind case Recharge => RechargeTx case Deduction => DeductionTx case Refund => RefundTx;
    row.item == Tx(live.tenant, live.task, kind, Amount(live.amount), Amount(live.before), Amount(live.after))
  }

  predicate ShowsRows(rows: seq<TxRow>, live: seq<Row>) {
    |rows| == |live| && forall i | 0 <= i < |rows| :: ShowsRow(rows[i], live[i])
  }

  /** One tenant's ledger, in commit order. */
  function LedgerOf(ledger: seq<Row>, t: nat): seq<Row> {
    if ledger == [] then []
    else if ledger[|ledger| - 1].tenant == t then LedgerOf(ledger[..|ledger| - 1], t) + [ledger[|ledger| - 1]]
    else LedgerOf(ledger[..|ledger| - 1], t)
  }

  /** Every task is there once, in any order. */
  ghost predicate ShowsTasks(jobs: seq<Job>, tasks: seq<Task>) {
    && |jobs| == |tasks|
    && (forall j | 0 <= j < |jobs| :: jobs[j].id < |tasks| && ShowsTask(jobs[j], jobs[j].id, tasks[jobs[j].id]))
    && (forall i, j | 0 <= i < j < |jobs| :: jobs[i].id != jobs[j].id)
    && (forall k: nat | k < |tasks| :: HasJob(jobs, k))
  }

  predicate HasJob(jobs: seq<Job>, k: nat) {
    exists j | 0 <= j < |jobs| :: jobs[j].id == k
  }

  /** The tables hold state s, in any order, and every tenant's ledger is dated in commit order. */
  ghost predicate Shows(tables: Tables, s: Db) {
    && (forall i | 0 <= i < |tables.accounts| :: ShowsTenant(tables.accounts[i], s))
    && ShowsTasks(tables.jobs, s.tasks)
    && (forall t: nat :: ShowsRows(Sort(RowsOfTenant(tables.rows, t)), LedgerOf(s.ledger, t)))
  }

  /** A sufficient condition for the last clause: rows in commit order whose keys do not go back. */
  lemma CommitOrderShows(rows: seq<TxRow>, ledger: seq<Row>, t: nat)
    requires ShowsRows(rows, ledger)
    requires forall i, j | 0 <= i < j < |rows| && ledger[i].tenant == ledger[j].tenant ::
               KeyLe(rows[i].key, rows[j].key)
    ensures ShowsRows(Sort(RowsOfTenant(rows, t)), LedgerOf(ledger, t))
  {
    SelectionShows(rows, ledger, t);
    SelectionSorted(rows, ledger, t);
    SortOfSorted(RowsOfTenant(rows, t));
  }

  lemma {:induction false} SelectionShows(rows: seq<TxRow>, ledger: seq<Row>, t: nat)
    requires ShowsRows(rows, ledger)
    ensures ShowsRows(RowsOfTenant(rows, t), LedgerOf(ledger, t))
  {
    if rows != [] {
      var n := |rows| - 1;
      SelectionShows(rows[..n], ledger[..n], t);
      assert ShowsRow(rows[n], ledger[n]);
      assert rows[n].item.tenant == ledger[n].tenant;
    }
  }

  /** Where a selected row comes from. */
  lemma {:induction false} SelectedFrom(rows: seq<TxRow>, t: nat, x: TxRow) returns (i: nat)
    requires x in RowsOfTenant(rows, t)
    ensures i < |rows| && rows[i] == x && x.item.tenant == t
  {
    i := |rows| - 1;
    if !(rows[i] == x && x.item.tenant == t) {
      i := SelectedFrom(rows[..i], t, x);
    }
  }

  lemma {:induction false} SelectionSorted(rows: seq<TxRow>, ledger: seq<Row>, t: nat)
    requires ShowsRows(rows, ledger)
    requires forall i, j | 0 <= i < j < |rows| && ledger[i].tenant == ledger[j].tenant ::
               KeyLe(rows[i].key, rows[j].key)
    ensures Sorted(RowsOfTenant(rows, t))
  {
    if rows != [] {
      var n := |rows| - 1;
      var mine := RowsOfTenant(rows[..n], t);
      SelectionSorted(rows[..n], ledger[..n], t);
      forall j | 0 <= j < |mine| && rows[n].item.tenant == t ensures KeyLe(mine[j].key, rows[n].key) {
        var i := SelectedFrom(rows[..n], t, mine[j]);
        assert ShowsRow(rows[i], ledger[i]) && ShowsRow(rows[n], ledger[n]);
      }
    }
  }

  // ----- the ledgers -----

  lemma LiveRowIsValid(s: Db, i: nat, row: TxRow, running: real)
    requires i < |s.ledger| && Invariants.RowOk(s, s.ledger[i], s.ledger[..i])
    requires ShowsRow(row, s.ledger[i])
    requires running == LedgerBalance(s.ledger[..i], s.ledger[i].tenant) as real
    ensures Try(running, row.item) == Some(s.ledger[i].after as real)
  {
    hide LedgerBalance;
  }

  /** A row that already carries the snapshots it is given comes out as it went in. */
  lemma AcceptedAsItIs(rows: seq<TxRow>, row: TxRow, running: real, next: real)
    requires Try(running, row.item) == Some(next)
    requires row.item.before == Finite(running) && row.item.after == Finite(next)
    ensures ReplayRow(Replayed(rows, [], running), row) == Replayed(rows + [row], [], next)
  {
    hide Try;
    assert row.(item := row.item.(before := row.item.before, after := row.item.after)) == row;
  }

  lemma LiveRowReplays(s: Db, i: nat, rows: seq<TxRow>)
    requires i < |s.ledger| && Invariants.RowOk(s, s.ledger[i], s.ledger[..i])
    requires rows != [] && ShowsRow(rows[|rows| - 1], s.ledger[i])
    requires Replay(rows[..|rows| - 1])
             == Replayed(rows[..|rows| - 1], [], LedgerBalance(s.ledger[..i], s.ledger[i].tenant) as real)
    ensures Replay(rows) == Replayed(rows, [], s.ledger[i].after as real)
  {
    hide LedgerBalance, Try, ReplayRow;
    var row := rows[|rows| - 1];
    LiveRowIsValid(s, i, row, LedgerBalance(s.ledger[..i], s.ledger[i].tenant) as real);
    AcceptedAsItIs(rows[..|rows| - 1], row, s.ledger[i].before as real, s.ledger[i].after as real);
    assert rows[..|rows| - 1] + [row] == rows;
  }

  /** What row i adds to the ledger of tenant t, and to its balance. */
  lemma LedgerStep(s: Db, i: nat, t: nat)
    requires i < |s.ledger| && Invariants.RowOk(s, s.ledger[i], s.ledger[..i])
    ensures if s.ledger[i].tenant == t
            then LedgerOf(s.ledger[..i + 1], t) == LedgerOf(s.ledger[..i], t) + [s.ledger[i]]
                 && LedgerBalance(s.ledger[..i + 1], t) == s.ledger[i].after
            else LedgerOf(s.ledger[..i + 1], t) == LedgerOf(s.ledger[..i], t)
                 && LedgerBalance(s.ledger[..i + 1], t) == LedgerBalance(s.ledger[..i], t)
  {
    assert s.ledger[..i + 1][..i] == s.ledger[..i];
  }

  lemma NothingReplays(t: nat)
    ensures LedgerOf([], t) == [] && LedgerBalance([], t) == 0 && Replay([]) == Replayed([], [], 0.0)
  {
  }

  lemma {:induction false} LiveLedgerReplays(s: Db, n: nat, t: nat, rows: seq<TxRow>)
    requires n <= |s.ledger| && forall i | 0 <= i < n :: Invariants.RowOk(s, s.ledger[i], s.ledger[..i])
    requires ShowsRows(rows, LedgerOf(s.ledger[..n], t))
    ensures Replay(rows) == Replayed(rows, [], LedgerBalance(s.ledger[..n], t) as real)
  {
    hide LedgerBalance, LedgerOf, Replay, ShowsRow, Invariants.RowOk;
    if n == 0 {
      NothingReplays(t);
    } else {
      LedgerStep(s, n - 1, t);
      if s.ledger[n - 1].tenant == t {
        assert ShowsRow(rows[|rows| - 1], s.ledger[n - 1]);
        LiveLedgerReplays(s, n - 1, t, rows[..|rows| - 1]);
        LiveRowReplays(s, n - 1, rows);
      } else {
        LiveLedgerReplays(s, n - 1, t, rows);
      }
    }
  }

  function Grouped(accounts: seq<Account>, rows: seq<TxRow>): seq<TxRow> {
    if accounts == [] then []
    else Grouped(accounts[..|accounts| - 1], rows) + Sort(RowsOfTenant(rows, accounts[|accounts| - 1].id))
  }

  lemma TenantReplays(s: Db, tables: Tables, account: Account)
    requires Invariants.LedgerOk(s) && Shows(tables, s) && ShowsTenant(account, s)
    ensures var r := ReplayTenant(tables.rows, account.id);
            && r.accepted == Sort(RowsOfTenant(tables.rows, account.id)) && r.rejected == []
            && Settle(account, r) == account
  {
    hide LedgerOf, LedgerBalance, Replay, Sort, RowsOfTenant, Invariants.RowOk;
    assert s.ledger[..|s.ledger|] == s.ledger;
    LiveLedgerReplays(s, |s.ledger|, account.id, Sort(RowsOfTenant(tables.rows, account.id)));
  }

  lemma {:induction false} LedgersReplay(s: Db, tables: Tables, accounts: seq<Account>)
    requires Invariants.LedgerOk(s) && Shows(tables, s)
    requires forall i | 0 <= i < |accounts| :: ShowsTenant(accounts[i], s)
    ensures ReplayAll(accounts, tables.rows) == Ledgers(accounts, Grouped(accounts, tables.rows), [])
  {
    hide Invariants.LedgerOk, Shows, ShowsTenant, ReplayTenant, Settle, Sort, RowsOfTenant;
    if accounts != [] {
      var last := |accounts| - 1;
      LedgersReplay(s, tables, accounts[..last]);
      TenantReplays(s, tables, accounts[last]);
      assert accounts[..last] + [accounts[last]] == accounts;
    }
  }

  // ----- the tasks -----

  lemma LiveTaskPasses(x: Task, k: nat, job: Job, tenants: nat)
    requires ShowsTask(job, k, x) && Invariants.TaskOk(x, tenants)
    ensures Screen(job, []) == job
  {
    hide Invalidate;
    assert !Named([], job.id);
  }

  lemma LiveTasksPass(s: Db, jobs: seq<Job>)
    requires Invariants.TasksOk(s) && ShowsTasks(jobs, s.tasks)
    ensures ScreenAll(jobs, []) == jobs
  {
    hide Screen, Invariants.TaskOk, ShowsTask, HasJob;
    forall k | 0 <= k < |jobs| ensures Screen(jobs[k], []) == jobs[k] {
      LiveTaskPasses(s.tasks[jobs[k].id], jobs[k].id, jobs[k], |s.tenants|);
    }
  }

  lemma {:induction false} SumKeptConcat(a: seq<Job>, b: seq<Job>, t: nat)
    ensures SumKept(a + b, t) == SumKept(a, t) + SumKept(b, t)
  {
    if b == [] {
      assert a + b == a;
    } else {
      SumKeptConcat(a, b[..|b| - 1], t);
      assert (a + b)[..|a + b| - 1] == a + b[..|b| - 1];
    }
  }

  lemma SumKeptWithout(jobs: seq<Job>, j: nat, t: nat)
    requires j < |jobs|
    ensures SumKept(jobs, t) == SumKept(jobs[..j] + jobs[j + 1..], t) + Kept(jobs[j], t)
  {
    hide Kept;
    assert jobs == jobs[..j + 1] + jobs[j + 1..];
    SumKeptConcat(jobs[..j + 1], jobs[j + 1..], t);
    SumKeptConcat(jobs[..j], jobs[j + 1..], t);
    assert jobs[..j + 1][..j] == jobs[..j];
  }

  /** Without the job of the last task, the jobs show the tasks before it. */
  lemma ShowsWithoutLast(jobs: seq<Job>, tasks: seq<Task>, j: nat)
    requires ShowsTasks(jobs, tasks) && j < |jobs| && jobs[j].id == |tasks| - 1
    ensures ShowsTasks(jobs[..j] + jobs[j + 1..], tasks[..|tasks| - 1])
  {
    hide ShowsTask;
    var rest := jobs[..j] + jobs[j + 1..];
    forall i | 0 <= i < |rest| ensures rest[i] == jobs[if i < j then i else i + 1] {
    }
    forall k: nat | k < |tasks| - 1 ensures HasJob(rest, k) {
      assert HasJob(jobs, k);
      var i :| 0 <= i < |jobs| && jobs[i].id == k;
      assert rest[if i < j then i else i - 1].id == k;
    }
  }

  lemma KeptIsHold(x: Task, job: Job, k: nat, t: nat, tenants: nat)
    requires ShowsTask(job, k, x) && Invariants.TaskOk(x, tenants)
    ensures Kept(job, t) == Hold(x, t) as real
  {
  }

  lemma {:induction false} SumKeptIsSumHolds(tasks: seq<Task>, jobs: seq<Job>, t: nat, tenants: nat)
    requires ShowsTasks(jobs, tasks)
    requires forall k | 0 <= k < |tasks| :: Invariants.TaskOk(tasks[k], tenants)
    ensures SumKept(jobs, t) == SumHolds(tasks, t) as real
    decreases |tasks|
  {
    hide ShowsTask, Invariants.TaskOk, Kept, Hold;
    if tasks != [] {
      var last := |tasks| - 1;
      assert HasJob(jobs, last);
      var j :| 0 <= j < |jobs| && jobs[j].id == last;
      ShowsWithoutLast(jobs, tasks, j);
      SumKeptIsSumHolds(tasks[..last], jobs[..j] + jobs[j + 1..], t, tenants);
      SumKeptWithout(jobs, j, t);
      KeptIsHold(tasks[last], jobs[j], last, t, tenants);
    }
  }

  predicate AllValid(jobs: seq<Job>, order: seq<Keyed<nat>>, t: nat)
    requires forall i | 0 <= i < |order| :: order[i].item < |jobs|
  {
    forall i | 0 <= i < |order| ::
      Holding(jobs[order[i].item], t) && ValidUnit(jobs[order[i].item].reservedAmount)
  }

  lemma {:induction false} EverythingFits(jobs: seq<Job>, order: seq<Keyed<nat>>, t: nat, available: real)
    requires forall i | 0 <= i < |order| :: order[i].item < |jobs|
    requires AllValid(jobs, order, t) && SumOver(jobs, order, t) <= available
    ensures AdmitInOrder(jobs, order, t, Finite(available)) == Some(Admitted(jobs, SumOver(jobs, order, t), []))
  {
    if order != [] {
      var last := order[|order| - 1];
      assert Holding(jobs[last.item], t) && ValidUnit(jobs[last.item].reservedAmount);
      forall i | 0 <= i < |order| - 1
        ensures Holding(jobs[order[i].item], t) && ValidUnit(jobs[order[i].item].reservedAmount)
      {
      }
      EverythingFits(jobs, order[..|order| - 1], t, available);
    }
  }

  lemma TenantFits(s: Db, jobs: seq<Job>, account: Account)
    requires Invariants.TenantsOk(s) && Invariants.TasksOk(s) && Invariants.HoldsOk(s)
    requires ShowsTasks(jobs, s.tasks)
    requires ShowsTenant(account, s)
    ensures account.reserved.Finite?
    ensures AdmitTenant(jobs, account.id, account.balance) == Some(Admitted(jobs, account.reserved.ticks, []))
  {
    hide ActiveHolds, SumKept, SumOver, SumHolds, Sort, AdmitInOrder;
    var t := account.id;
    var order: seq<Keyed<nat>> := Sort<nat>(ActiveHolds(jobs, t));
    SortedHolds(jobs, t);
    SumKeptIsSumOver(jobs, jobs, t);
    SumOverSort(jobs, ActiveHolds(jobs, t), t);
    SumKeptIsSumHolds(s.tasks, jobs, t, |s.tenants|);
    forall i | 0 <= i < |order| ensures ValidUnit(jobs[order[i].item].reservedAmount) {
      var k := order[i].item;
      var x := s.tasks[jobs[k].id];
      assert ShowsTask(jobs[k], jobs[k].id, x) && Invariants.TaskOk(x, |s.tenants|);
    }
    EverythingFits(jobs, order, t, s.tenants[t].balance as real);
  }

  lemma {:induction false} ReservationsFit(s: Db, jobs: seq<Job>, accounts: seq<Account>)
    requires Invariants.TenantsOk(s) && Invariants.TasksOk(s) && Invariants.HoldsOk(s)
    requires ShowsTasks(jobs, s.tasks)
    requires forall i | 0 <= i < |accounts| :: ShowsTenant(accounts[i], s)
    ensures AdmitAll(accounts, jobs) == Some(Funded(accounts, jobs, []))
  {
    hide Invariants.TenantsOk, Invariants.TasksOk, Invariants.HoldsOk, ShowsTasks, ShowsTenant, AdmitTenant;
    if accounts != [] {
      var last := |accounts| - 1;
      ReservationsFit(s, jobs, accounts[..last]);
      TenantFits(s, jobs, accounts[last]);
      var quiet: seq<Rejection> := [];
      assert quiet + quiet == quiet;
      assert accounts[last].(reserved := Finite(accounts[last].reserved.ticks)) == accounts[last];
      assert accounts[..last] + [accounts[last]] == accounts;
    }
  }

  lemma ReplayOfSound(s: Db, tables: Tables)
    requires Invariants.Inv(s) && Shows(tables, s)
    ensures RebuildLedgers(tables)
            == Some((Tables(tables.accounts, tables.jobs, Grouped(tables.accounts, tables.rows)), []))
  {
    hide Invariants.TenantsOk, Invariants.TasksOk, Invariants.HoldsOk, Invariants.LedgerOk;
    hide ReplayAll, AdmitAll, ScreenAll, Grouped, ShowsTasks, ShowsTenant;
    LedgersReplay(s, tables, tables.accounts);
    LiveTasksPass(s, tables.jobs);
    ReservationsFit(s, tables.jobs, tables.accounts);
    var quiet: seq<Rejection> := [];
    assert BadRows([]) + quiet == quiet;
  }

  /** For every run of the service: its own audit trail reproduces it. Every ledger row is accepted with the
      snapshots it was written with, no task is invalidated, and each balance and reserved balance is recomputed
      to what is stored. */
  lemma AuditReplay(steps: seq<Step>, tables: Tables)
    requires Shows(tables, Run(steps))
    ensures RebuildLedgers(tables)
            == Some((Tables(tables.accounts, tables.jobs, Grouped(tables.accounts, tables.rows)), []))
  {
    hide Run, Shows, RebuildLedgers, Invariants.Inv;
    Reachable.RunKeeps(steps);
    ReplayOfSound(Run(steps), tables);
  }
}
