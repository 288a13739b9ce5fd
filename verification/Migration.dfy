/** rebuild_ledgers as it runs: three loops that overwrite the rows read from the legacy database.
    Each loop is proved to compute its part of the specification in module Rebuild. */
module Migration {
  import opened Wrappers
  import opened Money
  import opened Sorting
  import opened Rebuild
  import opened RebuildAgain

  class LegacyTables {
    var accounts: seq<Account>
    var jobs: seq<Job>
    var rows: seq<TxRow>
    var rejected: seq<Rejection>
    var invalidTasks: set<nat>

    constructor (s: Tables)
      ensures Contents() == s && rejected == [] && invalidTasks == {}
    {
      accounts, jobs, rows, rejected, invalidTasks := s.accounts, s.jobs, s.rows, [], {};
    }

    function Contents(): Tables
      reads this
    {
      Tables(accounts, jobs, rows)
    }

    // ----- first loop -----

    method Reject(row: TxRow)
      modifies this`rejected, this`invalidTasks
      ensures rejected == old(rejected) + [BadRow(row)]
      ensures invalidTasks == old(invalidTasks) + if row.item.task.Some? then {row.item.task.value} else {}
    {
      rejected := rejected + [BadRow(row)];
      if row.item.task.Some? {
        invalidTasks := invalidTasks + {row.item.task.value};
      }
    }

    /** Whether the row is valid at this balance, and the balance after it. */
    method Transition(running: real, tx: Tx) returns (valid: bool, next: real)
      ensures (if valid then Some(next) else None) == Try(running, tx)
    {
      valid, next := false, running;
      if tx.kind in {RechargeTx, RefundTx} && ValidRecharge(tx.amount) {
        next := running + tx.amount.ticks;
        valid := next <= MAX_ACCOUNT_BALANCE as real;
      } else if tx.kind == DeductionTx && ValidUnit(tx.amount) {
        next := running - tx.amount.ticks;
        valid := next >= 0.0;
      } else if tx.kind == AdjustmentTx && tx.amount.Finite? {
        next := running + tx.amount.ticks;
        valid := 0.0 <= next <= MAX_ACCOUNT_BALANCE as real;
      }
    }

    method ReplayLedger(ledger: seq<TxRow>) returns (accepted: seq<TxRow>, running: real)
      modifies this`rejected, this`invalidTasks
      ensures accepted == Replay(ledger).accepted && running == Replay(ledger).running
      ensures rejected == old(rejected) + BadRows(Replay(ledger).rejected)
      ensures invalidTasks == old(invalidTasks) + TasksNamed(Replay(ledger).rejected)
    {
      hide Replay, Try, BadRows, TasksNamed;
      accepted, running := [], 0.0;
      ReplayNothing();
      ghost var r := Replayed([], [], 0.0);
      assert ledger[..0] == [];
      for j := 0 to |ledger|
        invariant r == Replay(ledger[..j]) && accepted == r.accepted && running == r.running
        invariant rejected == old(rejected) + BadRows(r.rejected)
        invariant invalidTasks == old(invalidTasks) + TasksNamed(r.rejected)
      {
        var row := ledger[j];
        assert ledger[..j + 1] == ledger[..j] + [row];
        ReplaySnoc(ledger[..j], row);
        RejectedSnoc(r.rejected, row);
        r := ReplayRow(r, row);
        var valid, next := Transition(running, row.item);
        if !valid {
          Reject(row);
        } else {
          accepted := accepted + [row.(item := row.item.(before := Finite(running), after := Finite(next)))];
          running := next;
        }
      }
      assert ledger[..|ledger|] == ledger;
    }

    method ReplayLedgers() returns (valid: seq<TxRow>)
      requires rejected == [] && invalidTasks == {}
      modifies this
      ensures jobs == old(jobs) && rows == old(rows)
      ensures Ledgers(accounts, valid, ReplayAll(old(accounts), rows).rejected) == ReplayAll(old(accounts), rows)
      ensures rejected == BadRows(ReplayAll(old(accounts), rows).rejected)
      ensures invalidTasks == TasksNamed(ReplayAll(old(accounts), rows).rejected)
    {
      hide ReplayTenant, BadRows, TasksNamed, RowsOfTenant;
      valid := [];
      ghost var bad: seq<TxRow> := [];
      ReplayNothing();
      assert accounts[..0] == [];
      for i := 0 to |accounts|
        invariant jobs == old(jobs) && rows == old(rows) && |accounts| == |old(accounts)|
        invariant ReplayAll(old(accounts)[..i], rows) == Ledgers(accounts[..i], valid, bad)
        invariant forall j | i <= j < |accounts| :: accounts[j] == old(accounts)[j]
        invariant rejected == BadRows(bad) && invalidTasks == TasksNamed(bad)
      {
        ghost var before := accounts[..i];
        ghost var r := ReplayTenant(rows, accounts[i].id);
        ReplayAllSnoc(old(accounts), i + 1, rows);
        var accepted, running := ReplayLedger(TenantLedger(rows, accounts[i].id));
        RejectedConcat(bad, r.rejected);
        bad := bad + r.rejected;
        if accepted != [] {
          accounts := accounts[i := accounts[i].(balance := Finite(running))];
        }
        valid := valid + accepted;
        assert accounts[..i + 1] == before + [Settle(old(accounts)[i], r)];
      }
      assert old(accounts)[..|accounts|] == old(accounts) && accounts[..|accounts|] == accounts;
    }

    // ----- second loop -----

    method ScreenTasks(ghost bad: seq<TxRow>)
      requires invalidTasks == TasksNamed(bad)
      modifies this`jobs
      ensures jobs == ScreenAll(old(jobs), bad)
    {
      for k := 0 to |jobs|
        invariant |jobs| == |old(jobs)|
        invariant forall m | 0 <= m < |jobs| ::
                    jobs[m] == if m < k then Screen(old(jobs)[m], bad) else old(jobs)[m]
      {
        var task := jobs[k];
        if task.id in invalidTasks || (task.isCharged && !ValidUnit(task.charged)) {
          jobs := jobs[k := Invalidate(task, EXCLUDED)];
        }
      }
    }

    // ----- third loop -----

    /** One reservation against what is available; false is the exception. */
    method AdmitReservation(k: nat, t: nat, available: Dec, sofar: real,
                            ghost a: Admitted, ghost base: seq<Rejection>)
      returns (ok: bool, reserved: real)
      requires k < |jobs| && jobs == a.jobs && sofar == a.reserved && rejected == base + a.rejected
      modifies this`jobs, this`rejected
      ensures ok == AdmitJob(a, k, t, available).Some?
      ensures ok ==> var b := AdmitJob(a, k, t, available).value;
                     && b == Admitted(jobs, reserved, b.rejected)
                     && |jobs| == |old(jobs)|
                     && rejected == base + b.rejected
    {
      ok, reserved := true, sofar;
      var amount := jobs[k].reservedAmount;
      var refuse := !ValidUnit(amount);
      if !refuse {
        if available == NaN {
          return false, reserved;
        }
        refuse := Exceeds(reserved + amount.ticks, available).value;
      }
      if refuse {
        rejected := rejected + [BadHold(jobs[k].id, t, amount)];
        jobs := jobs[k := Invalidate(jobs[k], UNFUNDED)];
      } else {
        reserved := reserved + amount.ticks;
      }
    }

    /** One tenant's reservations. */
    method AdmitReservations(t: nat, available: Dec) returns (ok: bool, reserved: real)
      modifies this`jobs, this`rejected
      ensures var a := AdmitTenant(old(jobs), t, available);
              && ok == a.Some?
              && (ok ==> a.value == Admitted(jobs, reserved, a.value.rejected)
                         && rejected == old(rejected) + a.value.rejected)
    {
      hide AdmitJob, ActiveHolds;
      ok, reserved := true, 0.0;
      SortedPositions(ActiveHolds(jobs, t), |jobs|);
      var order: seq<Keyed<nat>> := Sort<nat>(ActiveHolds(jobs, t));
      ghost var a := Admitted(jobs, 0.0, []);
      assert order[..0] == [];
      for j := 0 to |order|
        invariant ok && |jobs| == |old(jobs)| && a == Admitted(jobs, reserved, a.rejected)
        invariant AdmitInOrder(old(jobs), order[..j], t, available) == Some(a)
        invariant rejected == old(rejected) + a.rejected
      {
        assert order[..j + 1][..j] == order[..j];
        ghost var next := AdmitJob(a, order[j].item, t, available);
        assert AdmitInOrder(old(jobs), order[..j + 1], t, available) == next;
        ok, reserved := AdmitReservation(order[j].item, t, available, reserved, a, old(rejected));
        if !ok {
          AdmitInOrderStops(old(jobs), order, j + 1, t, available);
          return;
        }
        a := next.value;
      }
      assert order[..|order|] == order;
    }

    method RebuildReserved() returns (ok: bool)
      modifies this`accounts, this`jobs, this`rejected
      ensures var f := AdmitAll(old(accounts), old(jobs));
              && ok == f.Some?
              && (ok ==> Funded(accounts, jobs, f.value.rejected) == f.value
                         && rejected == old(rejected) + f.value.rejected)
    {
      hide AdmitTenant;
      ghost var f := Funded([], jobs, []);
      assert accounts[..0] == [];
      ok := true;
      for i := 0 to |accounts|
        invariant ok && |accounts| == |old(accounts)|
        invariant forall j | i <= j < |accounts| :: accounts[j] == old(accounts)[j]
        invariant f == Funded(accounts[..i], jobs, f.rejected)
        invariant AdmitAll(old(accounts)[..i], old(jobs)) == Some(f)
        invariant rejected == old(rejected) + f.rejected
      {
        var account := accounts[i];
        ghost var a := AdmitTenant(jobs, account.id, account.balance);
        assert old(accounts)[..i + 1] == old(accounts)[..i] + [account];
        var reserved;
        ok, reserved := AdmitReservations(account.id, account.balance);
        if !ok {
          assert old(accounts)[..i + 1][..i] == old(accounts)[..i];
          AdmitAllStops(old(accounts), i + 1, old(jobs));
          return;
        }
        AdmitAllStep(old(accounts)[..i], account, old(jobs), f, a.value);
        accounts := accounts[i := account.(reserved := Finite(reserved))];
        f := Funded(f.accounts + [accounts[i]], jobs, f.rejected + a.value.rejected);
      }
      assert old(accounts)[..|accounts|] == old(accounts) && accounts[..|accounts|] == accounts;
    }

    /** The whole migration step. False is the exception, after which nothing is written anywhere. */
    method RebuildInPlace() returns (ok: bool, valid: seq<TxRow>)
      requires rejected == [] && invalidTasks == {}
      modifies this
      ensures ok == RebuildLedgers(old(Contents())).Some?
      ensures ok ==> (Tables(accounts, jobs, valid), rejected) == RebuildLedgers(old(Contents())).value
    {
      ghost var start := Contents();
      valid := ReplayLedgers();
      ScreenTasks(ReplayAll(start.accounts, start.rows).rejected);
      ok := RebuildReserved();
    }
  }

  function TenantLedger(rows: seq<TxRow>, t: nat): (r: seq<TxRow>)
    ensures Replay(r) == ReplayTenant(rows, t)
  {
    Sort(RowsOfTenant(rows, t))
  }

  lemma ReplayNothing()
    ensures Replay([]) == Replayed([], [], 0.0)
    ensures BadRows([]) == [] && TasksNamed([]) == {}
  {
  }

  function TasksNamed(rejected: seq<TxRow>): (r: set<nat>)
    ensures forall id: nat :: id in r <==> Named(rejected, id)
  {
    if rejected == [] then {}
    else
      var last := |rejected| - 1;
      var before := TasksNamed(rejected[..last]);
      assert forall i | 0 <= i < last :: rejected[..last][i] == rejected[i];
      if rejected[last].item.task.Some? then before + {rejected[last].item.task.value} else before
  }

  lemma RejectedSnoc(rejected: seq<TxRow>, row: TxRow)
    ensures BadRows(rejected + [row]) == BadRows(rejected) + [BadRow(row)]
    ensures TasksNamed(rejected + [row])
            == TasksNamed(rejected) + if row.item.task.Some? then {row.item.task.value} else {}
  {
    assert (rejected + [row])[..|rejected|] == rejected;
  }

  lemma RejectedConcat(a: seq<TxRow>, b: seq<TxRow>)
    ensures BadRows(a + b) == BadRows(a) + BadRows(b)
    ensures TasksNamed(a + b) == TasksNamed(a) + TasksNamed(b)
  {
    assert BadRows(a + b) == BadRows(a) + BadRows(b);
    forall id: nat ensures Named(a + b, id) <==> Named(a, id) || Named(b, id) {
      NamedConcat(a, b, id);
    }
  }

  lemma NamedConcat(a: seq<TxRow>, b: seq<TxRow>, id: nat)
    ensures Named(a + b, id) <==> Named(a, id) || Named(b, id)
  {
    if Named(a, id) {
      var i :| 0 <= i < |a| && a[i].item.task == Some(id);
      assert (a + b)[i].item.task == Some(id);
    }
    if Named(b, id) {
      var i :| 0 <= i < |b| && b[i].item.task == Some(id);
      assert (a + b)[|a| + i].item.task == Some(id);
    }
  }

  lemma {:induction false} AdmitInOrderStops(jobs: seq<Job>, order: seq<Keyed<nat>>, n: nat, t: nat, available: Dec)
    requires n <= |order| && forall i | 0 <= i < |order| :: order[i].item < |jobs|
    requires AdmitInOrder(jobs, order[..n], t, available).None?
    ensures AdmitInOrder(jobs, order, t, available).None?
    decreases |order|
  {
    if n == |order| {
      assert order[..n] == order;
    } else {
      var rest := order[..|order| - 1];
      assert rest[..n] == order[..n];
      AdmitInOrderStops(jobs, rest, n, t, available);
    }
  }

  lemma {:induction false} AdmitAllStops(accounts: seq<Account>, n: nat, jobs: seq<Job>)
    requires n <= |accounts| && AdmitAll(accounts[..n], jobs).None?
    ensures AdmitAll(accounts, jobs).None?
    decreases |accounts|
  {
    if n == |accounts| {
      assert accounts[..n] == accounts;
    } else {
      var rest := accounts[..|accounts| - 1];
      assert rest[..n] == accounts[..n];
      AdmitAllStops(rest, n, jobs);
    }
  }
}
