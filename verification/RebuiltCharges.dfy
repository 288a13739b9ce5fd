/** scripts/migrate_sqlite_to_postgres.py: which tasks come out of rebuild_ledgers charged, and when that is what
    the rebuilt ledger says. */
module RebuiltCharges {
  import opened Wrappers
  import opened Money
  import Database
  import opened Sorting
  import opened Rebuild
  import opened RebuildProofs
  import opened RebuildAgain

  predicate DistinctJobs(jobs: seq<Job>) {
    forall i, j | 0 <= i < j < |jobs| :: jobs[i].id != jobs[j].id
  }

  predicate BadHoldOf(rejected: seq<Rejection>, id: nat) {
    exists i | 0 <= i < |rejected| :: rejected[i].BadHold? && rejected[i].job == id
  }

  /** The report of the migration names the task, by a rejected row or a rejected reservation. */
  predicate Mentions(rejected: seq<Rejection>, id: nat) {
    exists i | 0 <= i < |rejected| ::
      match rejected[i]
      case BadRow(row) => row.item.task == Some(id)
      case BadHold(job, _, _) => job == id
  }

  // ----- the report names exactly the tasks that lost their reservation -----

  lemma BadHoldConcat(a: seq<Rejection>, b: seq<Rejection>, id: nat)
    ensures BadHoldOf(a + b, id) <==> BadHoldOf(a, id) || BadHoldOf(b, id)
  {
    if BadHoldOf(a, id) {
      var i :| 0 <= i < |a| && a[i].BadHold? && a[i].job == id;
      assert (a + b)[i] == a[i];
    }
    if BadHoldOf(b, id) {
      var i :| 0 <= i < |b| && b[i].BadHold? && b[i].job == id;
      assert (a + b)[|a| + i] == b[i];
    }
  }

  lemma OneBadHold(r: Rejection, id: nat)
    ensures BadHoldOf([r], id) <==> r.BadHold? && r.job == id
  {
    if r.BadHold? && r.job == id {
      assert [r][0].BadHold?;
    }
  }

  lemma {:induction false} AdmitInOrderReports(jobs: seq<Job>, order: seq<Keyed<nat>>, t: nat, available: Dec, k: nat)
    requires Positions(order, jobs) && DistinctJobs(jobs) && AdmitInOrder(jobs, order, t, available).Some?
    requires k < |jobs| && forall i | 0 <= i < |order| :: Holding(jobs[order[i].item], t)
    ensures var a := AdmitInOrder(jobs, order, t, available).value;
            BadHoldOf(a.rejected, jobs[k].id) <==> a.jobs[k] != jobs[k]
  {
    if order != [] {
      hide Exceeds, ValidUnit, DistinctItems, BadHoldOf;
      DistinctLast(order);
      var before := order[..|order| - 1];
      var last := order[|order| - 1].item;
      AdmitInOrderReports(jobs, before, t, available, k);
      AdmitInOrderFrame(jobs, before, t, available);
      var b := AdmitInOrder(jobs, before, t, available).value;
      var bad := BadHold(jobs[last].id, t, jobs[last].reservedAmount);
      BadHoldConcat(b.rejected, [bad], jobs[k].id);
      OneBadHold(bad, jobs[k].id);
      assert jobs[last].id == jobs[k].id ==> last == k;
    } else {
      assert !BadHoldOf([], jobs[k].id);
    }
  }

  lemma AdmitTenantReports(jobs: seq<Job>, t: nat, available: Dec, k: nat)
    requires DistinctJobs(jobs) && AdmitTenant(jobs, t, available).Some? && k < |jobs|
    ensures var a := AdmitTenant(jobs, t, available).value;
            BadHoldOf(a.rejected, jobs[k].id) <==> a.jobs[k] != jobs[k]
  {
    SortedHolds(jobs, t);
    AdmitInOrderReports(jobs, Sort<nat>(ActiveHolds(jobs, t)), t, available, k);
  }

  lemma {:induction false} AdmitAllReports(accounts: seq<Account>, jobs: seq<Job>, k: nat)
    requires DistinctJobs(jobs) && AdmitAll(accounts, jobs).Some? && k < |jobs|
    ensures var f := AdmitAll(accounts, jobs).value;
            BadHoldOf(f.rejected, jobs[k].id) <==> f.jobs[k] != jobs[k]
  {
    hide AdmitTenant, BadHoldOf;
    if accounts == [] {
      NoBadHold(jobs[k].id);
    } else {
      var last := |accounts| - 1;
      AdmitAllReports(accounts[..last], jobs, k);
      AdmitAllJobs(accounts[..last], jobs);
      var before := AdmitAll(accounts[..last], jobs).value;
      AdmitTenantFacts(before.jobs, accounts[last].id, accounts[last].balance);
      AdmitTenantReports(before.jobs, accounts[last].id, accounts[last].balance, k);
      var a := AdmitTenant(before.jobs, accounts[last].id, accounts[last].balance).value;
      BadHoldConcat(before.rejected, a.rejected, jobs[k].id);
    }
  }

  lemma NoBadHold(id: nat)
    ensures !BadHoldOf([], id)
  {
  }

  lemma ReportMentions(rejected: seq<TxRow>, holds: seq<Rejection>, id: nat)
    requires forall i | 0 <= i < |holds| :: holds[i].BadHold?
    ensures Mentions(BadRows(rejected) + holds, id) <==> Named(rejected, id) || BadHoldOf(holds, id)
  {
    var all := BadRows(rejected) + holds;
    if Named(rejected, id) {
      var i :| 0 <= i < |rejected| && rejected[i].item.task == Some(id);
      assert all[i] == BadRow(rejected[i]);
    }
    if BadHoldOf(holds, id) {
      var i :| 0 <= i < |holds| && holds[i].BadHold? && holds[i].job == id;
      assert all[|rejected| + i] == holds[i];
    }
    if Mentions(all, id) {
      var i :| 0 <= i < |all| && match all[i]
                                 case BadRow(row) => row.item.task == Some(id)
                                 case BadHold(job, _, _) => job == id;
      if i < |rejected| {
        assert all[i] == BadRow(rejected[i]);
      } else {
        assert all[i] == holds[i - |rejected|];
      }
    }
  }

  lemma {:induction false} OnlyHoldsInOrder(jobs: seq<Job>, order: seq<Keyed<nat>>, t: nat, available: Dec)
    requires Positions(order, jobs) && AdmitInOrder(jobs, order, t, available).Some?
    ensures var r := AdmitInOrder(jobs, order, t, available).value.rejected;
            forall i | 0 <= i < |r| :: r[i].BadHold?
  {
    if order != [] {
      OnlyHoldsInOrder(jobs, order[..|order| - 1], t, available);
    }
  }

  lemma {:induction false} OnlyHolds(accounts: seq<Account>, jobs: seq<Job>)
    requires AdmitAll(accounts, jobs).Some?
    ensures var r := AdmitAll(accounts, jobs).value.rejected; forall i | 0 <= i < |r| :: r[i].BadHold?
  {
    if accounts != [] {
      var last := |accounts| - 1;
      OnlyHolds(accounts[..last], jobs);
      var before := AdmitAll(accounts[..last], jobs).value;
      SortedHolds(before.jobs, accounts[last].id);
      OnlyHoldsInOrder(before.jobs, Sort<nat>(ActiveHolds(before.jobs, accounts[last].id)), accounts[last].id,
                       accounts[last].balance);
    }
  }

  // ----- which tasks stay charged -----

  /** A task stays charged exactly if it was, by an amount that is possible, and the report does not name it. */
  lemma ChargeSurvivesExactly(s: Tables, k: nat)
    requires DistinctJobs(s.jobs) && k < |s.jobs| && RebuildLedgers(s).Some?
    ensures var (after, report) := RebuildLedgers(s).value;
            && |after.jobs| == |s.jobs| && after.jobs[k].id == s.jobs[k].id
            && (after.jobs[k].isCharged
                <==> s.jobs[k].isCharged && ValidUnit(s.jobs[k].charged) && !Mentions(report, s.jobs[k].id))
  {
    hide ReplayAll, AdmitAll, ValidUnit, Named, Mentions, BadHoldOf, BadRows;
    var ledgers := ReplayAll(s.accounts, s.rows);
    var jobs := ScreenAll(s.jobs, ledgers.rejected);
    var f := AdmitAll(ledgers.accounts, jobs).value;
    forall i | 0 <= i < |jobs| ensures jobs[i].id == s.jobs[i].id {
    }
    AdmitAllReports(ledgers.accounts, jobs, k);
    AdmitAllJobs(ledgers.accounts, jobs);
    OnlyHolds(ledgers.accounts, jobs);
    ReportMentions(ledgers.rejected, f.rejected, s.jobs[k].id);
  }

  predicate NamedByDeduction(rows: seq<TxRow>, id: nat) {
    exists i | 0 <= i < |rows| :: rows[i].item.kind == DeductionTx && rows[i].item.task == Some(id)
  }

  /** A task is charged exactly if the ledger has a deduction for it. */
  predicate ChargesMatchLedger(s: Tables) {
    forall k | 0 <= k < |s.jobs| :: s.jobs[k].isCharged <==> NamedByDeduction(s.rows, s.jobs[k].id)
  }

  /** After a rebuild the charged tasks are those with an accepted deduction exactly if the legacy charges that the
      report leaves alone are. */
  lemma RebuiltChargesMatchExactly(s: Tables)
    requires DistinctJobs(s.jobs) && RebuildLedgers(s).Some?
    ensures var (after, report) := RebuildLedgers(s).value;
            ChargesMatchLedger(after)
            <==> forall k | 0 <= k < |s.jobs| ::
                   s.jobs[k].isCharged && ValidUnit(s.jobs[k].charged) && !Mentions(report, s.jobs[k].id)
                   <==> NamedByDeduction(after.rows, s.jobs[k].id)
  {
    hide RebuildLedgers, ValidUnit, Mentions, NamedByDeduction;
    var (after, report) := RebuildLedgers(s).value;
    forall k | 0 <= k < |s.jobs|
      ensures |after.jobs| == |s.jobs| && after.jobs[k].id == s.jobs[k].id
      ensures after.jobs[k].isCharged
              <==> s.jobs[k].isCharged && ValidUnit(s.jobs[k].charged) && !Mentions(report, s.jobs[k].id)
    {
      ChargeSurvivesExactly(s, k);
    }
    SameLength(s);
  }

  lemma SameLength(s: Tables)
    requires RebuildLedgers(s).Some?
    ensures |RebuildLedgers(s).value.0.jobs| == |s.jobs|
  {
    hide ReplayAll, Screen;
  }

  // ----- a charge that is lost while its deduction stays -----

  function At(tx: Tx): TxRow {
    Keyed(Key("", ""), tx)
  }

  /** A task charged 5000, with a refund of 50, which is less than any amount may be. */
  function SmallRefund(): Tables {
    Tables([Account(0, Finite(5050.0), Finite(0.0))],
           [Job(Key("", ""), 0, 0, Some(Database.Success), true, Finite(5000.0), false, Finite(0.0), None, None, None)],
           [At(Tx(0, None, RechargeTx, Finite(10000.0), Finite(0.0), Finite(10000.0))),
            At(Tx(0, Some(0), DeductionTx, Finite(5000.0), Finite(10000.0), Finite(5000.0))),
            At(Tx(0, Some(0), RefundTx, Finite(50.0), Finite(5000.0), Finite(5050.0)))])
  }

  lemma SmallRefundReplay()
    ensures var rows := SmallRefund().rows; Replay(rows) == Replayed(rows[..2], [rows[2]], 5000.0)
  {
    hide Replay;
    var rows := SmallRefund().rows;
    var first, second := [rows[0]], [rows[0], rows[1]];
    assert Replay([]) == Replayed([], [], 0.0) by { NoRowsNoBalance(); }
    assert first == [] + [rows[0]] && second == first + [rows[1]] && rows == second + [rows[2]] && rows[..2] == second;
    ReplaySnoc([], rows[0]);
    assert Replay(first) == Replayed(first, [], 10000.0);
    ReplaySnoc(first, rows[1]);
    assert Replay(second) == Replayed(second, [], 5000.0);
    ReplaySnoc(second, rows[2]);
  }

  lemma NoRowsNoBalance()
    ensures Replay([]) == Replayed([], [], 0.0)
  {
  }

  lemma SmallRefundSorted()
    ensures var rows := SmallRefund().rows; RowsOfTenant(rows, 0) == rows && Sort(rows) == rows
  {
    hide Sort, Filter;
    var rows := SmallRefund().rows;
    FilterAll(rows, OfTenant(0));
    assert KeyLe(Key("", ""), Key("", ""));
    SortOfSorted(rows);
  }

  lemma SmallRefundLedgers()
    ensures var s := SmallRefund();
            ReplayAll(s.accounts, s.rows)
            == Ledgers([Account(0, Finite(5000.0), Finite(0.0))], s.rows[..2], [s.rows[2]])
  {
    hide Replay, Sort, RowsOfTenant;
    var s := SmallRefund();
    SmallRefundReplay();
    SmallRefundSorted();
    assert s.accounts[..0] == [] && s.accounts[0].id == 0;
    assert ReplayTenant(s.rows, 0) == Replayed(s.rows[..2], [s.rows[2]], 5000.0);
  }

  lemma NoHoldsToAdmit(account: Account, job: Job)
    requires !Holding(job, account.id)
    ensures AdmitAll([account], [job]) == Some(Funded([account.(reserved := Finite(0.0))], [job], []))
  {
    NoHolds(job, account);
    hide AdmitTenant;
    var nobody: seq<Account> := [];
    var quiet: seq<Rejection> := [];
    assert AdmitAll(nobody, [job]) == Some(Funded(nobody, [job], quiet));
    AdmitAllStep(nobody, account, [job], Funded(nobody, [job], quiet), Admitted([job], 0.0, quiet));
    assert nobody + [account] == [account] && quiet + quiet == quiet;
    assert nobody + [account.(reserved := Finite(0.0))] == [account.(reserved := Finite(0.0))];
  }

  lemma NoHolds(job: Job, account: Account)
    requires !Holding(job, account.id)
    ensures AdmitTenant([job], account.id, account.balance) == Some(Admitted([job], 0.0, []))
  {
    assert [job][..0] == [] && ActiveHolds([], account.id) == [];
    assert ActiveHolds([job], account.id) == [];
    assert Sort<nat>([]) == [];
  }

  /** The refund is rejected, so the task comes out failed and uncharged; but its deduction was accepted. */
  lemma SmallRefundLosesCharge()
    ensures var s := SmallRefund();
            && s.jobs[0].isCharged && NamedByDeduction(s.rows, 0)
            && RebuildLedgers(s).Some?
            && var after := RebuildLedgers(s).value.0;
               && |after.jobs| == 1 && after.jobs[0].status == Some(Database.Failed) && !after.jobs[0].isCharged
               && NamedByDeduction(after.rows, 0) && !ChargesMatchLedger(after)
  {
    hide ReplayAll, AdmitAll;
    var s := SmallRefund();
    SmallRefundLedgers();
    assert Named([s.rows[2]], 0) by { assert [s.rows[2]][0].item.task == Some(0); }
    var job := Invalidate(s.jobs[0], EXCLUDED);
    assert ScreenAll(s.jobs, [s.rows[2]]) == [job];
    NoHoldsToAdmit(Account(0, Finite(5000.0), Finite(0.0)), job);
    assert s.rows[..2][1].item.kind == DeductionTx && s.rows[1].item.kind == DeductionTx;
    assert RebuildLedgers(s).value.0.jobs[0].id == 0;
  }

  // ----- an exception -----

  /** One account whose balance is no number, one active job of 100 ticks, no rows: the migration stops. */
  lemma NotANumberRaises()
    ensures RebuildLedgers(
              Tables([Account(0, NaN, Finite(0.0))],
                     [Job(Key("", ""), 0, 0, Some(Database.Pending), false, Finite(0.0), true, Finite(100.0),
                          None, None, None)],
                     [])).None?
  {
    var s := Tables([Account(0, NaN, Finite(0.0))],
                    [Job(Key("", ""), 0, 0, Some(Database.Pending), false, Finite(0.0), true, Finite(100.0),
                         None, None, None)],
                    []);
    hide AdmitAll, ReplayAll;
    NoRowsNoReplay(s.accounts[0]);
    assert Uncomparable(s.accounts[0], s.jobs) by {
      assert Holding(s.jobs[0], 0) && ValidUnit(s.jobs[0].reservedAmount);
    }
    assert ScreenAll(s.jobs, []) == s.jobs by { assert !Named([], 0); }
    AdmitAllRaises(s.accounts, s.jobs);
    assert SomeUncomparable(s.accounts, s.jobs);
  }

  lemma NoRowsNoReplay(account: Account)
    ensures ReplayAll([account], []) == Ledgers([account], [], [])
  {
    assert [account][..0] == [];
    assert RowsOfTenant([], account.id) == [] && Sort<Tx>([]) == [];
    assert ReplayTenant([], account.id) == Replayed([], [], 0.0);
  }
}
