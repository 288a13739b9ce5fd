/** What rebuild_ledgers decides for one row, one task and one reservation, said over their columns. */
module RebuildSteps {
  import opened Wrappers
  import opened Database
  import opened Sorting
  import opened Rebuild

  /** Which amounts a row of each type may have, and which balance it may lead to. */
  predicate MayFollow(running: real, kind: TxKind, a: real) {
    match kind
    case RechargeTx => 100.0 <= a <= 10_000_000_000.0 && running + a <= 999_999_999_999.0
    case RefundTx => 100.0 <= a <= 10_000_000_000.0 && running + a <= 999_999_999_999.0
    case DeductionTx => 100.0 <= a <= 1_000_000.0 && a <= running
    case AdjustmentTx => -running <= a <= 999_999_999_999.0 - running
    case UnknownTx => false
  }

  /** The next row of a ledger is accepted exactly if its amount is finite and may follow; then it is stored with
      the balance before and after it. */
  lemma RowIsAcceptedExactly(rows: seq<TxRow>, row: TxRow)
    ensures var r, next, tx := Replay(rows), Replay(rows + [row]), row.item;
            if tx.amount.Finite? && MayFollow(r.running, tx.kind, tx.amount.ticks) then
              var after := if tx.kind == DeductionTx then r.running - tx.amount.ticks else r.running + tx.amount.ticks;
              next == Replayed(r.accepted + [Keyed(row.key, Tx(tx.tenant, tx.task, tx.kind, tx.amount,
                                                               Finite(r.running), Finite(after)))],
                               r.rejected, after)
            else
              next == Replayed(r.accepted, r.rejected + [row], r.running)
  {
    assert (rows + [row])[..|rows|] == rows;
  }

  /** A task that lost its money: failed, free, uncharged, without lease, and with the reason. */
  function Voided(x: Job, reason: string): Job {
    Job(x.key, x.id, x.tenant, Some(Failed), false, Finite(0.0), false, Finite(0.0), None, None, Some(reason))
  }

  /** A task is voided exactly if a rejected row names it, or its charge is no number from 0.01 to 100. */
  lemma TaskIsVoidedExactly(jobs: seq<Job>, rejected: seq<TxRow>, k: nat)
    requires k < |jobs|
    ensures var x := jobs[k];
            ScreenAll(jobs, rejected)[k]
            == if || (exists row | row in rejected :: row.item.task == Some(x.id))
                  || (x.isCharged && !(x.charged.Finite? && 100.0 <= x.charged.ticks <= 1_000_000.0))
               then Voided(x, EXCLUDED) else x
  {
    if Named(rejected, jobs[k].id) {
      var i :| 0 <= i < |rejected| && rejected[i].item.task == Some(jobs[k].id);
      assert rejected[i] in rejected;
    }
    if row :| row in rejected && row.item.task == Some(jobs[k].id) {
      var i :| 0 <= i < |rejected| && rejected[i] == row;
    }
  }

  /** A reservation is kept exactly if its amount is a number from 0.01 to 100 that the balance still covers; a
      balance that is not a number stops the run. */
  lemma ReservationIsKeptExactly(a: Admitted, k: nat, t: nat, available: Dec)
    requires k < |a.jobs|
    ensures var x := a.jobs[k];
            var amount := x.reservedAmount;
            var possible := amount.Finite? && 100.0 <= amount.ticks <= 1_000_000.0;
            var covered := match available
                           case NaN => false
                           case PosInf => true
                           case NegInf => false
                           case Finite(b) => amount.Finite? && a.reserved + amount.ticks <= b;
            AdmitJob(a, k, t, available)
            == if possible && available == NaN then None
               else if possible && covered then Some(Admitted(a.jobs, a.reserved + amount.ticks, a.rejected))
               else Some(Admitted(a.jobs[k := Voided(x, UNFUNDED)], a.reserved,
                                  a.rejected + [BadHold(x.id, t, amount)]))
  {
  }

  /** Which tasks compete for a tenant's balance: its unfinished ones that are marked reserved, in table order. */
  lemma {:induction false} HoldsAreThose(jobs: seq<Job>, t: nat, k: nat)
    requires k < |jobs|
    ensures Keyed(jobs[k].key, k) in ActiveHolds(jobs, t)
            <==> jobs[k].tenant == t && jobs[k].isReserved
                 && (jobs[k].status == Some(Pending) || jobs[k].status == Some(Processing))
  {
    var last := |jobs| - 1;
    if k < last {
      HoldsAreThose(jobs[..last], t, k);
    }
  }

  lemma {:induction false} HoldsAreInTableOrder(jobs: seq<Job>, t: nat, i: nat, j: nat)
    requires i < j < |ActiveHolds(jobs, t)|
    ensures ActiveHolds(jobs, t)[i].item < ActiveHolds(jobs, t)[j].item < |jobs|
  {
    var rest := jobs[..|jobs| - 1];
    if j < |ActiveHolds(rest, t)| {
      HoldsAreInTableOrder(rest, t, i, j);
    }
  }

  /** A tenant's balance is replaced by where its accepted rows end, if there are any. */
  lemma BalanceIsReplacedExactly(accounts: seq<Account>, rows: seq<TxRow>, account: Account)
    ensures var r := ReplayTenant(rows, account.id);
            var done, next := ReplayAll(accounts, rows), ReplayAll(accounts + [account], rows);
            next == Ledgers(done.accounts + [Account(account.id, if r.accepted == [] then account.balance
                                                                 else r.accepted[|r.accepted| - 1].item.after,
                                                     account.reserved)],
                            done.valid + r.accepted, done.rejected + r.rejected)
  {
    hide Replay, Sort, RowsOfTenant;
    assert (accounts + [account])[..|accounts|] == accounts;
    LastAccepted(Sort(RowsOfTenant(rows, account.id)));
  }

  lemma {:induction false} LastAccepted(rows: seq<TxRow>)
    ensures var r := Replay(rows);
            r.accepted != [] ==> r.accepted[|r.accepted| - 1].item.after == Finite(r.running)
  {
    if rows != [] {
      LastAccepted(rows[..|rows| - 1]);
    }
  }
}
