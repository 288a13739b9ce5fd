/** The two recomputations of a balance compared: the one-pass sum of the reconcile command against the
    stepwise replay of the migration, and both against the live service. */
module Agreement {
  import opened Wrappers
  import opened Money
  import opened Database
  import opened Lifecycle
  import opened Sorting
  import opened Rebuild
  import opened RebuildProofs
  import opened RebuildAgain
  import opened Reconcile
  import opened Audit

  // ----- sums that do not depend on the order -----

  function SumBy<T>(s: seq<T>, f: T -> real): real {
    if s == [] then 0.0 else SumBy(s[..|s| - 1], f) + f(s[|s| - 1])
  }

  lemma {:induction false} SumByConcat<T>(a: seq<T>, b: seq<T>, f: T -> real)
    ensures SumBy(a + b, f) == SumBy(a, f) + SumBy(b, f)
  {
    if b == [] {
      assert a + b == a;
    } else {
      SumByConcat(a, b[..|b| - 1], f);
      assert (a + b)[..|a + b| - 1] == a + b[..|b| - 1];
    }
  }

  lemma SumByWithout<T>(s: seq<T>, i: nat, f: T -> real)
    requires i < |s|
    ensures SumBy(s, f) == SumBy(s[..i] + s[i + 1..], f) + f(s[i])
    ensures multiset(s) == multiset(s[..i] + s[i + 1..]) + multiset{s[i]}
  {
    hide SumBy;
    var front, x, back := s[..i], s[i], s[i + 1..];
    assert s == front + [x] + back;
    SumByConcat(front, back, f);
    SumByConcat(front, [x], f);
    SumByConcat(front + [x], back, f);
    SumByOne(x, f);
  }

  lemma SumByOne<T>(x: T, f: T -> real)
    ensures SumBy([x], f) == f(x)
  {
    assert [x][..0] == [];
  }

  lemma {:induction false} SumByPermutes<T>(a: seq<T>, b: seq<T>, f: T -> real)
    requires multiset(a) == multiset(b)
    ensures SumBy(a, f) == SumBy(b, f)
  {
    if a == [] {
      assert |multiset(b)| == 0;
    } else {
      var last := |a| - 1;
      assert a[last] in multiset(b);
      var i :| 0 <= i < |b| && b[i] == a[last];
      SumByWithout(b, i, f);
      assert a == a[..last] + [a[last]];
      assert multiset(a[..last]) == multiset(a) - multiset{a[last]};
      assert multiset(b[..i] + b[i + 1..]) == multiset(b) - multiset{a[last]};
      SumByPermutes(a[..last], b[..i] + b[i + 1..], f);
    }
  }

  // ----- ledgers -----

  /** What a row counts for, looking at its amount alone. */
  function Worth(): TxRow -> real {
    (row: TxRow) => if AmountValid(row.item.kind, row.item.amount) then Effect(row.item) else 0.0
  }

  /** For any rows whatever: the plain sum exceeds the replayed balance by what the replay rejected although
      the amount alone was valid. */
  lemma {:induction false} SumIsReplayPlusRejected(rows: seq<TxRow>)
    ensures SumBy(rows, Worth()) == Replay(rows).running + SumBy(Replay(rows).rejected, Worth())
  {
    if rows != [] {
      var last := rows[|rows| - 1];
      var before := Replay(rows[..|rows| - 1]);
      SumIsReplayPlusRejected(rows[..|rows| - 1]);
      if Try(before.running, last.item).None? {
        assert (before.rejected + [last])[..|before.rejected|] == before.rejected;
      }
    }
  }

  /** Every prefix of the rows sums up to a balance an account may have. */
  predicate StaysInRange(rows: seq<TxRow>) {
    0.0 <= SumBy(rows, Worth()) <= MAX_ACCOUNT_BALANCE as real && (rows == [] || StaysInRange(rows[..|rows| - 1]))
  }

  predicate NoneValid(rows: seq<TxRow>) {
    forall i | 0 <= i < |rows| :: !AmountValid(rows[i].item.kind, rows[i].item.amount)
  }

  lemma {:induction false} NoneValidSum(rows: seq<TxRow>)
    requires NoneValid(rows)
    ensures SumBy(rows, Worth()) == 0.0
  {
    if rows != [] {
      NoneValidSum(rows[..|rows| - 1]);
    }
  }

  lemma RejectedForRange(running: real, tx: Tx)
    requires 0.0 <= running <= MAX_ACCOUNT_BALANCE as real && AmountValid(tx.kind, tx.amount)
    ensures Try(running, tx) == if 0.0 <= running + Effect(tx) <= MAX_ACCOUNT_BALANCE as real
                                then Some(running + Effect(tx)) else None
  {
  }

  /** The replay accepts every row whose amount is valid if and only if the plain sums never leave the range;
      and then it ends at the plain sum. */
  lemma {:induction false} ReplayAcceptsAllValid(rows: seq<TxRow>)
    ensures NoneValid(Replay(rows).rejected) <==> StaysInRange(rows)
    ensures StaysInRange(rows) ==> Replay(rows).running == SumBy(rows, Worth())
  {
    if rows != [] {
      var n := |rows| - 1;
      var last := rows[n];
      var before := Replay(rows[..n]);
      var after := Replay(rows);
      ReplayAcceptsAllValid(rows[..n]);
      ReplayChains(rows[..n]);
      if NoneValid(before.rejected) {
        if AmountValid(last.item.kind, last.item.amount) {
          RejectedForRange(before.running, last.item);
        }
      } else {
        var i :| 0 <= i < |before.rejected|
                 && AmountValid(before.rejected[i].item.kind, before.rejected[i].item.amount);
        assert after.rejected[i] == before.rejected[i];
      }
      if Try(before.running, last.item).None? {
        assert after.rejected == before.rejected + [last];
        assert after.rejected[|before.rejected|] == last;
        assert forall i | 0 <= i < |before.rejected| :: after.rejected[i] == before.rejected[i];
      }
    }
  }

  // ----- the command's input against the tables -----

  function Value(stored: Stored): Dec {
    if stored.Reads? then stored.dec else NaN
  }

  /** The query result holds these rows; text that `Decimal` refuses is what the migration takes for NaN. */
  predicate ReadsRows(entries: seq<Entry>, rows: seq<TxRow>) {
    |entries| == |rows|
    && forall i | 0 <= i < |rows| ::
         entries[i].kind == rows[i].item.kind && Value(entries[i].amount) == rows[i].item.amount
  }

  lemma {:induction false} NetIsSum(entries: seq<Entry>, rows: seq<TxRow>)
    requires ReadsRows(entries, rows) && Readable(entries)
    ensures Net(entries) == SumBy(rows, Worth())
  {
    if rows != [] {
      NetIsSum(entries[..|rows| - 1], rows[..|rows| - 1]);
    }
  }

  /** The query result holds the reserved amounts at these positions of the task table. */
  predicate ReadsHolds(holds: seq<Stored>, order: seq<Keyed<nat>>, jobs: seq<Job>) {
    |holds| == |order|
    && forall i | 0 <= i < |order| :: order[i].item < |jobs| && Value(holds[i]) == jobs[order[i].item].reservedAmount
  }

  function Keeps(jobs: seq<Job>, t: nat): Keyed<nat> -> real {
    (x: Keyed<nat>) => if x.item < |jobs| then Kept(jobs[x.item], t) else 0.0
  }

  lemma {:induction false} ReservedIsSum(holds: seq<Stored>, order: seq<Keyed<nat>>, jobs: seq<Job>, t: nat, price: Dec)
    requires ReadsHolds(holds, order, jobs) && HoldsReadable(holds) && ValidUnit(price) && Normalized(holds) == []
    requires forall i | 0 <= i < |order| :: Holding(jobs[order[i].item], t)
    ensures Reserved(holds, price) == SumBy(order, Keeps(jobs, t))
    ensures forall i | 0 <= i < |order| :: ValidUnit(jobs[order[i].item].reservedAmount)
  {
    if order != [] {
      ReservedIsSum(holds[..|order| - 1], order[..|order| - 1], jobs, t, price);
    }
  }

  lemma {:induction false} SumOverIsSumBy(jobs: seq<Job>, order: seq<Keyed<nat>>, t: nat)
    requires forall i | 0 <= i < |order| :: order[i].item < |jobs|
    ensures SumOver(jobs, order, t) == SumBy(order, Keeps(jobs, t))
  {
    if order != [] {
      SumOverIsSumBy(jobs, order[..|order| - 1], t);
    }
  }

  /** The command's query for one tenant, over the migration's tables, in whatever order the rows come. */
  ghost predicate Queried(tables: Tables, i: nat, entries: seq<Entry>, holds: seq<Stored>)
    requires i < |tables.accounts|
  {
    var t := tables.accounts[i].id;
    && (exists rows :: multiset(rows) == multiset(RowsOfTenant(tables.rows, t)) && ReadsRows(entries, rows))
    && (exists order: seq<Keyed<nat>> ::
          multiset(order) == multiset(ActiveHolds(tables.jobs, t)) && ReadsHolds(holds, order, tables.jobs))
  }

  lemma NetOfTenant(tables: Tables, i: nat, entries: seq<Entry>, holds: seq<Stored>)
    requires i < |tables.accounts| && Queried(tables, i, entries, holds) && Readable(entries)
    ensures Net(entries) == SumBy(Sort(RowsOfTenant(tables.rows, tables.accounts[i].id)), Worth())
  {
    var mine := RowsOfTenant(tables.rows, tables.accounts[i].id);
    var rows :| multiset(rows) == multiset(mine) && ReadsRows(entries, rows);
    NetIsSum(entries, rows);
    SortPermutes(mine);
    SumByPermutes(rows, Sort(mine), Worth());
  }

  lemma ReservedOfTenant(tables: Tables, i: nat, entries: seq<Entry>, holds: seq<Stored>, price: Dec)
    requires i < |tables.accounts| && Queried(tables, i, entries, holds)
    requires HoldsReadable(holds) && ValidUnit(price) && Normalized(holds) == []
    ensures var t := tables.accounts[i].id;
            && Reserved(holds, price) == SumKept(tables.jobs, t)
            && forall k | 0 <= k < |tables.jobs| && Holding(tables.jobs[k], t) ::
                 ValidUnit(tables.jobs[k].reservedAmount)
  {
    hide ActiveHolds, SumKept, SumOver, SumBy, Reserved, Normalized;
    var t := tables.accounts[i].id;
    var active := ActiveHolds(tables.jobs, t);
    ActiveHoldsPositions(tables.jobs, t);
    var order: seq<Keyed<nat>> :| multiset(order) == multiset(active) && ReadsHolds(holds, order, tables.jobs);
    forall j | 0 <= j < |order| ensures Holding(tables.jobs[order[j].item], t) {
      assert order[j] in multiset(active);
    }
    ReservedIsSum(holds, order, tables.jobs, t, price);
    SumByPermutes(order, active, Keeps(tables.jobs, t));
    SumOverIsSumBy(tables.jobs, active, t);
    SumKeptIsSumOver(tables.jobs, tables.jobs, t);
    forall k: nat | k < |tables.jobs| && Holding(tables.jobs[k], t) ensures ValidUnit(tables.jobs[k].reservedAmount) {
      var j :| 0 <= j < |active| && active[j].item == k;
      assert active[j] in multiset(order);
      var m :| 0 <= m < |order| && order[m] == active[j];
    }
  }

  // ----- reconcile against rebuild_ledgers -----

  /** The jobs of one tenant are the same in both tables, and the others belong to nobody new. */
  predicate SameJobsOf(a: seq<Job>, b: seq<Job>, t: nat) {
    |a| == |b| && forall k | 0 <= k < |a| :: if a[k].tenant == t then b[k] == a[k] else b[k].tenant != t
  }

  lemma TenantAdmitsAll(jobs: seq<Job>, t: nat, available: real)
    requires forall k | 0 <= k < |jobs| && Holding(jobs[k], t) :: ValidUnit(jobs[k].reservedAmount)
    requires SumKept(jobs, t) <= available
    ensures AdmitTenant(jobs, t, Finite(available)) == Some(Admitted(jobs, SumKept(jobs, t), []))
  {
    hide ActiveHolds, SumKept, SumOver, Sort, AdmitInOrder;
    var order: seq<Keyed<nat>> := Sort<nat>(ActiveHolds(jobs, t));
    SortedHolds(jobs, t);
    SumKeptIsSumOver(jobs, jobs, t);
    SumOverSort(jobs, ActiveHolds(jobs, t), t);
    EverythingFits(jobs, order, t, available);
  }

  /** A tenant whose jobs survive the screening and are covered keeps all its reservations. */
  lemma ReservedSurvives(s: Tables, i: nat, running: real)
    requires DistinctIds(s.accounts) && i < |s.accounts| && RebuildLedgers(s).Some?
    requires forall k | 0 <= k < |s.jobs| && s.jobs[k].tenant == s.accounts[i].id ::
               Screen(s.jobs[k], ReplayAll(s.accounts, s.rows).rejected) == s.jobs[k]
    requires forall k | 0 <= k < |s.jobs| && Holding(s.jobs[k], s.accounts[i].id) ::
               ValidUnit(s.jobs[k].reservedAmount)
    requires Settle(s.accounts[i], ReplayTenant(s.rows, s.accounts[i].id)).balance == Finite(running)
    requires SumKept(s.jobs, s.accounts[i].id) <= running
    ensures var after := RebuildLedgers(s).value.0;
            |after.accounts| == |s.accounts| && after.accounts[i].reserved == Finite(SumKept(s.jobs, s.accounts[i].id))
  {
    hide ReplayAll, AdmitAll, AdmitTenant, Screen, SumKept, DistinctIds;
    var ledgers := ReplayAll(s.accounts, s.rows);
    var jobs := ScreenAll(s.jobs, ledgers.rejected);
    var t := s.accounts[i].id;
    ReplayAllAccounts(s.accounts, s.rows);
    DistinctIdsStay(s.accounts, s.rows);
    assert ledgers.accounts[..|s.accounts|] == ledgers.accounts;
    assert t == ledgers.accounts[i].id;
    forall k | 0 <= k < |s.jobs| ensures jobs[k].tenant == s.jobs[k].tenant {
      ScreenKeepsTenant(s.jobs[k], ledgers.rejected);
    }
    TurnReserves(ledgers.accounts, jobs, i, s.jobs, running);
  }

  lemma ScreenKeepsTenant(x: Job, rejected: seq<TxRow>)
    ensures Screen(x, rejected).tenant == x.tenant
  {
  }

  lemma TurnReserves(accounts: seq<Account>, jobs: seq<Job>, i: nat, original: seq<Job>, running: real)
    requires DistinctIds(accounts) && i < |accounts| && AdmitAll(accounts, jobs).Some?
    requires SameJobsOf(original, jobs, accounts[i].id) && accounts[i].balance == Finite(running)
    requires forall k | 0 <= k < |original| && Holding(original[k], accounts[i].id) ::
               ValidUnit(original[k].reservedAmount)
    requires SumKept(original, accounts[i].id) <= running
    ensures |AdmitAll(accounts, jobs).value.accounts| == |accounts|
    ensures AdmitAll(accounts, jobs).value.accounts[i].reserved == Finite(SumKept(original, accounts[i].id))
  {
    hide AdmitTenant, SumKept;
    var t := accounts[i].id;
    assert accounts[..|accounts|] == accounts;
    AdmitAllLater(accounts, jobs, i + 1, |accounts|);
    AdmitAllSnoc(accounts, i + 1, jobs);
    AdmitAllJobs(accounts[..i], jobs);
    var before := AdmitAll(accounts[..i], jobs).value.jobs;
    forall k | 0 <= k < |jobs|
      ensures if original[k].tenant == t then before[k] == original[k] else before[k].tenant != t
    {
      assert !Listed(accounts[..i], t);
    }
    SumKeptSame(original, before, t);
    TenantAdmitsAll(before, t, running);
    var f := AdmitAll(accounts, jobs).value;
    assert f.accounts[..i + 1][i] == f.accounts[i];
  }

  /** Reconcile agrees with rebuild_ledgers: for a tenant with an accepted row whose sums never leave the
      range, the balance it would write is the rebuilt one, to the nearest tick. If besides the amounts are
      whole ticks, no reservation needed normalizing and no task of the tenant was screened out, the reserved
      balances agree too. */
  lemma ReconcileAgreesWithRebuild(s: Tables, i: nat, price: Stored, entries: seq<Entry>, holds: seq<Stored>)
    requires DistinctIds(s.accounts) && i < |s.accounts| && RebuildLedgers(s).Some?
    requires Queried(s, i, entries, holds) && Reconciled(price, entries, holds).Plan?
    requires StaysInRange(Sort(RowsOfTenant(s.rows, s.accounts[i].id)))
    requires ReplayTenant(s.rows, s.accounts[i].id).accepted != []
    ensures var after := RebuildLedgers(s).value.0;
            var plan := Reconciled(price, entries, holds);
            && |after.accounts| == |s.accounts|
            && after.accounts[i].balance.Finite? && after.accounts[i].reserved.Finite?
            && plan.balance == HalfEven(after.accounts[i].balance.ticks)
            && (&& plan.normalized == []
                && Net(entries).Floor as real == Net(entries)
                && Reserved(holds, price.dec).Floor as real == Reserved(holds, price.dec)
                && (forall k | 0 <= k < |s.jobs| && s.jobs[k].tenant == s.accounts[i].id ::
                      Screen(s.jobs[k], ReplayAll(s.accounts, s.rows).rejected) == s.jobs[k])
                ==> plan.balance as real == after.accounts[i].balance.ticks
                    && plan.reserved as real == after.accounts[i].reserved.ticks)
  {
    hide RebuildLedgers, Sort, RowsOfTenant, StaysInRange, SumKept, Net, Reserved, Normalized, Excluded, Screen;
    hide DistinctIds, Queried, TooWide, SumBy, Replay;
    NetOfTenant(s, i, entries, holds);
    ReplayAcceptsAllValid(Sort(RowsOfTenant(s.rows, s.accounts[i].id)));
    RebuiltAccount(s, i);
    ReplayAllAccounts(s.accounts, s.rows);
    var plan := Reconciled(price, entries, holds);
    if && plan.normalized == []
       && Reserved(holds, price.dec).Floor as real == Reserved(holds, price.dec)
       && Net(entries).Floor as real == Net(entries)
       && forall k | 0 <= k < |s.jobs| && s.jobs[k].tenant == s.accounts[i].id ::
            Screen(s.jobs[k], ReplayAll(s.accounts, s.rows).rejected) == s.jobs[k] {
      ReservedOfTenant(s, i, entries, holds, price.dec);
      ReservedSurvives(s, i, Net(entries));
    }
  }

  // ----- reconcile on the live service -----

  lemma {:induction false} NothingExcluded(entries: seq<Entry>)
    requires Readable(entries)
    requires forall i | 0 <= i < |entries| :: AmountValid(entries[i].kind, entries[i].amount.dec)
    ensures Excluded(entries) == []
  {
    if entries != [] {
      NothingExcluded(entries[..|entries| - 1]);
    }
  }

  lemma {:induction false} NothingNormalized(holds: seq<Stored>)
    requires HoldsReadable(holds) && forall i | 0 <= i < |holds| :: ValidUnit(holds[i].dec)
    ensures Normalized(holds) == []
  {
    if holds != [] {
      NothingNormalized(holds[..|holds| - 1]);
    }
  }

  lemma {:induction false} AcceptedAmountsAreValid(rows: seq<TxRow>)
    ensures forall i | 0 <= i < |Replay(rows).accepted| ::
              AmountValid(Replay(rows).accepted[i].item.kind, Replay(rows).accepted[i].item.amount)
  {
    if rows != [] {
      AcceptedAmountsAreValid(rows[..|rows| - 1]);
    }
  }

  lemma LiveEntries(s: Db, tables: Tables, i: nat, entries: seq<Entry>, holds: seq<Stored>)
    requires Invariants.LedgerOk(s) && Shows(tables, s) && i < |tables.accounts|
    requires Queried(tables, i, entries, holds)
    ensures Readable(entries) && Excluded(entries) == []
    ensures tables.accounts[i].id < |s.tenants|
    ensures Net(entries) == s.tenants[tables.accounts[i].id].balance as real
  {
    hide Sort, RowsOfTenant, Net, Excluded, SumBy, LedgerOf, LedgerBalance, Replay, Invariants.RowOk, ActiveHolds;
    var t := tables.accounts[i].id;
    assert ShowsTenant(tables.accounts[i], s);
    var mine := RowsOfTenant(tables.rows, t);
    var rows :| multiset(rows) == multiset(mine) && ReadsRows(entries, rows);
    var sorted := Sort(mine);
    SortPermutes(mine);
    assert s.ledger[..|s.ledger|] == s.ledger;
    LiveLedgerReplays(s, |s.ledger|, t, sorted);
    AcceptedAmountsAreValid(sorted);
    forall j | 0 <= j < |entries|
      ensures entries[j].amount.Reads? && AmountValid(entries[j].kind, entries[j].amount.dec)
    {
      assert rows[j] in multiset(sorted);
      assert rows[j] in sorted;
    }
    NothingExcluded(entries);
    NetOfTenant(tables, i, entries, holds);
    SumIsReplayPlusRejected(sorted);
    NoneValidSum([]);
  }

  lemma LiveHolds(s: Db, tables: Tables, i: nat, entries: seq<Entry>, holds: seq<Stored>, price: Dec)
    requires Invariants.TasksOk(s) && Invariants.HoldsOk(s) && Shows(tables, s) && i < |tables.accounts|
    requires Queried(tables, i, entries, holds) && ValidUnit(price)
    ensures HoldsReadable(holds) && Normalized(holds) == []
    ensures tables.accounts[i].id < |s.tenants|
    ensures Reserved(holds, price) == s.tenants[tables.accounts[i].id].reserved as real
  {
    hide Sort, RowsOfTenant, Reserved, Normalized, SumBy, SumKept, SumHolds, ActiveHolds;
    var t := tables.accounts[i].id;
    assert ShowsTenant(tables.accounts[i], s);
    var active := ActiveHolds(tables.jobs, t);
    ActiveHoldsPositions(tables.jobs, t);
    var order: seq<Keyed<nat>> :| multiset(order) == multiset(active) && ReadsHolds(holds, order, tables.jobs);
    forall j | 0 <= j < |holds| ensures holds[j].Reads? && ValidUnit(holds[j].dec) {
      assert order[j] in multiset(active);
      var k := order[j].item;
      var x := s.tasks[tables.jobs[k].id];
      assert ShowsTask(tables.jobs[k], tables.jobs[k].id, x) && Invariants.TaskOk(x, |s.tenants|);
    }
    NothingNormalized(holds);
    ReservedOfTenant(tables, i, entries, holds, price);
    SumKeptIsSumHolds(s.tasks, tables.jobs, t, |s.tenants|);
  }

  lemma WholeTicks(x: int)
    ensures HalfEven(x as real) == x
    ensures 0 <= x <= MAX_ACCOUNT_BALANCE ==> !TooWide(x as real)
  {
  }

  lemma ReconcileOfSound(s: Db, tables: Tables, i: nat, entries: seq<Entry>, holds: seq<Stored>)
    requires Invariants.Inv(s) && Shows(tables, s) && i < |tables.accounts|
    requires Queried(tables, i, entries, holds)
    ensures tables.accounts[i].id < |s.tenants|
    ensures var x := s.tenants[tables.accounts[i].id];
            Reconciled(Reads(Amount(x.unitPrice)), entries, holds) == Plan(x.balance, x.reserved, [], [])
  {
    hide Invariants.LedgerOk, Invariants.TasksOk, Invariants.HoldsOk, Shows, Queried, TooWide, HalfEven;
    hide Net, Excluded, Reserved, Normalized;
    LiveEntries(s, tables, i, entries, holds);
    var x := s.tenants[tables.accounts[i].id];
    LiveHolds(s, tables, i, entries, holds, Amount(x.unitPrice));
    WholeTicks(x.balance);
    WholeTicks(x.reserved);
  }

  /** On the live service the command never has anything to do: for any run, any tenant and any query order it
      recomputes exactly the stored balance and reserved balance, excludes no row and normalizes no task. */
  lemma LiveServiceIsReconciled(steps: seq<Step>, tables: Tables, i: nat, entries: seq<Entry>, holds: seq<Stored>)
    requires Shows(tables, Run(steps)) && i < |tables.accounts| && Queried(tables, i, entries, holds)
    ensures tables.accounts[i].id < |Run(steps).tenants|
    ensures var x := Run(steps).tenants[tables.accounts[i].id];
            Reconciled(Reads(Amount(x.unitPrice)), entries, holds) == Plan(x.balance, x.reserved, [], [])
  {
    hide Run, Shows, Reconciled, Queried, Invariants.Inv;
    Reachable.RunKeeps(steps);
    ReconcileOfSound(Run(steps), tables, i, entries, holds);
  }
}
