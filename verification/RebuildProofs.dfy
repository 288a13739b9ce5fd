/** What rebuild_ledgers guarantees on arbitrary legacy data, and that running it again changes nothing. */
module RebuildProofs {
  import opened Wrappers
  import opened Money
  import opened Sorting
  import opened Rebuild

  // ----- accepted rows chain -----

  /** What a row adds to a balance. */
  function Effect(tx: Tx): real
    requires tx.amount.Finite?
  {
    if tx.kind == DeductionTx then -tx.amount.ticks else tx.amount.ticks
  }

  /** Row i starts where row i - 1 ended, adds its amount, and stays within the account's range. */
  predicate Links(rows: seq<TxRow>, i: nat)
    requires i < |rows|
  {
    var tx := rows[i].item;
    && tx.amount.Finite? && tx.before.Finite? && tx.after.Finite?
    && tx.before == (if i == 0 then Finite(0.0) else rows[i - 1].item.after)
    && tx.after.ticks == tx.before.ticks + Effect(tx)
    && 0.0 <= tx.after.ticks <= MAX_ACCOUNT_BALANCE as real
  }

  /** Whatever the legacy rows are, the accepted ones form a chain from zero to the rebuilt balance. */
  lemma {:induction false} ReplayChains(rows: seq<TxRow>)
    ensures var r := Replay(rows);
            && (forall i | 0 <= i < |r.accepted| :: Links(r.accepted, i))
            && Finite(r.running) == (if r.accepted == [] then Finite(0.0) else r.accepted[|r.accepted| - 1].item.after)
            && 0.0 <= r.running <= MAX_ACCOUNT_BALANCE as real
  {
    if rows != [] {
      ReplayChains(rows[..|rows| - 1]);
      var before := Replay(rows[..|rows| - 1]);
      var after := Replay(rows);
      forall i | 0 <= i < |before.accepted| ensures Links(after.accepted, i) {
        assert Links(before.accepted, i);
      }
    }
  }

  // ----- every row is accepted or rejected once -----

  function Bare(row: TxRow): TxRow {
    row.(item := row.item.(before := NaN, after := NaN))
  }

  /** How many of the rows are x, up to their balance snapshots. */
  function Copies(rows: seq<TxRow>, x: TxRow): nat {
    if rows == [] then 0
    else Copies(rows[..|rows| - 1], x) + if Bare(rows[|rows| - 1]) == Bare(x) then 1 else 0
  }

  lemma CopiesSnoc(rows: seq<TxRow>, row: TxRow, x: TxRow)
    ensures Copies(rows + [row], x) == Copies(rows, x) + if Bare(row) == Bare(x) then 1 else 0
  {
    assert (rows + [row])[..|rows|] == rows;
  }

  lemma {:induction false} CopiesConcat(a: seq<TxRow>, b: seq<TxRow>, x: TxRow)
    ensures Copies(a + b, x) == Copies(a, x) + Copies(b, x)
  {
    if b == [] {
      assert a + b == a;
    } else {
      CopiesConcat(a, b[..|b| - 1], x);
      assert a + b == (a + b[..|b| - 1]) + [b[|b| - 1]];
      CopiesSnoc(a + b[..|b| - 1], b[|b| - 1], x);
    }
  }

  lemma {:induction false} ReplayPartitions(rows: seq<TxRow>, x: TxRow)
    ensures Copies(Replay(rows).accepted, x) + Copies(Replay(rows).rejected, x) == Copies(rows, x)
  {
    if rows != [] {
      var last := rows[|rows| - 1];
      var before := Replay(rows[..|rows| - 1]);
      ReplayPartitions(rows[..|rows| - 1], x);
      CopiesSnoc(before.rejected, last, x);
      match Try(before.running, last.item)
      case None =>
      case Some(next) =>
        var rebuilt := last.(item := last.item.(before := Finite(before.running), after := Finite(next)));
        CopiesSnoc(before.accepted, rebuilt, x);
    }
  }

  lemma {:induction false} CopiesInsert(s: seq<TxRow>, row: TxRow, x: TxRow)
    ensures Copies(Insert(s, row), x) == Copies(s, x) + if Bare(row) == Bare(x) then 1 else 0
  {
    if s == [] || KeyLe(s[|s| - 1].key, row.key) {
      CopiesSnoc(s, row, x);
    } else {
      CopiesInsert(s[..|s| - 1], row, x);
      CopiesSnoc(Insert(s[..|s| - 1], row), s[|s| - 1], x);
    }
  }

  lemma {:induction false} CopiesSort(s: seq<TxRow>, x: TxRow)
    ensures Copies(Sort(s), x) == Copies(s, x)
  {
    if s != [] {
      CopiesSort(s[..|s| - 1], x);
      CopiesInsert(Sort(s[..|s| - 1]), s[|s| - 1], x);
    }
  }

  /** Each row of a tenant ends up accepted or rejected, exactly once, and no other row does. */
  lemma TenantRowsArePartitioned(rows: seq<TxRow>, t: nat, x: TxRow)
    ensures var r := ReplayTenant(rows, t);
            Copies(r.accepted, x) + Copies(r.rejected, x) == Copies(RowsOfTenant(rows, t), x)
  {
    ReplayPartitions(Sort(RowsOfTenant(rows, t)), x);
    CopiesSort(RowsOfTenant(rows, t), x);
  }

  predicate Listed(accounts: seq<Account>, t: nat) {
    exists i | 0 <= i < |accounts| :: accounts[i].id == t
  }

  predicate DistinctIds(accounts: seq<Account>) {
    forall i, j | 0 <= i < j < |accounts| :: accounts[i].id != accounts[j].id
  }

  function OfListed(accounts: seq<Account>): TxRow -> bool {
    (row: TxRow) => Listed(accounts, row.item.tenant)
  }

  function RowsOfListed(accounts: seq<Account>, rows: seq<TxRow>): seq<TxRow> {
    Filter(rows, OfListed(accounts))
  }

  /** Splitting off the last account's rows. */
  lemma {:induction false} ListedSplit(accounts: seq<Account>, rows: seq<TxRow>, x: TxRow)
    requires accounts != [] && DistinctIds(accounts)
    ensures var last := |accounts| - 1;
            Copies(RowsOfListed(accounts, rows), x)
            == Copies(RowsOfListed(accounts[..last], rows), x) + Copies(RowsOfTenant(rows, accounts[last].id), x)
  {
    if rows != [] {
      var last := |accounts| - 1;
      var row := rows[|rows| - 1];
      ListedSplit(accounts, rows[..|rows| - 1], x);
      assert Listed(accounts, row.item.tenant)
             <==> Listed(accounts[..last], row.item.tenant) || accounts[last].id == row.item.tenant by {
        if Listed(accounts[..last], row.item.tenant) {
          var i :| 0 <= i < last && accounts[..last][i].id == row.item.tenant;
          assert accounts[i].id == row.item.tenant;
        }
        if Listed(accounts, row.item.tenant) && accounts[last].id != row.item.tenant {
          var i :| 0 <= i < |accounts| && accounts[i].id == row.item.tenant;
          assert accounts[..last][i].id == row.item.tenant;
        }
      }
      assert !(Listed(accounts[..last], row.item.tenant) && accounts[last].id == row.item.tenant);
      CopiesSnoc(RowsOfListed(accounts, rows[..|rows| - 1]), row, x);
      CopiesSnoc(RowsOfListed(accounts[..last], rows[..|rows| - 1]), row, x);
      CopiesSnoc(RowsOfTenant(rows[..|rows| - 1], accounts[last].id), row, x);
    }
  }

  /** Over all tenants: the rows of listed tenants are accepted or rejected exactly once; rows of unlisted
      tenants are dropped without a trace. */
  lemma {:induction false} RowsArePartitioned(accounts: seq<Account>, rows: seq<TxRow>, x: TxRow)
    requires DistinctIds(accounts)
    ensures var l := ReplayAll(accounts, rows);
            Copies(l.valid, x) + Copies(l.rejected, x) == Copies(RowsOfListed(accounts, rows), x)
  {
    if accounts == [] {
      NobodyListed(rows);
    } else {
      var last := |accounts| - 1;
      var done := ReplayAll(accounts[..last], rows);
      var r := ReplayTenant(rows, accounts[last].id);
      RowsArePartitioned(accounts[..last], rows, x);
      TenantRowsArePartitioned(rows, accounts[last].id, x);
      ListedSplit(accounts, rows, x);
      CopiesConcat(done.valid, r.accepted, x);
      CopiesConcat(done.rejected, r.rejected, x);
    }
  }

  lemma {:induction false} NobodyListed(rows: seq<TxRow>)
    ensures RowsOfListed([], rows) == []
  {
    if rows != [] {
      NobodyListed(rows[..|rows| - 1]);
    }
  }

  // ----- reservations -----

  /** What one active reservation of tenant t holds. */
  function Kept(x: Job, t: nat): real {
    if Holding(x, t) && x.reservedAmount.Finite? then x.reservedAmount.ticks else 0.0
  }

  function SumKept(jobs: seq<Job>, t: nat): real {
    if jobs == [] then 0.0 else SumKept(jobs[..|jobs| - 1], t) + Kept(jobs[|jobs| - 1], t)
  }

  function SumOver(jobs: seq<Job>, order: seq<Keyed<nat>>, t: nat): real
    requires forall i | 0 <= i < |order| :: order[i].item < |jobs|
  {
    if order == [] then 0.0
    else SumOver(jobs, order[..|order| - 1], t) + Kept(jobs[order[|order| - 1].item], t)
  }

  predicate Positions(order: seq<Keyed<nat>>, jobs: seq<Job>) {
    DistinctItems(order) && forall i | 0 <= i < |order| :: order[i].item < |jobs|
  }

  predicate Within(order: seq<Keyed<nat>>, k: nat) {
    exists i | 0 <= i < |order| :: order[i].item == k
  }

  lemma {:induction false} SumOverSame(a: seq<Job>, b: seq<Job>, order: seq<Keyed<nat>>, t: nat)
    requires forall i | 0 <= i < |order| :: order[i].item < |a| && order[i].item < |b|
    requires forall i | 0 <= i < |order| :: Kept(a[order[i].item], t) == Kept(b[order[i].item], t)
    ensures SumOver(a, order, t) == SumOver(b, order, t)
  {
    if order != [] {
      SumOverSame(a, b, order[..|order| - 1], t);
    }
  }

  lemma SumOverSnoc(jobs: seq<Job>, order: seq<Keyed<nat>>, x: Keyed<nat>, t: nat)
    requires x.item < |jobs| && forall i | 0 <= i < |order| :: order[i].item < |jobs|
    ensures SumOver(jobs, order + [x], t) == SumOver(jobs, order, t) + Kept(jobs[x.item], t)
  {
    assert (order + [x])[..|order|] == order;
  }

  lemma {:induction false} SumOverInsert(jobs: seq<Job>, order: seq<Keyed<nat>>, x: Keyed<nat>, t: nat)
    requires x.item < |jobs| && forall i | 0 <= i < |order| :: order[i].item < |jobs|
    ensures forall i | 0 <= i < |Insert(order, x)| :: Insert(order, x)[i].item < |jobs|
    ensures SumOver(jobs, Insert(order, x), t) == SumOver(jobs, order, t) + Kept(jobs[x.item], t)
  {
    if order == [] || KeyLe(order[|order| - 1].key, x.key) {
      SumOverSnoc(jobs, order, x, t);
    } else {
      SumOverInsert(jobs, order[..|order| - 1], x, t);
      SumOverSnoc(jobs, Insert(order[..|order| - 1], x), order[|order| - 1], t);
    }
  }

  lemma {:induction false} SumOverSort(jobs: seq<Job>, order: seq<Keyed<nat>>, t: nat)
    requires forall i | 0 <= i < |order| :: order[i].item < |jobs|
    ensures forall i | 0 <= i < |Sort(order)| :: Sort(order)[i].item < |jobs|
    ensures SumOver(jobs, Sort(order), t) == SumOver(jobs, order, t)
  {
    if order != [] {
      SumOverSort(jobs, order[..|order| - 1], t);
      SumOverInsert(jobs, Sort(order[..|order| - 1]), order[|order| - 1], t);
    }
  }

  lemma DistinctLast(order: seq<Keyed<nat>>)
    requires order != [] && DistinctItems(order)
    ensures DistinctItems(order[..|order| - 1]) && !Within(order[..|order| - 1], order[|order| - 1].item)
  {
  }

  /** Admitting in order leaves every other row alone, and keeps or invalidates each listed one. */
  lemma {:induction false} AdmitInOrderFrame(jobs: seq<Job>, order: seq<Keyed<nat>>, t: nat, available: Dec)
    requires Positions(order, jobs) && AdmitInOrder(jobs, order, t, available).Some?
    ensures var a := AdmitInOrder(jobs, order, t, available).value;
            && (forall k | 0 <= k < |jobs| && !Within(order, k) :: a.jobs[k] == jobs[k])
            && (forall i | 0 <= i < |order| ::
                  var k := order[i].item;
                  || (a.jobs[k] == jobs[k] && ValidUnit(jobs[k].reservedAmount))
                  || a.jobs[k] == Invalidate(jobs[k], UNFUNDED))
  {
    if order != [] {
      hide Exceeds, Invalidate, ValidUnit, DistinctItems;
      DistinctLast(order);
      var before := order[..|order| - 1];
      var last := order[|order| - 1];
      AdmitInOrderFrame(jobs, before, t, available);
      var b := AdmitInOrder(jobs, before, t, available).value;
      var a := AdmitInOrder(jobs, order, t, available).value;
      forall k | 0 <= k < |jobs| && !Within(order, k) ensures a.jobs[k] == jobs[k] {
        assert order[|order| - 1].item != k;
        assert forall i | 0 <= i < |before| :: before[i].item == order[i].item;
      }
      forall i | 0 <= i < |before| ensures a.jobs[order[i].item] == b.jobs[order[i].item] {
        assert before[i] == order[i];
      }
    }
  }

  /** What was reserved is exactly what the kept reservations hold, and does not exceed what is available. */
  lemma {:induction false} AdmitInOrderSum(jobs: seq<Job>, order: seq<Keyed<nat>>, t: nat, available: Dec)
    requires Positions(order, jobs) && AdmitInOrder(jobs, order, t, available).Some?
    requires forall i | 0 <= i < |order| :: Holding(jobs[order[i].item], t)
    ensures var a := AdmitInOrder(jobs, order, t, available).value;
            && a.reserved == SumOver(a.jobs, order, t)
            && a.reserved >= 0.0
            && (a.reserved > 0.0 ==> Exceeds(a.reserved, available) == Some(false))
  {
    if order != [] {
      var before := order[..|order| - 1];
      var last := order[|order| - 1];
      AdmitInOrderSum(jobs, before, t, available);
      AdmitInOrderFrame(jobs, before, t, available);
      var b := AdmitInOrder(jobs, before, t, available).value;
      var a := AdmitInOrder(jobs, order, t, available).value;
      assert !Within(before, last.item);
      assert b.jobs[last.item] == jobs[last.item];
      forall i | 0 <= i < |before| ensures a.jobs[before[i].item] == b.jobs[before[i].item] {
        assert before[i] == order[i];
      }
      SumOverSame(a.jobs, b.jobs, before, t);
    }
  }

  lemma {:induction false} ActiveHoldsPositions(jobs: seq<Job>, t: nat)
    ensures Positions(ActiveHolds(jobs, t), jobs)
    ensures forall k: nat | k < |jobs| :: Holding(jobs[k], t) <==> Within(ActiveHolds(jobs, t), k)
    ensures forall i | 0 <= i < |ActiveHolds(jobs, t)| ::
              ActiveHolds(jobs, t)[i] == Keyed(jobs[ActiveHolds(jobs, t)[i].item].key, ActiveHolds(jobs, t)[i].item)
  {
    if jobs != [] {
      var last := |jobs| - 1;
      var before := ActiveHolds(jobs[..last], t);
      var all := ActiveHolds(jobs, t);
      ActiveHoldsPositions(jobs[..last], t);
      forall k: nat | k < |jobs| ensures Holding(jobs[k], t) <==> Within(all, k) {
        if k < last {
          if Within(before, k) {
            var i :| 0 <= i < |before| && before[i].item == k;
            assert all[i].item == k;
          }
          if Within(all, k) {
            var i :| 0 <= i < |all| && all[i].item == k;
            assert before[i].item == k;
          }
        } else if Holding(jobs[k], t) {
          assert all[|before|].item == k;
        }
      }
    }
  }

  lemma SortedHolds(jobs: seq<Job>, t: nat)
    ensures var order: seq<Keyed<nat>> := Sort<nat>(ActiveHolds(jobs, t));
            && Positions(order, jobs)
            && (forall i | 0 <= i < |order| :: Holding(jobs[order[i].item], t))
            && (forall k: nat | k < |jobs| :: Holding(jobs[k], t) <==> Within(order, k))
  {
    var holds := ActiveHolds(jobs, t);
    var order: seq<Keyed<nat>> := Sort<nat>(holds);
    ActiveHoldsPositions(jobs, t);
    SortDistinct(holds);
    SortPermutes(holds);
    forall i | 0 <= i < |order| ensures order[i].item < |jobs| && Holding(jobs[order[i].item], t) {
      assert order[i] in holds;
    }
    forall k: nat | k < |jobs| && Holding(jobs[k], t) ensures Within(order, k) {
      var i :| 0 <= i < |holds| && holds[i].item == k;
      assert holds[i] in multiset(order);
      assert holds[i] in order;
      var j :| 0 <= j < |order| && order[j] == holds[i];
    }
  }

  lemma {:induction false} SumKeptIsSumOver(before: seq<Job>, jobs: seq<Job>, t: nat)
    requires |before| == |jobs|
    requires forall k | 0 <= k < |jobs| && !Holding(before[k], t) :: Kept(jobs[k], t) == 0.0
    ensures SumKept(jobs, t) == SumOver(jobs, ActiveHolds(before, t), t)
  {
    if jobs != [] {
      var last := |jobs| - 1;
      SumKeptIsSumOver(before[..last], jobs[..last], t);
      SumOverSame(jobs, jobs[..last], ActiveHolds(before[..last], t), t);
      if Holding(before[last], t) {
        SumOverSnoc(jobs, ActiveHolds(before[..last], t), Keyed(before[last].key, last), t);
      }
    }
  }

  /** One tenant's turn of the third loop. */
  lemma AdmitTenantFacts(jobs: seq<Job>, t: nat, available: Dec)
    requires AdmitTenant(jobs, t, available).Some?
    ensures var a := AdmitTenant(jobs, t, available).value;
            && (forall k | 0 <= k < |jobs| ::
                  || a.jobs[k] == jobs[k]
                  || (Holding(jobs[k], t) && a.jobs[k] == Invalidate(jobs[k], UNFUNDED)))
            && (forall k | 0 <= k < |jobs| && Holding(a.jobs[k], t) :: ValidUnit(a.jobs[k].reservedAmount))
            && a.reserved == SumKept(a.jobs, t) >= 0.0
            && (a.reserved > 0.0 ==> Exceeds(a.reserved, available) == Some(false))
  {
    var order: seq<Keyed<nat>> := Sort<nat>(ActiveHolds(jobs, t));
    SortedHolds(jobs, t);
    AdmitInOrderFrame(jobs, order, t, available);
    AdmitInOrderSum(jobs, order, t, available);
    var a := AdmitInOrder(jobs, order, t, available).value;
    forall k | 0 <= k < |jobs|
      ensures || (a.jobs[k] == jobs[k] && (Holding(jobs[k], t) ==> ValidUnit(jobs[k].reservedAmount)))
              || (Holding(jobs[k], t) && a.jobs[k] == Invalidate(jobs[k], UNFUNDED))
    {
      if Within(order, k) {
        var i :| 0 <= i < |order| && order[i].item == k;
      }
    }
    SumKeptIsSumOver(jobs, a.jobs, t);
    SumOverSort(a.jobs, ActiveHolds(jobs, t), t);
  }

  lemma {:induction false} SumKeptSame(a: seq<Job>, b: seq<Job>, t: nat)
    requires |a| == |b| && forall k | 0 <= k < |a| :: Kept(a[k], t) == Kept(b[k], t)
    ensures SumKept(a, t) == SumKept(b, t)
  {
    if a != [] {
      SumKeptSame(a[..|a| - 1], b[..|b| - 1], t);
    }
  }

  /** The rebuilt reserved balance of an account is what its surviving reservations hold, and is covered. */
  predicate Covered(account: Account, jobs: seq<Job>) {
    var kept := SumKept(jobs, account.id);
    && account.reserved == Finite(kept) && kept >= 0.0
    && (kept > 0.0 ==> Exceeds(kept, account.balance) == Some(false))
  }

  lemma {:induction false} AdmitAllJobs(accounts: seq<Account>, jobs: seq<Job>)
    requires AdmitAll(accounts, jobs).Some?
    ensures var f := AdmitAll(accounts, jobs).value;
            forall k | 0 <= k < |jobs| ::
              || f.jobs[k] == jobs[k]
              || (f.jobs[k] == Invalidate(jobs[k], UNFUNDED) && Listed(accounts, jobs[k].tenant))
  {
    if accounts != [] {
      var last := |accounts| - 1;
      AdmitAllJobs(accounts[..last], jobs);
      var before := AdmitAll(accounts[..last], jobs).value;
      var f := AdmitAll(accounts, jobs).value;
      AdmitTenantFacts(before.jobs, accounts[last].id, accounts[last].balance);
      forall k | 0 <= k < |jobs|
        ensures || f.jobs[k] == jobs[k]
                || (f.jobs[k] == Invalidate(jobs[k], UNFUNDED) && Listed(accounts, jobs[k].tenant))
      {
        if Listed(accounts[..last], jobs[k].tenant) {
          var i :| 0 <= i < last && accounts[..last][i].id == jobs[k].tenant;
          assert accounts[i].id == jobs[k].tenant;
        }
      }
    }
  }

  lemma CoveredStays(account: Account, before: seq<Job>, after: seq<Job>, t: nat)
    requires Covered(account, before) && |before| == |after| && t != account.id
    requires forall k | 0 <= k < |before| ::
               after[k] == before[k] || (Holding(before[k], t) && after[k] == Invalidate(before[k], UNFUNDED))
    ensures Covered(account, after)
  {
    SumKeptSame(before, after, account.id);
  }

  lemma {:induction false} AdmitAllCovers(accounts: seq<Account>, jobs: seq<Job>)
    requires DistinctIds(accounts) && AdmitAll(accounts, jobs).Some?
    ensures var f := AdmitAll(accounts, jobs).value;
            forall i | 0 <= i < |accounts| ::
              && f.accounts[i].id == accounts[i].id && f.accounts[i].balance == accounts[i].balance
              && Covered(f.accounts[i], f.jobs)
  {
    if accounts != [] {
      var last := |accounts| - 1;
      var account := accounts[last];
      AdmitAllCovers(accounts[..last], jobs);
      var before := AdmitAll(accounts[..last], jobs).value;
      var f := AdmitAll(accounts, jobs).value;
      AdmitTenantFacts(before.jobs, account.id, account.balance);
      forall i | 0 <= i < last
        ensures f.accounts[i].id == accounts[i].id && f.accounts[i].balance == accounts[i].balance
        ensures Covered(f.accounts[i], f.jobs)
      {
        assert accounts[..last][i] == accounts[i] && f.accounts[i] == before.accounts[i];
        CoveredStays(f.accounts[i], before.jobs, f.jobs, account.id);
      }
    }
  }

  lemma {:induction false} ReplayAllAccounts(accounts: seq<Account>, rows: seq<TxRow>)
    ensures |ReplayAll(accounts, rows).accounts| == |accounts|
    ensures forall i | 0 <= i < |accounts| ::
              ReplayAll(accounts, rows).accounts[i] == Settle(accounts[i], ReplayTenant(rows, accounts[i].id))
  {
    if accounts != [] {
      ReplayAllAccounts(accounts[..|accounts| - 1], rows);
    }
  }

  lemma DistinctIdsStay(accounts: seq<Account>, rows: seq<TxRow>)
    requires DistinctIds(accounts)
    ensures DistinctIds(ReplayAll(accounts, rows).accounts)
  {
    ReplayAllAccounts(accounts, rows);
  }

  /** The balance a tenant leaves the first loop with. */
  lemma SettledBalance(account: Account, rows: seq<TxRow>)
    ensures var r := ReplayTenant(rows, account.id);
            var balance := Settle(account, r).balance;
            if r.accepted == [] then balance == account.balance
            else balance == r.accepted[|r.accepted| - 1].item.after
                 && balance.Finite? && 0.0 <= balance.ticks <= MAX_ACCOUNT_BALANCE as real
  {
    ReplayChains(Sort(RowsOfTenant(rows, account.id)));
  }

  lemma RebuiltAccount(s: Tables, i: nat)
    requires DistinctIds(s.accounts) && i < |s.accounts| && RebuildLedgers(s).Some?
    ensures var s' := RebuildLedgers(s).value.0;
            && |s'.accounts| == |s.accounts| && s'.accounts[i].id == s.accounts[i].id
            && s'.accounts[i].balance == Settle(s.accounts[i], ReplayTenant(s.rows, s.accounts[i].id)).balance
            && Covered(s'.accounts[i], s'.jobs)
  {
    hide ReplayAll, ReplayTenant, ScreenAll, AdmitAll, Covered, DistinctIds;
    var ledgers := ReplayAll(s.accounts, s.rows);
    ReplayAllAccounts(s.accounts, s.rows);
    DistinctIdsStay(s.accounts, s.rows);
    AdmitAllCovers(ledgers.accounts, ScreenAll(s.jobs, ledgers.rejected));
  }

  /** On arbitrary legacy data with one row per tenant id: the rebuilt balance is where the accepted rows
      end, or the stored one if there are none; the rebuilt reserved balance is the sum over the
      reservations that survive; and unless a stored balance without accepted rows is negative or not
      finite, it lies between 0 and the rebuilt balance. */
  lemma ReservationsAreCovered(s: Tables, i: nat)
    requires DistinctIds(s.accounts) && i < |s.accounts| && RebuildLedgers(s).Some?
    ensures var s' := RebuildLedgers(s).value.0;
            var accepted := ReplayTenant(s.rows, s.accounts[i].id).accepted;
            var stored := s.accounts[i].balance;
            && |s'.accounts| == |s.accounts|
            && var account := s'.accounts[i];
               && account.balance == (if accepted == [] then stored else accepted[|accepted| - 1].item.after)
               && account.reserved == Finite(SumKept(s'.jobs, s.accounts[i].id))
               && (accepted != [] || (stored.Finite? && stored.ticks >= 0.0) ==>
                     account.balance.Finite? && 0.0 <= account.reserved.ticks <= account.balance.ticks)
  {
    hide RebuildLedgers, ReplayTenant, DistinctIds, SumKept;
    RebuiltAccount(s, i);
    SettledBalance(s.accounts[i], s.rows);
  }

  // ----- the exception -----

  lemma {:induction false} AdmitInOrderRaises(jobs: seq<Job>, order: seq<Keyed<nat>>, t: nat, available: Dec)
    requires Positions(order, jobs)
    ensures AdmitInOrder(jobs, order, t, available).None?
            <==> available == NaN && exists i | 0 <= i < |order| :: ValidUnit(jobs[order[i].item].reservedAmount)
  {
    if order != [] {
      var before := order[..|order| - 1];
      AdmitInOrderRaises(jobs, before, t, available);
      if AdmitInOrder(jobs, before, t, available).Some? {
        AdmitInOrderFrame(jobs, before, t, available);
        assert !Within(before, order[|order| - 1].item);
        if available == NaN {
          assert forall i | 0 <= i < |before| :: order[i] == before[i];
        }
      } else {
        var i :| 0 <= i < |before| && ValidUnit(jobs[before[i].item].reservedAmount);
        assert order[i] == before[i];
      }
    }
  }

  /** A tenant whose balance does not parse, with an active reservation of a valid amount. */
  predicate Uncomparable(account: Account, jobs: seq<Job>) {
    account.balance == NaN
    && exists k | 0 <= k < |jobs| :: Holding(jobs[k], account.id) && ValidUnit(jobs[k].reservedAmount)
  }

  lemma AdmitTenantRaises(jobs: seq<Job>, account: Account)
    ensures AdmitTenant(jobs, account.id, account.balance).None? <==> Uncomparable(account, jobs)
  {
    var order: seq<Keyed<nat>> := Sort<nat>(ActiveHolds(jobs, account.id));
    SortedHolds(jobs, account.id);
    AdmitInOrderRaises(jobs, order, account.id, account.balance);
    if Uncomparable(account, jobs) {
      var k :| 0 <= k < |jobs| && Holding(jobs[k], account.id) && ValidUnit(jobs[k].reservedAmount);
      assert Within(order, k);
    }
  }

  /** The turns before a tenant's own leave its jobs as they are. */
  lemma TurnRaises(accounts: seq<Account>, jobs: seq<Job>, f: Funded, account: Account)
    requires AdmitAll(accounts, jobs) == Some(f) && !Listed(accounts, account.id)
    ensures AdmitTenant(f.jobs, account.id, account.balance).None? <==> Uncomparable(account, jobs)
  {
    hide AdmitTenant, AdmitAll, Listed;
    AdmitTenantRaises(f.jobs, account);
    AdmitAllJobs(accounts, jobs);
    forall k | 0 <= k < |jobs|
      ensures if jobs[k].tenant == account.id then f.jobs[k] == jobs[k] else f.jobs[k].tenant != account.id
    {
    }
  }

  predicate SomeUncomparable(accounts: seq<Account>, jobs: seq<Job>) {
    exists i | 0 <= i < |accounts| :: Uncomparable(accounts[i], jobs)
  }

  lemma SomeUncomparableSnoc(accounts: seq<Account>, jobs: seq<Job>)
    requires accounts != []
    ensures var last := |accounts| - 1;
            SomeUncomparable(accounts, jobs)
            <==> SomeUncomparable(accounts[..last], jobs) || Uncomparable(accounts[last], jobs)
  {
    hide Uncomparable;
    var last := |accounts| - 1;
    if SomeUncomparable(accounts[..last], jobs) {
      var i :| 0 <= i < last && Uncomparable(accounts[..last][i], jobs);
      assert Uncomparable(accounts[i], jobs);
    }
    if SomeUncomparable(accounts, jobs) && !Uncomparable(accounts[last], jobs) {
      var i :| 0 <= i < |accounts| && Uncomparable(accounts[i], jobs);
      assert Uncomparable(accounts[..last][i], jobs);
    }
  }

  lemma {:induction false} AdmitAllRaises(accounts: seq<Account>, jobs: seq<Job>)
    requires DistinctIds(accounts)
    ensures AdmitAll(accounts, jobs).None? <==> SomeUncomparable(accounts, jobs)
  {
    hide AdmitTenant, Uncomparable, SomeUncomparable;
    if accounts == [] {
      NoneUncomparable(jobs);
    } else {
      var last := |accounts| - 1;
      AdmitAllRaises(accounts[..last], jobs);
      SomeUncomparableSnoc(accounts, jobs);
      match AdmitAll(accounts[..last], jobs)
      case None =>
      case Some(f) =>
        assert !Listed(accounts[..last], accounts[last].id);
        TurnRaises(accounts[..last], jobs, f, accounts[last]);
    }
  }

  lemma NoneUncomparable(jobs: seq<Job>)
    ensures !SomeUncomparable([], jobs)
  {
  }

  /** The migration stops with an exception exactly if some tenant's balance does not parse, no ledger row
      of that tenant was accepted, and after screening it still has an active reservation of a valid amount. */
  lemma RaisesExactly(s: Tables)
    requires DistinctIds(s.accounts)
    ensures RebuildLedgers(s).None?
            <==> exists i | 0 <= i < |s.accounts| ::
                   && ReplayTenant(s.rows, s.accounts[i].id).accepted == []
                   && Uncomparable(s.accounts[i], ScreenAll(s.jobs, ReplayAll(s.accounts, s.rows).rejected))
  {
    hide ReplayAll, ReplayTenant, ScreenAll, AdmitAll, DistinctIds;
    var ledgers := ReplayAll(s.accounts, s.rows);
    var jobs := ScreenAll(s.jobs, ledgers.rejected);
    ReplayAllAccounts(s.accounts, s.rows);
    DistinctIdsStay(s.accounts, s.rows);
    AdmitAllRaises(ledgers.accounts, jobs);
    forall i | 0 <= i < |s.accounts|
      ensures Uncomparable(ledgers.accounts[i], jobs)
              <==> ReplayTenant(s.rows, s.accounts[i].id).accepted == [] && Uncomparable(s.accounts[i], jobs)
    {
    }
  }
}
