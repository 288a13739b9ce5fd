/** Running rebuild_ledgers on its own output accepts every row and changes nothing. */
module RebuildAgain {
  import opened Wrappers
  import opened Sorting
  import opened Rebuild
  import opened RebuildProofs

  // ----- the ledgers -----

  lemma ReplaySnoc(rows: seq<TxRow>, row: TxRow)
    ensures Replay(rows + [row]) == ReplayRow(Replay(rows), row)
  {
    assert (rows + [row])[..|rows|] == rows;
  }

  /** An accepted row, met again at the same balance, is accepted unchanged. */
  lemma RowAgain(r: Replayed, row: TxRow)
    requires Try(r.running, row.item).Some?
    ensures var after := ReplayRow(r, row);
            && |after.accepted| == |r.accepted| + 1
            && ReplayRow(Replayed(r.accepted, [], r.running), after.accepted[|r.accepted|])
               == Replayed(after.accepted, [], after.running)
  {
    var again := ReplayRow(r, row).accepted[|r.accepted|];
    assert Try(r.running, again.item) == Try(r.running, row.item);
    assert again.(item := again.item.(before := Finite(r.running), after := again.item.after)) == again;
  }

  lemma {:induction false} ReplayAgain(rows: seq<TxRow>)
    ensures Replay(Replay(rows).accepted) == Replayed(Replay(rows).accepted, [], Replay(rows).running)
  {
    if rows != [] {
      var before := Replay(rows[..|rows| - 1]);
      var last := rows[|rows| - 1];
      ReplayAgain(rows[..|rows| - 1]);
      if Try(before.running, last.item).Some? {
        RowAgain(before, last);
        var after := ReplayRow(before, last);
        ReplaySnoc(before.accepted, after.accepted[|before.accepted|]);
        assert after.accepted == before.accepted + [after.accepted[|before.accepted|]];
      }
    }
  }

  /** Accepted rows stay in order and stay their tenant's. */
  lemma {:induction false} AcceptedKeysAreRows(rows: seq<TxRow>, bound: Key, t: nat)
    requires Sorted(rows) && forall i | 0 <= i < |rows| :: KeyLe(rows[i].key, bound) && rows[i].item.tenant == t
    ensures var accepted := Replay(rows).accepted;
            Sorted(accepted)
            && forall i | 0 <= i < |accepted| :: KeyLe(accepted[i].key, bound) && accepted[i].item.tenant == t
  {
    if rows != [] {
      var last := rows[|rows| - 1];
      AcceptedKeysAreRows(rows[..|rows| - 1], last.key, t);
      var accepted := Replay(rows[..|rows| - 1]).accepted;
      forall i | 0 <= i < |accepted| ensures KeyLe(accepted[i].key, bound) {
        KeyLeTransitive(accepted[i].key, last.key, bound);
      }
    }
  }

  lemma {:induction false} FilterIn<T>(s: seq<T>, p: T -> bool)
    ensures forall i | 0 <= i < |Filter(s, p)| :: p(Filter(s, p)[i])
  {
    if s != [] {
      FilterIn(s[..|s| - 1], p);
    }
  }

  lemma {:induction false} FilterAll<T>(s: seq<T>, p: T -> bool)
    requires forall i | 0 <= i < |s| :: p(s[i])
    ensures Filter(s, p) == s
  {
    if s != [] {
      FilterAll(s[..|s| - 1], p);
    }
  }

  lemma {:induction false} FilterNone<T>(s: seq<T>, p: T -> bool)
    requires forall i | 0 <= i < |s| :: !p(s[i])
    ensures Filter(s, p) == []
  {
    if s != [] {
      FilterNone(s[..|s| - 1], p);
    }
  }

  lemma {:induction false} FilterConcat<T>(a: seq<T>, b: seq<T>, p: T -> bool)
    ensures Filter(a + b, p) == Filter(a, p) + Filter(b, p)
  {
    if b == [] {
      assert a + b == a;
    } else {
      FilterConcat(a, b[..|b| - 1], p);
      assert a + b == (a + b[..|b| - 1]) + [b[|b| - 1]];
      FilterSnoc(a + b[..|b| - 1], b[|b| - 1], p);
    }
  }

  lemma AcceptedOfTenant(rows: seq<TxRow>, t: nat)
    ensures var accepted := ReplayTenant(rows, t).accepted;
            && Sorted(accepted) && RowsOfTenant(accepted, t) == accepted
            && (forall u: nat | u != t :: RowsOfTenant(accepted, u) == [])
            && Replay(accepted) == Replayed(accepted, [], ReplayTenant(rows, t).running)
  {
    var mine := RowsOfTenant(rows, t);
    var sorted := Sort(mine);
    FilterIn(rows, OfTenant(t));
    SortSorts(mine);
    SortPermutes(mine);
    if sorted != [] {
      var bound := sorted[|sorted| - 1].key;
      KeyLeTotal(bound, bound);
      forall i | 0 <= i < |sorted| ensures KeyLe(sorted[i].key, bound) && sorted[i].item.tenant == t {
        assert sorted[i] in mine;
      }
      AcceptedKeysAreRows(sorted, bound, t);
    }
    var accepted := Replay(sorted).accepted;
    ReplayAgain(sorted);
    FilterAll(accepted, OfTenant(t));
    forall u: nat | u != t ensures RowsOfTenant(accepted, u) == [] {
      FilterNone(accepted, OfTenant(u));
    }
  }

  lemma {:induction false} ValidOfTenant(accounts: seq<Account>, rows: seq<TxRow>, t: nat)
    requires DistinctIds(accounts)
    ensures RowsOfTenant(ReplayAll(accounts, rows).valid, t)
            == if Listed(accounts, t) then ReplayTenant(rows, t).accepted else []
  {
    if accounts != [] {
      var last := |accounts| - 1;
      var before := ReplayAll(accounts[..last], rows).valid;
      var accepted := ReplayTenant(rows, accounts[last].id).accepted;
      ValidOfTenant(accounts[..last], rows, t);
      AcceptedOfTenant(rows, accounts[last].id);
      FilterConcat(before, accepted, OfTenant(t));
      ListedSnoc(accounts, t);
      if accounts[last].id == t {
        assert [] + accepted == accepted;
      } else {
        assert RowsOfTenant(accepted, t) == [];
        assert RowsOfTenant(before, t) + [] == RowsOfTenant(before, t);
      }
    }
  }

  lemma ListedSnoc(accounts: seq<Account>, t: nat)
    requires accounts != [] && DistinctIds(accounts)
    ensures var last := |accounts| - 1;
            && (Listed(accounts, t) <==> Listed(accounts[..last], t) || accounts[last].id == t)
            && !(Listed(accounts[..last], t) && accounts[last].id == t)
  {
    var last := |accounts| - 1;
    forall i | 0 <= i < last ensures accounts[..last][i] == accounts[i] {
    }
    if Listed(accounts, t) && accounts[last].id != t {
      var i :| 0 <= i < |accounts| && accounts[i].id == t;
      assert accounts[..last][i].id == t;
    }
  }

  lemma TenantAgain(accounts: seq<Account>, rows: seq<TxRow>, t: nat)
    requires DistinctIds(accounts) && Listed(accounts, t)
    ensures var accepted := ReplayTenant(rows, t).accepted;
            ReplayTenant(ReplayAll(accounts, rows).valid, t)
            == Replayed(accepted, [], ReplayTenant(rows, t).running)
  {
    ValidOfTenant(accounts, rows, t);
    AcceptedOfTenant(rows, t);
    SortOfSorted(ReplayTenant(rows, t).accepted);
  }

  lemma ReplayAllSnoc(accounts: seq<Account>, n: nat, rows: seq<TxRow>)
    requires 0 < n <= |accounts|
    ensures var done := ReplayAll(accounts[..n - 1], rows);
            var r := ReplayTenant(rows, accounts[n - 1].id);
            ReplayAll(accounts[..n], rows)
            == Ledgers(done.accounts + [Settle(accounts[n - 1], r)], done.valid + r.accepted,
                       done.rejected + r.rejected)
  {
    assert accounts[..n][..n - 1] == accounts[..n - 1];
  }

  /** An account that left the first loop, whatever its reserved balance is now. */
  predicate LeftFirstLoop(account: Account, from: Account, rows: seq<TxRow>) {
    account.id == from.id && account.balance == Settle(from, ReplayTenant(rows, from.id)).balance
  }

  lemma SettleAgain(all: seq<Account>, rows: seq<TxRow>, i: nat, account: Account)
    requires DistinctIds(all) && i < |all| && LeftFirstLoop(account, all[i], rows)
    ensures var again := ReplayTenant(ReplayAll(all, rows).valid, account.id);
            && again.accepted == ReplayTenant(rows, all[i].id).accepted && again.rejected == []
            && Settle(account, again) == account
  {
    assert Listed(all, all[i].id);
    TenantAgain(all, rows, all[i].id);
  }

  /** Replaying `valid` for this account accepts again what `rows` gave it, and settles nothing new. */
  predicate Repeats(account: Account, rows: seq<TxRow>, valid: seq<TxRow>) {
    var again := ReplayTenant(valid, account.id);
    && again.accepted == ReplayTenant(rows, account.id).accepted && again.rejected == []
    && Settle(account, again) == account
  }

  /** The first loop on rows that every account repeats, for a prefix of the accounts. */
  lemma {:induction false} LedgersAgain(all: seq<Account>, rows: seq<TxRow>, accounts: seq<Account>,
                                        valid: seq<TxRow>, n: nat)
    requires n <= |all| == |accounts|
    requires forall i | 0 <= i < |all| :: accounts[i].id == all[i].id && Repeats(accounts[i], rows, valid)
    ensures ReplayAll(accounts[..n], valid).accounts == accounts[..n]
    ensures ReplayAll(accounts[..n], valid).valid == ReplayAll(all[..n], rows).valid
    ensures ReplayAll(accounts[..n], valid).rejected == []
  {
    hide ReplayTenant;
    if n > 0 {
      LedgersAgain(all, rows, accounts, valid, n - 1);
      ReplayAllSnoc(all, n, rows);
      ReplayAllSnoc(accounts, n, valid);
      assert Repeats(accounts[n - 1], rows, valid);
      assert accounts[..n] == accounts[..n - 1] + [accounts[n - 1]];
    }
  }

  // ----- the reservations -----

  /** Selecting what still holds, after the whole migration produced `final`. */
  function Still(final: seq<Job>, t: nat): Keyed<nat> -> bool {
    (x: Keyed<nat>) => x.item < |final| && Holding(final[x.item], t)
  }

  lemma {:induction false} ActiveHoldsAgain(jobs: seq<Job>, final: seq<Job>, whole: seq<Job>, t: nat)
    requires |jobs| == |final| <= |whole| && final == whole[..|final|]
    requires forall k | 0 <= k < |jobs| ::
               final[k] == jobs[k] || (Holding(jobs[k], t) && final[k] == Invalidate(jobs[k], UNFUNDED))
               || (jobs[k].tenant != t && final[k].tenant != t)
    ensures ActiveHolds(final, t) == Filter(ActiveHolds(jobs, t), Still(whole, t))
  {
    if jobs != [] {
      var last := |jobs| - 1;
      assert final[..last] == whole[..last];
      ActiveHoldsAgain(jobs[..last], final[..last], whole, t);
    }
  }

  /** One reservation again: a kept one is kept at the same sum, and a refused one no longer holds. */
  lemma AdmitJobAgain(b: Admitted, k: nat, t: nat, available: Dec, final: seq<Job>)
    requires k < |b.jobs| == |final| && Holding(b.jobs[k], t) && AdmitJob(b, k, t, available).Some?
    requires final[k] == AdmitJob(b, k, t, available).value.jobs[k]
    ensures var a := AdmitJob(b, k, t, available).value;
            if Holding(final[k], t)
            then AdmitJob(Admitted(final, b.reserved, []), k, t, available) == Some(Admitted(final, a.reserved, []))
            else a.reserved == b.reserved
  {
  }

  lemma {:induction false} AdmitInOrderAgain(jobs: seq<Job>, order: seq<Keyed<nat>>, t: nat, available: Dec,
                                             final: seq<Job>)
    requires Positions(order, jobs) && |final| == |jobs| && AdmitInOrder(jobs, order, t, available).Some?
    requires forall i | 0 <= i < |order| :: Holding(jobs[order[i].item], t)
    requires forall i | 0 <= i < |order| ::
               final[order[i].item] == AdmitInOrder(jobs, order, t, available).value.jobs[order[i].item]
    ensures var kept := Filter(order, Still(final, t));
            && (forall i | 0 <= i < |kept| :: kept[i].item < |final|)
            && AdmitInOrder(final, kept, t, available)
               == Some(Admitted(final, AdmitInOrder(jobs, order, t, available).value.reserved, []))
  {
    FilterIn(order, Still(final, t));
    if order != [] {
      var before := order[..|order| - 1];
      var last := order[|order| - 1];
      var a := AdmitInOrder(jobs, before, t, available).value;
      AdmitInOrderFrame(jobs, before, t, available);
      assert !Within(before, last.item);
      forall i | 0 <= i < |before| ensures final[before[i].item] == a.jobs[before[i].item] {
        assert before[i] == order[i];
      }
      AdmitInOrderAgain(jobs, before, t, available, final);
      AdmitJobAgain(a, last.item, t, available, final);
      var kept := Filter(before, Still(final, t));
      if Holding(final[last.item], t) {
        assert Filter(order, Still(final, t)) == kept + [last];
        assert (kept + [last])[..|kept|] == kept;
      } else {
        assert Filter(order, Still(final, t)) == kept;
      }
    }
  }

  lemma AdmitTenantAgain(jobs: seq<Job>, t: nat, available: Dec, final: seq<Job>)
    requires |final| == |jobs| && AdmitTenant(jobs, t, available).Some?
    requires forall k | 0 <= k < |jobs| ::
               if jobs[k].tenant == t then final[k] == AdmitTenant(jobs, t, available).value.jobs[k]
               else final[k].tenant != t
    ensures AdmitTenant(final, t, available)
            == Some(Admitted(final, AdmitTenant(jobs, t, available).value.reserved, []))
  {
    var order: seq<Keyed<nat>> := Sort<nat>(ActiveHolds(jobs, t));
    SortedHolds(jobs, t);
    AdmitTenantFacts(jobs, t, available);
    assert final == final[..|final|];
    ActiveHoldsAgain(jobs, final, final, t);
    FilterSort(ActiveHolds(jobs, t), Still(final, t));
    AdmitInOrderAgain(jobs, order, t, available, final);
  }

  lemma AdmitAllSnoc(accounts: seq<Account>, n: nat, jobs: seq<Job>)
    requires 0 < n <= |accounts| && AdmitAll(accounts[..n], jobs).Some?
    ensures AdmitAll(accounts[..n - 1], jobs).Some?
    ensures var f := AdmitAll(accounts[..n - 1], jobs).value;
            var account := accounts[n - 1];
            && AdmitTenant(f.jobs, account.id, account.balance).Some?
            && var a := AdmitTenant(f.jobs, account.id, account.balance).value;
               AdmitAll(accounts[..n], jobs).value
               == Funded(f.accounts + [account.(reserved := Finite(a.reserved))], a.jobs, f.rejected + a.rejected)
  {
    assert accounts[..n][..n - 1] == accounts[..n - 1];
  }

  /** The jobs of already treated tenants are left alone by the turns of the others. */
  lemma {:induction false} AdmitAllLater(accounts: seq<Account>, jobs: seq<Job>, n: nat, m: nat)
    requires DistinctIds(accounts) && n <= m <= |accounts| && AdmitAll(accounts[..m], jobs).Some?
    ensures AdmitAll(accounts[..n], jobs).Some?
    ensures var f := AdmitAll(accounts[..m], jobs).value;
            var mid := AdmitAll(accounts[..n], jobs).value;
            && f.accounts[..n] == mid.accounts
            && (forall k | 0 <= k < |jobs| ::
                  f.jobs[k].tenant == jobs[k].tenant == mid.jobs[k].tenant
                  && (Listed(accounts[..n], jobs[k].tenant) ==> f.jobs[k] == mid.jobs[k]))
    decreases m
  {
    hide AdmitTenant;
    AdmitAllJobs(accounts[..m], jobs);
    if n < m {
      AdmitAllSnoc(accounts, m, jobs);
      AdmitAllLater(accounts, jobs, n, m - 1);
      var before := AdmitAll(accounts[..m - 1], jobs).value;
      AdmitTenantFacts(before.jobs, accounts[m - 1].id, accounts[m - 1].balance);
      forall k | 0 <= k < |jobs| && Listed(accounts[..n], jobs[k].tenant)
        ensures jobs[k].tenant != accounts[m - 1].id
      {
        var i :| 0 <= i < n && accounts[..n][i].id == jobs[k].tenant;
        assert accounts[i].id == jobs[k].tenant;
      }
    }
  }

  lemma AdmitAllStep(accounts: seq<Account>, account: Account, jobs: seq<Job>, f: Funded, a: Admitted)
    requires AdmitAll(accounts, jobs) == Some(f) && AdmitTenant(f.jobs, account.id, account.balance) == Some(a)
    ensures AdmitAll(accounts + [account], jobs)
            == Some(Funded(f.accounts + [account.(reserved := Finite(a.reserved))], a.jobs, f.rejected + a.rejected))
  {
    assert (accounts + [account])[..|accounts|] == accounts;
  }

  /** One tenant's turn again. */
  lemma AdmitTurnAgain(accounts: seq<Account>, jobs: seq<Job>, n: nat)
    requires DistinctIds(accounts) && 0 < n <= |accounts| && AdmitAll(accounts, jobs).Some?
    ensures var f := AdmitAll(accounts, jobs).value;
            && |f.accounts| == |accounts|
            && f.accounts[n - 1].reserved.Finite?
            && AdmitTenant(f.jobs, f.accounts[n - 1].id, f.accounts[n - 1].balance)
               == Some(Admitted(f.jobs, f.accounts[n - 1].reserved.ticks, []))
  {
    hide AdmitTenant;
    var f := AdmitAll(accounts, jobs).value;
    assert accounts[..|accounts|] == accounts;
    AdmitAllLater(accounts, jobs, n, |accounts|);
    AdmitAllLater(accounts, jobs, n - 1, n);
    AdmitAllSnoc(accounts, n, jobs);
    var before := AdmitAll(accounts[..n - 1], jobs).value;
    var account := accounts[n - 1];
    var a := AdmitTenant(before.jobs, account.id, account.balance).value;
    assert f.accounts[n - 1] == account.(reserved := Finite(a.reserved)) by {
      assert f.accounts[..n][n - 1] == f.accounts[n - 1];
    }
    forall k | 0 <= k < |jobs|
      ensures if before.jobs[k].tenant == account.id then f.jobs[k] == a.jobs[k] else f.jobs[k].tenant != account.id
    {
      assert accounts[..n][n - 1].id == account.id;
    }
    AdmitTenantAgain(before.jobs, account.id, account.balance, f.jobs);
  }

  lemma AdmitQuietStep(accounts: seq<Account>, again: Account, jobs: seq<Job>)
    requires AdmitAll(accounts, jobs) == Some(Funded(accounts, jobs, [])) && again.reserved.Finite?
    requires AdmitTenant(jobs, again.id, again.balance) == Some(Admitted(jobs, again.reserved.ticks, []))
    ensures AdmitAll(accounts + [again], jobs) == Some(Funded(accounts + [again], jobs, []))
  {
    hide AdmitTenant, AdmitAll;
    var quiet: seq<Rejection> := [];
    assert quiet + quiet == quiet;
    assert again.(reserved := Finite(again.reserved.ticks)) == again;
    AdmitAllStep(accounts, again, jobs, Funded(accounts, jobs, quiet),
                 Admitted(jobs, again.reserved.ticks, quiet));
  }

  /** The third loop on its own output: the same accounts, the same jobs, nothing rejected. */
  lemma {:induction false} AdmitAllAgain(accounts: seq<Account>, jobs: seq<Job>, n: nat)
    requires DistinctIds(accounts) && n <= |accounts| && AdmitAll(accounts, jobs).Some?
    ensures var f := AdmitAll(accounts, jobs).value;
            AdmitAll(f.accounts[..n], f.jobs) == Some(Funded(f.accounts[..n], f.jobs, []))
  {
    hide AdmitTenant, DistinctIds;
    var f := AdmitAll(accounts, jobs).value;
    if n == 0 {
      assert f.accounts[..0] == [];
    } else {
      AdmitAllAgain(accounts, jobs, n - 1);
      AdmitTurnAgain(accounts, jobs, n);
      AdmitQuietStep(f.accounts[..n - 1], f.accounts[n - 1], f.jobs);
      assert f.accounts[..n] == f.accounts[..n - 1] + [f.accounts[n - 1]];
    }
  }

  // ----- the whole migration -----

  /** After screening no charge is out of range, and the third loop keeps it so. */
  lemma ScreenAgain(jobs: seq<Job>, rejected: seq<TxRow>, final: seq<Job>)
    requires |final| == |jobs|
    requires forall k | 0 <= k < |jobs| ::
               var screened := ScreenAll(jobs, rejected)[k];
               final[k] == screened || final[k] == Invalidate(screened, UNFUNDED)
    ensures ScreenAll(final, []) == final
  {
    forall k | 0 <= k < |final| ensures Screen(final[k], []) == final[k] {
      assert !Named([], final[k].id);
    }
  }

  lemma ReplayedAgain(s: Tables, accounts: seq<Account>)
    requires DistinctIds(s.accounts) && |accounts| == |s.accounts|
    requires forall i | 0 <= i < |accounts| :: LeftFirstLoop(accounts[i], s.accounts[i], s.rows)
    ensures ReplayAll(accounts, ReplayAll(s.accounts, s.rows).valid)
            == Ledgers(accounts, ReplayAll(s.accounts, s.rows).valid, [])
  {
    hide DistinctIds, ReplayAll;
    var valid := ReplayAll(s.accounts, s.rows).valid;
    forall i | 0 <= i < |accounts| ensures accounts[i].id == s.accounts[i].id && Repeats(accounts[i], s.rows, valid) {
      SettleAgain(s.accounts, s.rows, i, accounts[i]);
    }
    LedgersAgain(s.accounts, s.rows, accounts, valid, |accounts|);
    assert accounts[..|accounts|] == accounts && s.accounts[..|accounts|] == s.accounts;
  }

  /** rebuild_ledgers is idempotent: on its own output it accepts every row unchanged, rejects nothing, and
      leaves every balance, reserved balance and task as it is. */
  lemma RebuildIsIdempotent(s: Tables)
    requires DistinctIds(s.accounts) && RebuildLedgers(s).Some?
    ensures RebuildLedgers(RebuildLedgers(s).value.0) == Some((RebuildLedgers(s).value.0, []))
  {
    hide ReplayTenant, ReplayAll, DistinctIds, AdmitAll, ScreenAll, Covered, Settle;
    var ledgers := ReplayAll(s.accounts, s.rows);
    var jobs := ScreenAll(s.jobs, ledgers.rejected);
    var f := AdmitAll(ledgers.accounts, jobs).value;
    ReplayAllAccounts(s.accounts, s.rows);
    forall i | 0 <= i < |s.accounts| ensures LeftFirstLoop(f.accounts[i], s.accounts[i], s.rows) {
      RebuiltAccount(s, i);
    }
    ReplayedAgain(s, f.accounts);
    DistinctIdsStay(s.accounts, s.rows);
    AdmitAllJobs(ledgers.accounts, jobs);
    ScreenAgain(s.jobs, ledgers.rejected, f.jobs);
    AdmitAllAgain(ledgers.accounts, jobs, |s.accounts|);
    assert f.accounts[..|s.accounts|] == f.accounts;
    assert BadRows([]) + [] == [];
  }
}
