/** scripts/migrate_sqlite_to_postgres.py: what chronological order means, character by character, and what it
    decides in the replay of a ledger and in the admission of reservations. */
module Chronology {
  import opened Wrappers
  import opened Money
  import opened Sorting
  import opened Rebuild
  import opened RebuildProofs
  import opened RebuildAgain
  import Database

  // ----- text -----

  /** At the first place where they differ, a has the smaller character, or ends. */
  predicate TextBefore(a: string, b: string) {
    || (|a| < |b| && b[..|a|] == a)
    || exists i | 0 <= i < |a| && i < |b| :: a[..i] == b[..i] && a[i] < b[i]
  }

  /** Texts that start differently differ there. */
  lemma StartsDiffer(a: string, b: string)
    requires a != "" && b != "" && a[0] != b[0]
    ensures TextBefore(a, b) <==> a[0] < b[0]
  {
    forall i | 0 < i <= |a| && i <= |b| ensures a[..i] != b[..i] {
      assert a[..i][0] == a[0] && b[..i][0] == b[0];
    }
    assert a[..|a|] == a;
    assert a[..0] == b[..0];
  }

  lemma BeforeRest(a: string, b: string)
    requires a != "" && b != "" && a[0] == b[0]
    ensures TextBefore(a, b) <==> TextBefore(a[1..], b[1..])
  {
    var c, d := a[1..], b[1..];
    forall i | 0 < i <= |a| && i <= |b| ensures a[..i] == b[..i] <==> c[..i - 1] == d[..i - 1] {
      assert a[..i] == [a[0]] + c[..i - 1] && b[..i] == [b[0]] + d[..i - 1];
      assert c[..i - 1] == a[..i][1..] && d[..i - 1] == b[..i][1..];
    }
    assert a[..|a|] == a && c[..|c|] == c;
    forall i | 0 < i < |a| && i < |b| ensures a[i] == c[i - 1] && b[i] == d[i - 1] {
    }
    if i :| 0 <= i < |c| && i < |d| && c[..i] == d[..i] && c[i] < d[i] {
      assert a[..i + 1] == b[..i + 1] && a[i + 1] < b[i + 1];
    }
    if i :| 0 <= i < |a| && i < |b| && a[..i] == b[..i] && a[i] < b[i] {
      assert c[..i - 1] == d[..i - 1] && c[i - 1] < d[i - 1];
    }
  }

  /** The comparison of the sort is text order, for all texts. */
  lemma {:induction false} TextLeIsBefore(a: string, b: string)
    ensures TextLe(a, b) <==> a == b || TextBefore(a, b)
  {
    hide TextBefore;
    if a != "" && b != "" {
      if a[0] == b[0] {
        TextLeIsBefore(a[1..], b[1..]);
        BeforeRest(a, b);
        assert a == [a[0]] + a[1..] && b == [b[0]] + b[1..];
      } else {
        StartsDiffer(a, b);
      }
    } else {
      EmptyIsBefore(a, b);
    }
  }

  lemma EmptyIsBefore(a: string, b: string)
    requires a == "" || b == ""
    ensures TextBefore(a, b) <==> a == "" && b != ""
  {
    assert b[..0] == "";
  }

  lemma NotBeforeItself(a: string)
    ensures !TextBefore(a, a)
  {
  }

  // ----- keys -----

  /** Created earlier, or at the same time under the smaller id. */
  predicate KeyBefore(a: Key, b: Key) {
    TextBefore(a.created, b.created) || (a.created == b.created && TextBefore(a.id, b.id))
  }

  lemma KeyLeIsBefore(a: Key, b: Key)
    ensures KeyLe(a, b) <==> a == b || KeyBefore(a, b)
  {
    hide TextBefore, TextLe;
    TextLeIsBefore(a.created, b.created);
    TextLeIsBefore(a.id, b.id);
    NotBeforeItself(a.created);
  }

  lemma KeyBeforeIsStrict(a: Key, b: Key)
    ensures KeyBefore(a, b) ==> !KeyLe(b, a)
  {
    hide TextBefore, TextLe;
    TextLeIsBefore(a.created, b.created);
    TextLeIsBefore(b.created, a.created);
    TextLeIsBefore(a.id, b.id);
    TextLeIsBefore(b.id, a.id);
    TextLeTotal(a.created, b.created);
    TextLeTotal(a.id, b.id);
    NotBeforeItself(a.created);
    NotBeforeItself(a.id);
  }

  predicate Chronological<T>(s: seq<Keyed<T>>) {
    forall i, j | 0 <= i < |s| && 0 <= j < |s| && KeyBefore(s[i].key, s[j].key) :: i < j
  }

  lemma SortedIsChronological<T>(s: seq<Keyed<T>>)
    requires Sorted(s)
    ensures Chronological(s)
  {
    hide KeyBefore, KeyLe;
    forall i, j | 0 <= i < |s| && 0 <= j < |s| && KeyBefore(s[i].key, s[j].key) ensures i < j {
      KeyBeforeIsStrict(s[i].key, s[j].key);
      KeyLeTotal(s[i].key, s[i].key);
    }
  }

  /** Sorting puts every row that was created earlier, or at the same time under a smaller id, earlier. */
  lemma SortIsChronological<T>(s: seq<Keyed<T>>)
    ensures Chronological(Sort(s)) && multiset(Sort(s)) == multiset(s)
  {
    SortSorts(s);
    SortPermutes(s);
    SortedIsChronological(Sort(s));
  }

  lemma SortTwo<T>(x: Keyed<T>, y: Keyed<T>)
    requires KeyBefore(x.key, y.key)
    ensures Sort([x, y]) == [x, y] && Sort([y, x]) == [x, y]
  {
    hide KeyBefore, KeyLe;
    KeyLeIsBefore(x.key, y.key);
    KeyBeforeIsStrict(x.key, y.key);
    SortPair(x, y);
    SortPair(y, x);
  }

  lemma SortPair<T>(x: Keyed<T>, y: Keyed<T>)
    ensures Sort([x, y]) == if KeyLe(x.key, y.key) then [x, y] else [y, x]
  {
    hide KeyLe;
    assert [x, y][..1] == [x] && [x][..0] == [];
    assert Insert([], x) == [x] && Insert([], y) == [y];
    assert Sort([x]) == [x];
    assert Sort([x, y]) == Insert([x], y);
  }

  // ----- the ledger -----

  /** The accepted rows of a tenant come out in the order in which they were created. */
  lemma AcceptedAreChronological(rows: seq<TxRow>, t: nat)
    ensures Chronological(ReplayTenant(rows, t).accepted)
  {
    AcceptedOfTenant(rows, t);
    SortedIsChronological(ReplayTenant(rows, t).accepted);
  }

  /** A recharge pays for a later deduction, in whichever order the rows are read: both are accepted, and the
      deduction starts where the recharge ended. Amounts in ticks. */
  lemma RechargePaysLaterDeduction(rows: seq<TxRow>, a: TxRow, b: TxRow, t: nat, x: real, y: real)
    requires RowsOfTenant(rows, t) in {[a, b], [b, a]} && KeyBefore(a.key, b.key)
    requires a.item.kind == RechargeTx && a.item.amount == Finite(x) && 100.0 <= x <= 10_000_000_000.0
    requires b.item.kind == DeductionTx && b.item.amount == Finite(y) && 100.0 <= y <= 1_000_000.0 && y <= x
    ensures ReplayTenant(rows, t)
            == Replayed([a.(item := a.item.(before := Finite(0.0), after := Finite(x))),
                         b.(item := b.item.(before := Finite(x), after := Finite(x - y)))], [], x - y)
  {
    hide KeyBefore, Sort, RowsOfTenant;
    SortTwo(a, b);
    assert [a, b] == [a] + [b] && [a] == [] + [a];
    ReplaySnoc([], a);
    ReplaySnoc([a], b);
  }

  /** The same through the whole migration, for a tenant without tasks. */
  lemma RechargePaysInRebuild(account: Account, a: TxRow, b: TxRow, x: real, y: real, rows: seq<TxRow>)
    requires rows in {[a, b], [b, a]} && KeyBefore(a.key, b.key)
    requires a.item.tenant == b.item.tenant == account.id
    requires a.item.kind == RechargeTx && a.item.amount == Finite(x) && 100.0 <= x <= 10_000_000_000.0
    requires b.item.kind == DeductionTx && b.item.amount == Finite(y) && 100.0 <= y <= 1_000_000.0 && y <= x
    ensures RebuildLedgers(Tables([account], [], rows))
            == Some((Tables([account.(balance := Finite(x - y), reserved := Finite(0.0))], [],
                            [a.(item := a.item.(before := Finite(0.0), after := Finite(x))),
                             b.(item := b.item.(before := Finite(x), after := Finite(x - y)))]), []))
  {
    hide KeyBefore, ReplayTenant, AdmitAll, ReplayAll;
    assert forall i | 0 <= i < |rows| :: rows[i].item.tenant == account.id;
    FilterAll(rows, OfTenant(account.id));
    RechargePaysLaterDeduction(rows, a, b, account.id, x, y);
    OneAccount(account, rows);
    NothingHeld(account.(balance := Finite(x - y)));
    assert ScreenAll([], []) == [];
    assert BadRows([]) + [] == [];
  }

  lemma OneAccount(account: Account, rows: seq<TxRow>)
    ensures var r := ReplayTenant(rows, account.id);
            ReplayAll([account], rows) == Ledgers([Settle(account, r)], r.accepted, r.rejected)
  {
    hide ReplayTenant, Settle;
    assert [account][..0] == [];
    var r := ReplayTenant(rows, account.id);
    assert [] + r.accepted == r.accepted && [] + r.rejected == r.rejected;
  }

  lemma NobodyHolds(t: nat, available: Dec)
    ensures AdmitTenant([], t, available) == Some(Admitted([], 0.0, []))
  {
    assert Sort<nat>([]) == [] && ActiveHolds([], t) == [];
  }

  lemma NothingHeld(account: Account)
    ensures AdmitAll([account], []) == Some(Funded([account.(reserved := Finite(0.0))], [], []))
  {
    var nobody: seq<Account> := [];
    var quiet: seq<Rejection> := [];
    NobodyHolds(account.id, account.balance);
    hide AdmitTenant;
    assert AdmitAll(nobody, []) == Some(Funded(nobody, [], quiet));
    AdmitAllStep(nobody, account, [], Funded(nobody, [], quiet), Admitted([], 0.0, quiet));
    assert nobody + [account] == [account] && quiet + quiet == quiet;
    assert nobody + [account.(reserved := Finite(0.0))] == [account.(reserved := Finite(0.0))];
  }

  // ----- reservations -----

  predicate ActiveHold(x: Job, t: nat, amount: real) {
    && x.tenant == t && x.isReserved && x.reservedAmount == Finite(amount) && 100.0 <= amount <= 1_000_000.0
    && (x.status == Some(Database.Pending) || x.status == Some(Database.Processing))
  }

  /** A task whose reservation was refused. */
  function Lost(x: Job): Job {
    x.(status := Some(Database.Failed), isCharged := false, charged := Finite(0.0), isReserved := false,
       reservedAmount := Finite(0.0), leaseOwner := None, leaseExpires := None, error := Some(UNFUNDED))
  }

  lemma Fits(jobs: seq<Job>, k: nat, t: nat, p: real, available: real)
    requires k < |jobs| && ActiveHold(jobs[k], t, p) && p <= available
    ensures AdmitJob(Admitted(jobs, 0.0, []), k, t, Finite(available)) == Some(Admitted(jobs, p, []))
  {
  }

  lemma DoesNotFit(jobs: seq<Job>, k: nat, t: nat, p: real, q: real, available: real)
    requires k < |jobs| && ActiveHold(jobs[k], t, q) && available < p + q
    ensures AdmitJob(Admitted(jobs, p, []), k, t, Finite(available))
            == Some(Admitted(jobs[k := Lost(jobs[k])], p, [BadHold(jobs[k].id, t, Finite(q))]))
  {
    var quiet: seq<Rejection> := [];
    assert quiet + [BadHold(jobs[k].id, t, Finite(q))] == [BadHold(jobs[k].id, t, Finite(q))];
  }

  /** Of two reservations that do not fit together, the one created earlier is kept, wherever it stands. */
  lemma EarlierReservationWins(x: Job, y: Job, t: nat, p: real, q: real, available: real, swapped: bool)
    requires ActiveHold(x, t, p) && ActiveHold(y, t, q) && KeyBefore(x.key, y.key)
    requires p <= available < p + q
    ensures AdmitTenant(if swapped then [y, x] else [x, y], t, Finite(available))
            == Some(Admitted(if swapped then [Lost(y), x] else [x, Lost(y)], p, [BadHold(y.id, t, Finite(q))]))
  {
    hide KeyBefore, Sort, AdmitJob, AdmitInOrder, Lost, ActiveHolds;
    var jobs := if swapped then [y, x] else [x, y];
    var first := Keyed(x.key, if swapped then 1 else 0);
    var second := Keyed(y.key, if swapped then 0 else 1);
    TwoHolds(jobs, t);
    SortTwo<nat>(first, second);
    assert Sort<nat>(ActiveHolds(jobs, t)) == [first, second];
    AdmitTwo(jobs, first, second, t, Finite(available));
    Fits(jobs, first.item, t, p, available);
    DoesNotFit(jobs, second.item, t, p, q, available);
    assert jobs[second.item := Lost(y)] == if swapped then [Lost(y), x] else [x, Lost(y)];
  }

  lemma TwoHolds(jobs: seq<Job>, t: nat)
    requires |jobs| == 2 && Holding(jobs[0], t) && Holding(jobs[1], t)
    ensures ActiveHolds(jobs, t) == [Keyed(jobs[0].key, 0), Keyed(jobs[1].key, 1)]
  {
    hide Holding;
    assert jobs[..1][..0] == [] && ActiveHolds([], t) == [];
    assert jobs[..1][0] == jobs[0];
    assert ActiveHolds(jobs[..1], t) == [Keyed(jobs[0].key, 0)];
  }

  lemma AdmitTwo(jobs: seq<Job>, first: Keyed<nat>, second: Keyed<nat>, t: nat, available: Dec)
    requires first.item < |jobs| && second.item < |jobs|
    ensures AdmitInOrder(jobs, [first, second], t, available)
            == match AdmitJob(Admitted(jobs, 0.0, []), first.item, t, available)
               case None => None
               case Some(a) => AdmitJob(a, second.item, t, available)
  {
    hide AdmitJob;
    assert [first, second][..1] == [first] && [first][..0] == [];
    assert AdmitInOrder(jobs, [first], t, available) == AdmitJob(Admitted(jobs, 0.0, []), first.item, t, available);
  }
}
