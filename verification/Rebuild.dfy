/** scripts/migrate_sqlite_to_postgres.py: rebuild_ledgers, as a function of the three legacy tables.
    Amounts are whatever `decimal_value` makes of the stored text, in ticks; row ids are numbered. */
module Rebuild {
  import opened Wrappers
  import opened Money
  import opened Database
  import opened Sorting

  datatype Dec = NaN | PosInf | NegInf | Finite(ticks: real)

  datatype TxKind = RechargeTx | RefundTx | DeductionTx | AdjustmentTx | UnknownTx

  datatype Tx = Tx(tenant: nat, task: Option<nat>, kind: TxKind, amount: Dec, before: Dec, after: Dec)

  type TxRow = Keyed<Tx>

  /** `status` is None for any other text than the four known ones. */
  datatype Job = Job(
    key: Key, id: nat, tenant: nat, status: Option<Status>,
    isCharged: bool, charged: Dec, isReserved: bool, reservedAmount: Dec,
    leaseOwner: Option<string>, leaseExpires: Option<int>, error: Option<string>)

  datatype Account = Account(id: nat, balance: Dec, reserved: Dec)

  datatype Rejection = BadRow(row: TxRow) | BadHold(job: nat, tenant: nat, amount: Dec)

  const EXCLUDED := "Legacy out-of-range billing record excluded during PostgreSQL migration"
  const UNFUNDED := "Legacy reservation exceeded the valid PostgreSQL account balance"

  predicate ValidUnit(d: Dec) {
    d.Finite? && MIN_UNIT_PRICE as real <= d.ticks <= MAX_UNIT_PRICE as real
  }

  predicate ValidRecharge(d: Dec) {
    d.Finite? && MIN_RECHARGE_AMOUNT as real <= d.ticks <= MAX_RECHARGE_AMOUNT as real
  }

  function Invalidate(x: Job, reason: string): Job {
    x.(status := Some(Failed), isCharged := false, charged := Finite(0.0), isReserved := false,
       reservedAmount := Finite(0.0), leaseOwner := None, leaseExpires := None, error := Some(reason))
  }

  // ----- the ledger of one tenant -----

  /** The next balance if the row's amount and the transition are valid. */
  function Try(running: real, tx: Tx): Option<real> {
    match tx.kind
    case RechargeTx => Credited(running, tx.amount)
    case RefundTx => Credited(running, tx.amount)
    case DeductionTx =>
      if ValidUnit(tx.amount) && running - tx.amount.ticks >= 0.0 then Some(running - tx.amount.ticks) else None
    case AdjustmentTx =>
      if tx.amount.Finite? && 0.0 <= running + tx.amount.ticks <= MAX_ACCOUNT_BALANCE as real
      then Some(running + tx.amount.ticks) else None
    case UnknownTx => None
  }

  function Credited(running: real, amount: Dec): Option<real> {
    if ValidRecharge(amount) && running + amount.ticks <= MAX_ACCOUNT_BALANCE as real
    then Some(running + amount.ticks) else None
  }

  datatype Replayed = Replayed(accepted: seq<TxRow>, rejected: seq<TxRow>, running: real)

  function ReplayRow(r: Replayed, row: TxRow): Replayed {
    match Try(r.running, row.item)
    case None => r.(rejected := r.rejected + [row])
    case Some(next) =>
      Replayed(r.accepted + [row.(item := row.item.(before := Finite(r.running), after := Finite(next)))],
               r.rejected, next)
  }

  function Replay(rows: seq<TxRow>): Replayed {
    if rows == [] then Replayed([], [], 0.0)
    else ReplayRow(Replay(rows[..|rows| - 1]), rows[|rows| - 1])
  }

  function OfTenant(t: nat): TxRow -> bool {
    (row: TxRow) => row.item.tenant == t
  }

  function RowsOfTenant(rows: seq<TxRow>, t: nat): seq<TxRow> {
    Filter(rows, OfTenant(t))
  }

  function ReplayTenant(rows: seq<TxRow>, t: nat): Replayed {
    Replay(Sort(RowsOfTenant(rows, t)))
  }

  datatype Ledgers = Ledgers(accounts: seq<Account>, valid: seq<TxRow>, rejected: seq<TxRow>)

  function Settle(account: Account, r: Replayed): Account {
    if r.accepted != [] then account.(balance := Finite(r.running)) else account
  }

  /** The first loop: every listed tenant's rows, in chronological order, from zero. */
  function ReplayAll(accounts: seq<Account>, rows: seq<TxRow>): Ledgers {
    if accounts == [] then Ledgers([], [], [])
    else
      var done := ReplayAll(accounts[..|accounts| - 1], rows);
      var account := accounts[|accounts| - 1];
      var r := ReplayTenant(rows, account.id);
      Ledgers(done.accounts + [Settle(account, r)], done.valid + r.accepted, done.rejected + r.rejected)
  }

  // ----- tasks with bad records -----

  predicate Named(rejected: seq<TxRow>, id: nat) {
    exists i | 0 <= i < |rejected| :: rejected[i].item.task == Some(id)
  }

  function Screen(x: Job, rejected: seq<TxRow>): Job {
    if Named(rejected, x.id) || (x.isCharged && !ValidUnit(x.charged)) then Invalidate(x, EXCLUDED) else x
  }

  /** The second loop. */
  function ScreenAll(jobs: seq<Job>, rejected: seq<TxRow>): (r: seq<Job>)
    ensures |r| == |jobs| && forall k | 0 <= k < |jobs| :: r[k] == Screen(jobs[k], rejected)
  {
    if jobs == [] then []
    else ScreenAll(jobs[..|jobs| - 1], rejected) + [Screen(jobs[|jobs| - 1], rejected)]
  }

  // ----- reservations -----

  predicate Holding(x: Job, t: nat) {
    x.tenant == t && x.status in {Some(Pending), Some(Processing)} && x.isReserved
  }

  /** The positions of a tenant's active reservations, in table order. */
  function ActiveHolds(jobs: seq<Job>, t: nat): (r: seq<Keyed<nat>>)
    ensures forall i | 0 <= i < |r| :: r[i].item < |jobs| && Holding(jobs[r[i].item], t)
  {
    if jobs == [] then []
    else
      var last := |jobs| - 1;
      if Holding(jobs[last], t) then ActiveHolds(jobs[..last], t) + [Keyed(jobs[last].key, last)]
      else ActiveHolds(jobs[..last], t)
  }

  /** `x > available`; comparing with a NaN raises. */
  function Exceeds(x: real, available: Dec): Option<bool> {
    match available
    case NaN => None
    case PosInf => Some(false)
    case NegInf => Some(true)
    case Finite(a) => Some(x > a)
  }

  datatype Admitted = Admitted(jobs: seq<Job>, reserved: real, rejected: seq<Rejection>)

  /** One reservation, at position k, against what is available; None is the exception. */
  function AdmitJob(a: Admitted, k: nat, t: nat, available: Dec): Option<Admitted>
    requires k < |a.jobs|
  {
    var amount := a.jobs[k].reservedAmount;
    var refused := Admitted(a.jobs[k := Invalidate(a.jobs[k], UNFUNDED)], a.reserved,
                            a.rejected + [BadHold(a.jobs[k].id, t, amount)]);
    if !ValidUnit(amount) then Some(refused)
    else
      match Exceeds(a.reserved + amount.ticks, available)
      case None => None
      case Some(true) => Some(refused)
      case Some(false) => Some(a.(reserved := a.reserved + amount.ticks))
  }

  function AdmitInOrder(jobs: seq<Job>, order: seq<Keyed<nat>>, t: nat, available: Dec): (r: Option<Admitted>)
    requires forall i | 0 <= i < |order| :: order[i].item < |jobs|
    ensures r.Some? ==> |r.value.jobs| == |jobs|
  {
    if order == [] then Some(Admitted(jobs, 0.0, []))
    else
      match AdmitInOrder(jobs, order[..|order| - 1], t, available)
      case None => None
      case Some(a) => AdmitJob(a, order[|order| - 1].item, t, available)
  }

  lemma SortedPositions(s: seq<Keyed<nat>>, n: nat)
    requires forall i | 0 <= i < |s| :: s[i].item < n
    ensures forall i | 0 <= i < |Sort(s)| :: Sort(s)[i].item < n
  {
    SortPermutes(s);
    forall i | 0 <= i < |Sort(s)| ensures Sort(s)[i].item < n {
      assert Sort(s)[i] in s;
    }
  }

  function AdmitTenant(jobs: seq<Job>, t: nat, available: Dec): (r: Option<Admitted>)
    ensures r.Some? ==> |r.value.jobs| == |jobs|
  {
    var holds := ActiveHolds(jobs, t);
    SortedPositions(holds, |jobs|);
    AdmitInOrder(jobs, Sort<nat>(holds), t, available)
  }

  datatype Funded = Funded(accounts: seq<Account>, jobs: seq<Job>, rejected: seq<Rejection>)

  /** The third loop: reserved balances from the surviving active reservations. */
  function AdmitAll(accounts: seq<Account>, jobs: seq<Job>): (r: Option<Funded>)
    ensures r.Some? ==> |r.value.jobs| == |jobs| && |r.value.accounts| == |accounts|
  {
    if accounts == [] then Some(Funded([], jobs, []))
    else
      var account := accounts[|accounts| - 1];
      match AdmitAll(accounts[..|accounts| - 1], jobs)
      case None => None
      case Some(f) =>
        (match AdmitTenant(f.jobs, account.id, account.balance)
         case None => None
         case Some(a) => Some(Funded(f.accounts + [account.(reserved := Finite(a.reserved))], a.jobs,
                                     f.rejected + a.rejected)))
  }

  function BadRows(rows: seq<TxRow>): (r: seq<Rejection>)
    ensures |r| == |rows| && forall i | 0 <= i < |rows| :: r[i] == BadRow(rows[i])
  {
    if rows == [] then [] else BadRows(rows[..|rows| - 1]) + [BadRow(rows[|rows| - 1])]
  }

  datatype Tables = Tables(accounts: seq<Account>, jobs: seq<Job>, rows: seq<TxRow>)

  /** rebuild_ledgers: the tables afterwards with the valid rows, and the rejections. */
  function RebuildLedgers(s: Tables): Option<(Tables, seq<Rejection>)> {
    var ledgers := ReplayAll(s.accounts, s.rows);
    match AdmitAll(ledgers.accounts, ScreenAll(s.jobs, ledgers.rejected))
    case None => None
    case Some(f) =>
      Some((Tables(f.accounts, f.jobs, ledgers.valid), BadRows(ledgers.rejected) + f.rejected))
  }
}
