/** The five tables the billing and task protocol writes, as values.
    A row's id is its position in insertion order; feedback is keyed by its unique task id. */
module Database {
  import opened Wrappers

  datatype Status = Pending | Processing | Success | Failed

  datatype Tenant = Tenant(active: bool, balance: int, reserved: int, unitPrice: int)

  datatype Task = Task(
    tenant: nat,
    key: Option<string>,
    status: Status,
    isCharged: bool,
    charged: int,
    isReserved: bool,
    reservedAmount: int,
    leaseOwner: Option<string>,
    leaseExpires: Option<int>,
    attempts: nat)

  datatype Kind = Recharge | Deduction | Refund

  datatype Row = Row(tenant: nat, task: Option<nat>, kind: Kind, amount: int, before: int, after: int)

  datatype Review = Open | Accepted | Rejected | Resolved

  datatype Feedback = Feedback(tenant: nat, status: Review, isRefunded: bool, refundAmount: int)

  datatype Db = Db(tenants: seq<Tenant>, tasks: seq<Task>, ledger: seq<Row>, feedback: map<nat, Feedback>)

  predicate Active(status: Status) {
    status == Pending || status == Processing
  }

  /** What one task holds of a tenant's balance. */
  function Hold(x: Task, t: nat): int {
    if x.tenant == t && x.isReserved then x.reservedAmount else 0
  }

  function SumHolds(tasks: seq<Task>, t: nat): int {
    if tasks == [] then 0
    else SumHolds(tasks[..|tasks| - 1], t) + Hold(tasks[|tasks| - 1], t)
  }

  function Signed(row: Row): int {
    if row.kind == Deduction then -row.amount else row.amount
  }

  /** Credits minus debits of one tenant. */
  function LedgerBalance(ledger: seq<Row>, t: nat): int {
    if ledger == [] then 0
    else LedgerBalance(ledger[..|ledger| - 1], t)
         + if ledger[|ledger| - 1].tenant == t then Signed(ledger[|ledger| - 1]) else 0
  }

  predicate IsRow(row: Row, k: nat, kind: Kind) {
    row.task == Some(k) && row.kind == kind
  }

  /** The rows of one kind that one task has, in commit order. */
  function RowsOf(ledger: seq<Row>, k: nat, kind: Kind): seq<Row> {
    if ledger == [] then []
    else RowsOf(ledger[..|ledger| - 1], k, kind)
         + if IsRow(ledger[|ledger| - 1], k, kind) then [ledger[|ledger| - 1]] else []
  }

  function CountActive(tasks: seq<Task>, who: Option<nat>): nat {
    if tasks == [] then 0
    else CountActive(tasks[..|tasks| - 1], who)
         + var x := tasks[|tasks| - 1];
           if Active(x.status) && (who.None? || who.value == x.tenant) then 1 else 0
  }

  lemma {:induction false} SumHoldsUpdate(tasks: seq<Task>, k: nat, x: Task, t: nat)
    requires k < |tasks|
    ensures SumHolds(tasks[k := x], t) == SumHolds(tasks, t) - Hold(tasks[k], t) + Hold(x, t)
  {
    var n := |tasks| - 1;
    if k < n {
      assert tasks[k := x][..n] == tasks[..n][k := x];
      SumHoldsUpdate(tasks[..n], k, x, t);
    } else {
      assert tasks[k := x][..n] == tasks[..n];
    }
  }

  lemma {:induction false} SumHoldsAppend(tasks: seq<Task>, x: Task, t: nat)
    ensures SumHolds(tasks + [x], t) == SumHolds(tasks, t) + Hold(x, t)
  {
    assert (tasks + [x])[..|tasks|] == tasks;
  }

  /** Equal holds give equal sums, whatever else differs between the tables. */
  lemma {:induction false} SumHoldsSame(a: seq<Task>, b: seq<Task>, t: nat)
    requires |a| == |b|
    requires forall k | 0 <= k < |a| :: Hold(a[k], t) == Hold(b[k], t)
    ensures SumHolds(a, t) == SumHolds(b, t)
  {
    if a != [] {
      SumHoldsSame(a[..|a| - 1], b[..|b| - 1], t);
    }
  }

  lemma {:induction false} HoldWithinSum(tasks: seq<Task>, k: nat, t: nat)
    requires k < |tasks|
    requires forall i | 0 <= i < |tasks| :: Hold(tasks[i], t) >= 0
    ensures 0 <= Hold(tasks[k], t) <= SumHolds(tasks, t)
  {
    var n := |tasks| - 1;
    if k < n {
      HoldWithinSum(tasks[..n], k, t);
    } else {
      SumHoldsNonNegative(tasks[..n], t);
    }
  }

  lemma {:induction false} SumHoldsNonNegative(tasks: seq<Task>, t: nat)
    requires forall i | 0 <= i < |tasks| :: Hold(tasks[i], t) >= 0
    ensures SumHolds(tasks, t) >= 0
  {
    if tasks != [] {
      SumHoldsNonNegative(tasks[..|tasks| - 1], t);
    }
  }

  lemma {:induction false} LedgerAppend(ledger: seq<Row>, row: Row)
    ensures forall t: nat :: LedgerBalance(ledger + [row], t)
                             == LedgerBalance(ledger, t) + if row.tenant == t then Signed(row) else 0
    ensures forall k: nat, kind :: RowsOf(ledger + [row], k, kind)
                                   == RowsOf(ledger, k, kind) + if IsRow(row, k, kind) then [row] else []
  {
    assert (ledger + [row])[..|ledger|] == ledger;
  }
}
