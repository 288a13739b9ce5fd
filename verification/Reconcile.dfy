/** scripts/reconcile_tenant_billing.py: one tenant's balance and reservations recomputed by plain sums,
    as the command's own loops and as a specification. */
module Reconcile {
  import opened Money
  import opened Rebuild

  /** A stored amount: text that `Decimal` refuses, or a decimal (in ticks). */
  datatype Stored = Garbage | Reads(dec: Dec)

  datatype Entry = Entry(kind: TxKind, amount: Stored)

  /** What the command prints and would write; or why it stops. Lists hold positions in the query results. */
  datatype Outcome =
    | Raises
    | PriceInvalid
    | OutOfRange
    | Overcommitted
    | Plan(balance: int, reserved: int, excluded: seq<nat>, normalized: seq<nat>)

  /** `quantize(MONEY_QUANTUM)`: to the nearest tick, ties to even. */
  function HalfEven(x: real): (r: int)
    ensures x - 0.5 <= r as real <= x + 0.5
    ensures x == x.Floor as real ==> r == x.Floor
    ensures r as real == x - 0.5 || r as real == x + 0.5 ==> r % 2 == 0
  {
    var low := x.Floor;
    var rest := x - low as real;
    if rest < 0.5 || (rest == 0.5 && low % 2 == 0) then low else low + 1
  }

  /** The result would need more than the 28 digits of the decimal context. */
  predicate TooWide(x: real) {
    var ticks := HalfEven(x);
    ticks <= -10_000_000_000_000_000_000_000_000_000 || 10_000_000_000_000_000_000_000_000_000 <= ticks
  }

  /** What counts towards the balance looking at one amount alone. */
  predicate AmountValid(kind: TxKind, amount: Dec) {
    match kind
    case RechargeTx => ValidRecharge(amount)
    case RefundTx => ValidRecharge(amount)
    case DeductionTx => ValidUnit(amount)
    case AdjustmentTx => amount.Finite?
    case UnknownTx => false
  }

  // ----- specification -----

  predicate Readable(entries: seq<Entry>) {
    forall i | 0 <= i < |entries| :: entries[i].amount.Reads?
  }

  function Net(entries: seq<Entry>): real
    requires Readable(entries)
  {
    if entries == [] then 0.0
    else
      var last := entries[|entries| - 1];
      var before := Net(entries[..|entries| - 1]);
      if !AmountValid(last.kind, last.amount.dec) then before
      else if last.kind == DeductionTx then before - last.amount.dec.ticks
      else before + last.amount.dec.ticks
  }

  /** The positions of the entries that do not count. */
  function Excluded(entries: seq<Entry>): seq<nat>
    requires Readable(entries)
  {
    if entries == [] then []
    else
      var last := |entries| - 1;
      if AmountValid(entries[last].kind, entries[last].amount.dec) then Excluded(entries[..last])
      else Excluded(entries[..last]) + [last]
  }

  predicate HoldsReadable(holds: seq<Stored>) {
    forall i | 0 <= i < |holds| :: holds[i].Reads?
  }

  function Normal(amount: Dec, price: Dec): Dec {
    if ValidUnit(amount) then amount else price
  }

  function Reserved(holds: seq<Stored>, price: Dec): real
    requires HoldsReadable(holds) && ValidUnit(price)
  {
    if holds == [] then 0.0
    else Reserved(holds[..|holds| - 1], price) + Normal(holds[|holds| - 1].dec, price).ticks
  }

  function Normalized(holds: seq<Stored>): seq<nat>
    requires HoldsReadable(holds)
  {
    if holds == [] then []
    else
      var last := |holds| - 1;
      if ValidUnit(holds[last].dec) then Normalized(holds[..last]) else Normalized(holds[..last]) + [last]
  }

  function Reconciled(price: Stored, entries: seq<Entry>, holds: seq<Stored>): Outcome {
    if price == Garbage then Raises
    else if !ValidUnit(price.dec) then PriceInvalid
    else if !Readable(entries) || TooWide(Net(entries)) then Raises
    else
      var balance := HalfEven(Net(entries));
      if !(0 <= balance <= MAX_ACCOUNT_BALANCE) then OutOfRange
      else if !HoldsReadable(holds) || TooWide(Reserved(holds, price.dec)) then Raises
      else
        var reserved := HalfEven(Reserved(holds, price.dec));
        if reserved > balance then Overcommitted
        else Plan(balance, reserved, Excluded(entries), Normalized(holds))
  }

  // ----- the loops -----

  method SumLedger(entries: seq<Entry>) returns (ok: bool, credit: real, debit: real, excluded: seq<nat>)
    ensures ok == Readable(entries)
    ensures ok ==> credit - debit == Net(entries) && excluded == Excluded(entries)
  {
    credit, debit, excluded := 0.0, 0.0, [];
    for i := 0 to |entries|
      invariant Readable(entries[..i])
      invariant credit - debit == Net(entries[..i]) && excluded == Excluded(entries[..i])
    {
      if entries[i].amount == Garbage {
        return false, credit, debit, excluded;
      }
      assert entries[..i + 1][..i] == entries[..i];
      var amount := entries[i].amount.dec;
      var kind := entries[i].kind;
      if kind in {RechargeTx, RefundTx} && ValidRecharge(amount) {
        credit := credit + amount.ticks;
      } else if kind == DeductionTx && ValidUnit(amount) {
        debit := debit + amount.ticks;
      } else if kind == AdjustmentTx && amount.Finite? {
        credit := credit + amount.ticks;
      } else {
        excluded := excluded + [i];
      }
    }
    assert entries[..|entries|] == entries;
    ok := true;
  }

  method SumReservations(holds: seq<Stored>, price: Dec) returns (ok: bool, reserved: real, normalized: seq<nat>)
    requires ValidUnit(price)
    ensures ok == HoldsReadable(holds)
    ensures ok ==> reserved == Reserved(holds, price) && normalized == Normalized(holds)
  {
    reserved, normalized := 0.0, [];
    for i := 0 to |holds|
      invariant HoldsReadable(holds[..i])
      invariant reserved == Reserved(holds[..i], price) && normalized == Normalized(holds[..i])
    {
      if holds[i] == Garbage {
        return false, reserved, normalized;
      }
      assert holds[..i + 1][..i] == holds[..i];
      var amount := holds[i].dec;
      if !ValidUnit(amount) {
        amount := price;
        normalized := normalized + [i];
      }
      reserved := reserved + amount.ticks;
    }
    assert holds[..|holds|] == holds;
    ok := true;
  }

  method ReconcileTenant(price: Stored, entries: seq<Entry>, holds: seq<Stored>) returns (r: Outcome)
    ensures r == Reconciled(price, entries, holds)
  {
    if price == Garbage {
      return Raises;
    }
    if !ValidUnit(price.dec) {
      return PriceInvalid;
    }
    var ok, credit, debit, excluded := SumLedger(entries);
    if !ok || TooWide(credit - debit) {
      return Raises;
    }
    var balance := HalfEven(credit - debit);
    if balance < 0 || balance > MAX_ACCOUNT_BALANCE {
      return OutOfRange;
    }
    var fine, sum, normalized := SumReservations(holds, price.dec);
    if !fine || TooWide(sum) {
      return Raises;
    }
    var reserved := HalfEven(sum);
    if reserved > balance {
      return Overcommitted;
    }
    return Plan(balance, reserved, excluded, normalized);
  }

  // ----- applying the plan -----

  /** The reservations after `--apply` wrote the unit price over each normalized one. */
  function Applied(holds: seq<Stored>, price: Dec): (r: seq<Stored>)
    requires HoldsReadable(holds)
    ensures |r| == |holds| && forall i | 0 <= i < |holds| :: r[i] == Reads(Normal(holds[i].dec, price))
  {
    if holds == [] then []
    else Applied(holds[..|holds| - 1], price) + [Reads(Normal(holds[|holds| - 1].dec, price))]
  }

  lemma {:induction false} AppliedHolds(holds: seq<Stored>, price: Dec)
    requires HoldsReadable(holds) && ValidUnit(price)
    ensures HoldsReadable(Applied(holds, price)) && Normalized(Applied(holds, price)) == []
    ensures Reserved(Applied(holds, price), price) == Reserved(holds, price)
  {
    if holds != [] {
      AppliedHolds(holds[..|holds| - 1], price);
      var applied := Applied(holds, price);
      assert applied[..|holds| - 1] == Applied(holds[..|holds| - 1], price);
    }
  }

  /** Applying a plan is final: the command then finds the same balance and reservations, and nothing more to
      normalize. Of the rows it normalizes, exactly those with an invalid amount change. */
  lemma ApplyIsFinal(price: Stored, entries: seq<Entry>, holds: seq<Stored>)
    requires Reconciled(price, entries, holds).Plan?
    ensures var plan := Reconciled(price, entries, holds);
            Reconciled(price, entries, Applied(holds, price.dec)) == plan.(normalized := [])
  {
    AppliedHolds(holds, price.dec);
  }

  // ----- the outcome in numbers -----

  /** What one ledger row adds: nothing unless its amount may be one. */
  lemma EntryCountsExactly(entries: seq<Entry>, e: Entry)
    requires Readable(entries) && e.amount.Reads?
    ensures Readable(entries + [e])
    ensures var a := e.amount.dec;
            var counts := a.Finite?
                          && ((e.kind in {RechargeTx, RefundTx} && 100.0 <= a.ticks <= 10_000_000_000.0)
                              || (e.kind == DeductionTx && 100.0 <= a.ticks <= 1_000_000.0)
                              || e.kind == AdjustmentTx);
            if counts
            then Net(entries + [e]) == Net(entries) + (if e.kind == DeductionTx then -a.ticks else a.ticks)
                 && Excluded(entries + [e]) == Excluded(entries)
            else Net(entries + [e]) == Net(entries) && Excluded(entries + [e]) == Excluded(entries) + [|entries|]
  {
    assert (entries + [e])[..|entries|] == entries;
  }

  /** What the last reservation adds: its amount if that is a price, else the tenant's price. */
  lemma HoldCountsExactly(holds: seq<Stored>, price: Dec)
    requires HoldsReadable(holds) && ValidUnit(price) && holds != []
    ensures var rest, a := holds[..|holds| - 1], holds[|holds| - 1].dec;
            if a.Finite? && 100.0 <= a.ticks <= 1_000_000.0
            then Reserved(holds, price) == Reserved(rest, price) + a.ticks && Normalized(holds) == Normalized(rest)
            else Reserved(holds, price) == Reserved(rest, price) + price.ticks
                 && Normalized(holds) == Normalized(rest) + [|rest|]
  {
  }

  predicate PriceReads(price: Stored) {
    price.Reads? && price.dec.Finite? && 100.0 <= price.dec.ticks <= 1_000_000.0
  }

  /** A plan is made exactly if everything reads and 0 <= reserved <= balance <= 99,999,999.9999 after rounding;
      the other outcomes name the first thing wrong. */
  lemma PlanIsMadeExactly(price: Stored, entries: seq<Entry>, holds: seq<Stored>)
    ensures Reconciled(price, entries, holds).Plan?
            <==> && PriceReads(price) && Readable(entries) && HoldsReadable(holds)
                 && 0 <= HalfEven(Reserved(holds, price.dec)) <= HalfEven(Net(entries)) <= 999_999_999_999
    ensures Reconciled(price, entries, holds) == PriceInvalid <==> price.Reads? && !PriceReads(price)
    ensures Reconciled(price, entries, holds) == OutOfRange
            <==> && PriceReads(price) && Readable(entries) && !(0 <= HalfEven(Net(entries)) <= 999_999_999_999)
                 && -HalfEven(Net(entries)) < Pow10(28) && HalfEven(Net(entries)) < Pow10(28)
    ensures Reconciled(price, entries, holds) == Overcommitted
            <==> && PriceReads(price) && Readable(entries) && 0 <= HalfEven(Net(entries)) <= 999_999_999_999
                 && HoldsReadable(holds)
                 && HalfEven(Net(entries)) < HalfEven(Reserved(holds, price.dec)) < Pow10(28)
  {
    hide Net, Reserved, HalfEven, Pow10;
    Digits();
    if PriceReads(price) && HoldsReadable(holds) {
      ReservedIsNonNegative(holds, price.dec);
      RoundedIsNonNegative(Reserved(holds, price.dec));
    }
  }

  lemma Digits()
    ensures Pow10(28) == 10_000_000_000_000_000_000_000_000_000
  {
    assert Pow10(7) == 10_000_000;
    assert Pow10(14) == 100_000_000_000_000;
    assert Pow10(21) == 1_000_000_000_000_000_000_000;
  }

  lemma {:induction false} ReservedIsNonNegative(holds: seq<Stored>, price: Dec)
    requires HoldsReadable(holds) && ValidUnit(price)
    ensures Reserved(holds, price) >= 0.0
  {
    if holds != [] {
      ReservedIsNonNegative(holds[..|holds| - 1], price);
    }
  }

  lemma RoundedIsNonNegative(x: real)
    requires x >= 0.0
    ensures HalfEven(x) >= 0
  {
  }
}
