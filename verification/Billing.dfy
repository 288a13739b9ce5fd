/** app/services/billing_service.py: what each billing statement does to the tables, as functions of the
    tables. A guarded UPDATE that matches no row is None; an exception is Raised. */
module Billing {
  import opened Wrappers
  import opened Money
  import opened Database

  /** The guard all reservations and unreserved charges share. */
  predicate CanFund(x: Tenant) {
    && x.active
    && UnitAmount(x.unitPrice)
    && 0 <= x.balance <= MAX_ACCOUNT_BALANCE
    && 0 <= x.reserved <= x.balance
    && x.balance - x.reserved >= x.unitPrice
  }

  /** check_balance_available: (sufficient, available, unit price). */
  function CheckBalance(s: Db, t: nat): (bool, int, int) {
    if t >= |s.tenants| then (false, 0, 5000)
    else
      var x := s.tenants[t];
      if x.balance < 0 || x.balance > MAX_ACCOUNT_BALANCE || x.reserved < 0 || x.reserved > x.balance
         || !UnitAmount(x.unitPrice)
      then (false, 0, x.unitPrice)
      else (x.balance - x.reserved >= x.unitPrice, x.balance - x.reserved, x.unitPrice)
  }

  /** reserve_for_new_task: hold the current price. */
  function Reserve(s: Db, t: nat): Option<(Db, int)> {
    if t < |s.tenants| && CanFund(s.tenants[t]) then
      var x := s.tenants[t];
      Some((s.(tenants := s.tenants[t := x.(reserved := x.reserved + x.unitPrice)]), x.unitPrice))
    else None
  }

  datatype Released = NothingHeld | Freed(db: Db) | Raised

  /** release_task_reservation, inside the caller's transaction. */
  function Release(s: Db, t: nat, k: nat): Released {
    if k >= |s.tasks| || s.tasks[k].tenant != t || !s.tasks[k].isReserved then NothingHeld
    else
      var amount := s.tasks[k].reservedAmount;
      if !UnitAmount(amount) || t >= |s.tenants| || s.tenants[t].reserved < amount then Raised
      else
        var x := s.tenants[t];
        Freed(s.(tenants := s.tenants[t := x.(reserved := x.reserved - amount)],
                 tasks := s.tasks[k := s.tasks[k].(isReserved := false, reservedAmount := 0)]))
  }

  /** deduct_for_task_success: the whole charge, or None after a rollback. */
  function Deduct(s: Db, t: nat, k: nat): Option<Db> {
    if k >= |s.tasks| || s.tasks[k].tenant != t || s.tasks[k].isCharged
       || s.tasks[k].status !in {Processing, Success} || t >= |s.tenants|
    then None
    else
      var task := s.tasks[k];
      var x := s.tenants[t];
      var price := if task.isReserved then task.reservedAmount else x.unitPrice;
      if task.isReserved
         && !(UnitAmount(price) && x.active && x.balance <= MAX_ACCOUNT_BALANCE && x.reserved <= x.balance
              && x.balance >= price && x.reserved >= price)
      then None
      else if !task.isReserved && !CanFund(x) then None
      else if RowsOf(s.ledger, k, Deduction) != [] then None   // unique (task_id, type)
      else
        var paid := x.(balance := x.balance - price,
                       reserved := x.reserved - if task.isReserved then price else 0);
        Some(s.(tenants := s.tenants[t := paid],
                tasks := s.tasks[k := task.(isCharged := true, charged := price,
                                            isReserved := false, reservedAmount := 0)],
                ledger := s.ledger + [Row(t, Some(k), Deduction, price, x.balance, x.balance - price)]))
  }

  /** recharge_balance after validation; None is a missing tenant or a refused credit. */
  function Credit(s: Db, t: nat, amount: int): Option<Db> {
    if t >= |s.tenants| then None
    else
      var x := s.tenants[t];
      if 0 <= x.balance <= MAX_ACCOUNT_BALANCE && 0 <= x.reserved <= x.balance
         && x.balance <= MAX_ACCOUNT_BALANCE - amount
      then Some(s.(tenants := s.tenants[t := x.(balance := x.balance + amount)],
                   ledger := s.ledger + [Row(t, None, Recharge, amount, x.balance, x.balance + amount)]))
      else None
  }

  datatype Refunded = NoCharge | Existing(row: Row) | Paid(db: Db, row: Row) | RefundRaised

  /** refund_task_deduction, staged in the caller's transaction. */
  function RefundTask(s: Db, t: nat, k: nat): Refunded {
    if RowsOf(s.ledger, k, Refund) != [] then Existing(RowsOf(s.ledger, k, Refund)[0])
    else if k >= |s.tasks| || s.tasks[k].tenant != t then NoCharge
    else if !s.tasks[k].isCharged || s.tasks[k].charged <= 0 then NoCharge
    else
      var deductions := RowsOf(s.ledger, k, Deduction);
      if |deductions| != 1 || deductions[0].tenant != t then RefundRaised
      else
        var amount := deductions[0].amount;
        if !RechargeAmount(amount) || t >= |s.tenants|
           || s.tenants[t].balance < 0 || s.tenants[t].balance + amount > MAX_ACCOUNT_BALANCE
        then RefundRaised
        else
          var x := s.tenants[t];
          var row := Row(t, Some(k), Refund, amount, x.balance, x.balance + amount);
          Paid(s.(tenants := s.tenants[t := x.(balance := x.balance + amount)], ledger := s.ledger + [row]), row)
  }

  /** The fast pre-check of an upload agrees with the atomic reservation that follows it. */
  lemma CheckAgreesWithReserve(s: Db, t: nat)
    ensures Reserve(s, t).Some? <==> t < |s.tenants| && s.tenants[t].active && CheckBalance(s, t).0
    ensures Reserve(s, t).Some? ==> Reserve(s, t).value.1 == CheckBalance(s, t).2 <= CheckBalance(s, t).1
  {
  }
}
