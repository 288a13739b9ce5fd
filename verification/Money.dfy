/** app/core/money.py: the money bounds, and the validation every billing request passes.
    Amounts are counted in ticks of 0.0001, the database's MONEY_QUANTUM. */
module Money {
  import opened Wrappers

  const MAX_ACCOUNT_BALANCE := 999_999_999_999
  const MIN_UNIT_PRICE := 100
  const MAX_UNIT_PRICE := 1_000_000
  const MIN_RECHARGE_AMOUNT := 100
  const MAX_RECHARGE_AMOUNT := 10_000_000_000

  /** What `Decimal(str(value))` can yield: coeff * 10^exponent, or nothing usable. */
  datatype MoneyInput = Unparsable | NotFinite | Number(coeff: int, exponent: int)

  datatype MoneyError = NotDecimal | NotFiniteAmount | NotPositive | BelowMinimum | AboveMaximum | TooManyPlaces

  predicate UnitAmount(amount: int) {
    MIN_UNIT_PRICE <= amount <= MAX_UNIT_PRICE
  }

  predicate RechargeAmount(amount: int) {
    MIN_RECHARGE_AMOUNT <= amount <= MAX_RECHARGE_AMOUNT
  }

  function Pow10(n: nat): (p: nat)
    ensures p >= 1
  {
    if n == 0 then 1 else 10 * Pow10(n - 1)
  }

  /** The amount in ticks, exactly. */
  function Ticks(v: MoneyInput): real
    requires v.Number?
  {
    if v.exponent >= -4 then (v.coeff * Pow10(v.exponent + 4)) as real
    else v.coeff as real / Pow10(-4 - v.exponent) as real
  }

  /** validate_money. Success means: a finite number with at most four decimal places as written,
      inside the bounds, returned unchanged in ticks. "1.00000" is refused although it is whole. */
  function ValidateMoney(v: MoneyInput, maximum: int, minimum: int, allowZero: bool): (r: Result<int, MoneyError>)
    ensures r.Ok? <==>
            && v.Number? && v.exponent >= -4
            && (Ticks(v) > 0.0 || (allowZero && Ticks(v) == 0.0))
            && minimum as real <= Ticks(v) <= maximum as real
    ensures r.Ok? ==> r.value as real == Ticks(v) && minimum <= r.value <= maximum
  {
    match v
    case Unparsable => Err(NotDecimal)
    case NotFinite => Err(NotFiniteAmount)
    case Number(coeff, exponent) =>
      var amount := Ticks(v);
      if amount < 0.0 || (!allowZero && amount == 0.0) then Err(NotPositive)
      else if amount < minimum as real then Err(BelowMinimum)
      else if amount > maximum as real then Err(AboveMaximum)
      else if exponent < -4 then Err(TooManyPlaces)
      else Ok(coeff * Pow10(exponent + 4))
  }

  /** A whole number counts 10,000 ticks each, and a place to the left ten times as many. */
  lemma TicksAre(coeff: int, exponent: int)
    ensures Ticks(Number(coeff, 0)) == (10_000 * coeff) as real
    ensures Ticks(Number(coeff, exponent + 1)) == 10.0 * Ticks(Number(coeff, exponent))
  {
    FourPlaces();
    if exponent < -4 {
      SmallTicks(coeff, -5 - exponent);
    } else {
      var p := Pow10(exponent + 4);
      assert Pow10(exponent + 5) == 10 * p;
      assert coeff * (10 * p) == 10 * (coeff * p);
    }
  }

  lemma FourPlaces()
    ensures Pow10(0) == 1 && Pow10(4) == 10_000
  {
    assert Pow10(1) == 10 && Pow10(2) == 100;
  }

  lemma SmallTicks(coeff: int, n: nat)
    ensures Ticks(Number(coeff, -4 - n)) == 10.0 * Ticks(Number(coeff, -5 - n))
  {
    FourPlaces();
    var p := Pow10(n) as real;
    assert Pow10(n + 1) as real == 10.0 * p;
    TenTimes(coeff as real, p);
  }

  lemma TenTimes(x: real, p: real)
    requires p > 0.0
    ensures x / p == 10.0 * (x / (10.0 * p))
  {
    var q := x / (10.0 * p);
    assert x == q * (10.0 * p) == 10.0 * q * p;
  }

  /** "1.00000" is one whole unit, in range, and refused for how it is written. */
  lemma FifthPlaceIsRefused()
    ensures Ticks(Number(100_000, -5)) == 10_000.0
    ensures ValidateMoney(Number(100_000, -5), MAX_RECHARGE_AMOUNT, MIN_RECHARGE_AMOUNT, false) == Err(TooManyPlaces)
    ensures ValidateMoney(Number(10_000, -4), MAX_RECHARGE_AMOUNT, MIN_RECHARGE_AMOUNT, false) == Ok(10_000)
  {
    assert Pow10(0) == 1 && Pow10(1) == 10;
  }
}
