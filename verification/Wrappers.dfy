/** Result types and small functions shared by the models of the service's Python modules. */
module Wrappers {

  datatype Option<+T> = None | Some(value: T)

  datatype Result<+T, +E> = Ok(value: T) | Err(error: E)

  function Min(a: int, b: int): int {
    if a <= b then a else b
  }

  /** A number's decimal text. */
  function Decimal(n: nat): (r: string)
    ensures r != "" && forall i | 0 <= i < |r| :: '0' <= r[i] <= '9'
  {
    if n < 10 then ["0123456789"[n]] else Decimal(n / 10) + ["0123456789"[n % 10]]
  }

  lemma SomeMember(keys: seq<string>)
    ensures keys == [] || exists key :: key in keys
  {
    if keys != [] {
      assert keys[0] in keys;
    }
  }
}
