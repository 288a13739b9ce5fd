/** app/services/evaluation_service.py: comparing an extracted value with the ground truth. */
module Compare {
  import opened Wrappers

  /** A decimal, as `Decimal(str(x))` reads it. */
  datatype Num = Fin(value: real) | PosInf | NegInf | QuietNaN | SignalingNaN

  datatype Json =
    | Null
    | Bool(truth: bool)
    | Number(num: Num)
    | Text(text: string)
    | Object(fields: map<string, Json>)
    | List(items: seq<Json>)

  /** The string functions of the language: `str` of a value that is no text, white space joined and case
      folded, and the decimal a text denotes, if any. */
  datatype Strings = Strings(shown: Json -> string, folded: string -> string, parsed: string -> Option<Num>)

  // ----- field paths -----

  function UpTo(s: string, stop: char): string {
    if s == "" || s[0] == stop then "" else [s[0]] + UpTo(s[1..], stop)
  }

  function AfterLast(s: string, stop: char): string {
    if s == "" then ""
    else if s[|s| - 1] == stop then ""
    else AfterLast(s[..|s| - 1], stop) + [s[|s| - 1]]
  }

  const NUMERIC_EQUIVALENT_FIELDS := {
    "TotalContainerQty", "Packages", "GrossWeight", "NetWeight", "Volume", "KGS", "PCS", "CBM" }

  predicate IsNumericField(path: string) {
    UpTo(UpTo(path, '.'), '[') in NUMERIC_EQUIVALENT_FIELDS
    || UpTo(AfterLast(path, '.'), '[') in NUMERIC_EQUIVALENT_FIELDS
  }

  function Child(path: string, key: string): string {
    if path == "" then key else path + "." + key
  }

  // ----- leaves -----

  /** Within 0.001; any comparison that involves a NaN, and Infinity - Infinity, raises and so fails. */
  predicate Close(a: Num, b: Num) {
    a.Fin? && b.Fin? && -0.001 <= a.value - b.value <= 0.001
  }

  function Str(env: Strings, v: Json): string {
    if v.Text? then v.text else env.shown(v)
  }

  /** `Decimal(str(v))`. The text of a boolean, an object or a list is never a decimal. */
  function AsNumber(env: Strings, v: Json): Option<Num> {
    match v
    case Number(n) => Some(n)
    case Text(s) => env.parsed(s)
    case _ => None
  }

  function WithoutCommas(s: string): string {
    if s == "" then "" else if s[0] == ',' then WithoutCommas(s[1..]) else [s[0]] + WithoutCommas(s[1..])
  }

  /** Decimal equality: a quiet NaN equals nothing, a signaling one raises. */
  function SameNumber(a: Num, b: Num): Option<bool> {
    if a.SignalingNaN? || b.SignalingNaN? then None
    else Some(a == b && a != QuietNaN)
  }

  predicate SameText(env: Strings, actual: string, expected: string, path: string) {
    var a, e := env.folded(actual), env.folded(expected);
    match (env.parsed(WithoutCommas(a)), env.parsed(WithoutCommas(e)))
    case (Some(m), Some(n)) =>
      if IsNumericField(path) && SameNumber(m, n).Some? then SameNumber(m, n).value else a == e
    case _ => a == e
  }

  // ----- values -----

  /** Whether the extracted value meets the expected one. */
  predicate Matches(env: Strings, actual: Json, expected: Json, path: string)
    decreases expected, 0
  {
    match expected
    case Null => actual.Null?
    case Bool(b) => actual == Bool(b)
    case Number(n) => AsNumber(env, actual).Some? && Close(AsNumber(env, actual).value, n)
    case Object(fields) =>
      actual.Object?
      && forall key | key in fields ::
           key in actual.fields && Matches(env, actual.fields[key], fields[key], Child(path, key))
    case List(items) => actual.List? && |actual.items| == |items| && Greedy(env, actual.items, items, path)
    case Text(t) => !actual.Null? && SameText(env, Str(env, actual), t, path)
  }

  /** The first position at or after `from` whose item meets the expected one. */
  function FirstMatch(env: Strings, unmatched: seq<Json>, expected: Json, path: string, from: nat): (r: Option<nat>)
    requires from <= |unmatched|
    ensures r.Some? ==> from <= r.value < |unmatched| && Matches(env, unmatched[r.value], expected, path)
    ensures r.Some? ==> forall i | from <= i < r.value :: !Matches(env, unmatched[i], expected, path)
    ensures r.None? ==> forall i | from <= i < |unmatched| :: !Matches(env, unmatched[i], expected, path)
    decreases expected, 1 + |unmatched| - from
  {
    if from == |unmatched| then None
    else if Matches(env, unmatched[from], expected, path) then Some(from)
    else FirstMatch(env, unmatched, expected, path, from + 1)
  }

  function Without<T>(s: seq<T>, i: nat): (r: seq<T>)
    requires i < |s|
    ensures |r| == |s| - 1
  {
    s[..i] + s[i + 1..]
  }

  /** Each expected item in turn takes the first item left that it matches. */
  predicate Greedy(env: Strings, unmatched: seq<Json>, expected: seq<Json>, path: string)
    requires |unmatched| == |expected|
    decreases expected
  {
    expected == []
    || (match FirstMatch(env, unmatched, expected[0], path, 0)
        case None => false
        case Some(i) => Greedy(env, Without(unmatched, i), expected[1..], path))
  }

  // ----- the comparison as it runs -----

  method CompareValues(env: Strings, actual: Json, expected: Json, path: string) returns (r: bool)
    ensures r == Matches(env, actual, expected, path)
    decreases expected, 0
  {
    if expected.Null? {
      return actual.Null?;
    }
    if actual.Null? {
      return false;
    }
    if expected.Bool? {
      return actual.Bool? && actual.truth == expected.truth;
    }
    if expected.Number? {
      var number := AsNumber(env, actual);
      return number.Some? && Close(number.value, expected.num);
    }
    if expected.Object? {
      if !actual.Object? {
        return false;
      }
      var keys := expected.fields.Keys;
      while keys != {}
        invariant keys <= expected.fields.Keys
        invariant forall key | key in expected.fields && key !in keys ::
                    key in actual.fields
                    && Matches(env, actual.fields[key], expected.fields[key], Child(path, key))
        decreases |keys|
      {
        var key :| key in keys;
        keys := keys - {key};
        if key !in actual.fields {
          return false;
        }
        var ok := CompareValues(env, actual.fields[key], expected.fields[key], Child(path, key));
        if !ok {
          return false;
        }
      }
      return true;
    }
    if expected.List? {
      if !actual.List? || |actual.items| != |expected.items| {
        return false;
      }
      r := CompareLists(env, actual.items, expected.items, path);
      return;
    }
    return SameText(env, Str(env, actual), expected.text, path);
  }

  method CompareLists(env: Strings, actual: seq<Json>, expected: seq<Json>, path: string) returns (r: bool)
    requires |actual| == |expected|
    ensures r == Greedy(env, actual, expected, path)
    decreases expected, 1
  {
    var unmatched := actual;
    for j := 0 to |expected|
      invariant |unmatched| == |expected| - j
      invariant Greedy(env, actual, expected, path) == Greedy(env, unmatched, expected[j..], path)
    {
      assert expected[j..][0] == expected[j] && expected[j..][1..] == expected[j + 1..];
      var found := false;
      var i := 0;
      while i < |unmatched| && !found
        invariant i <= |unmatched|
        invariant FirstMatch(env, unmatched, expected[j], path, 0) == FirstMatch(env, unmatched, expected[j], path, i)
        invariant found ==> i < |unmatched| && Matches(env, unmatched[i], expected[j], path)
        decreases |unmatched| - i, !found
      {
        found := CompareValues(env, unmatched[i], expected[j], path);
        if !found {
          i := i + 1;
        }
      }
      if !found {
        return false;
      }
      unmatched := Without(unmatched, i);
    }
    return true;
  }
}
