/** app/services/evaluation_service.py: the leaf-level rows shown for a comparison, against its verdict. */
module DiffRows {
  import opened Wrappers
  import opened Compare

  datatype DiffRow = DiffRow(field: string, expected: Json, actual: Json, isMatch: bool, critical: bool)

  const CRITICAL_FIELDS := {
    "BookingNo", "BLNo", "Vessel", "Voyage", "POL", "POD", "ContainerInfo", "GrossWeight", "Volume", "Packages",
    "BillOfLadingNo", "VesselName", "PortOfLoading", "PortOfDischarge", "ContainerList", "PackageQuantity" }

  function Root(path: string): string {
    UpTo(UpTo(path, '.'), '[')
  }

  function Element(path: string, i: nat): string {
    path + "[" + Decimal(i) + "]"
  }

  /** The order in which a dictionary lists its keys. */
  ghost predicate Lists(order: Json -> seq<string>) {
    forall v: Json, key | v.Object? :: key in order(v) <==> key in v.fields
  }

  function Leaf(env: Strings, expected: Json, actual: Json, path: string): DiffRow {
    DiffRow(path, expected, actual, Matches(env, actual, expected, path), Root(path) in CRITICAL_FIELDS)
  }

  function Field(v: Json, key: string): Json {
    if v.Object? && key in v.fields then v.fields[key] else Null
  }

  function Item(v: Json, i: nat): Json {
    if v.List? && i < |v.items| then v.items[i] else Null
  }

  function Length(v: Json): nat {
    if v.List? then |v.items| else 0
  }

  function Longest(expected: Json, actual: Json): nat {
    if Length(expected) >= Length(actual) then Length(expected) else Length(actual)
  }

  /** The rows of a value; list items are shown position by position, the longer list against nulls. */
  function Rows(env: Strings, order: Json -> seq<string>, expected: Json, actual: Json, path: string): seq<DiffRow>
    requires Lists(order)
    decreases expected, 1, 0
  {
    match expected
    case Object(_) => ObjectRows(env, order, expected, actual, path, order(expected))
    case List(_) =>
      var rows := ListRows(env, order, expected, actual, path, Longest(expected, actual));
      if rows == [] then [Leaf(env, expected, actual, path)] else rows
    case _ => [Leaf(env, expected, actual, path)]
  }

  function ObjectRows(env: Strings, order: Json -> seq<string>, expected: Json, actual: Json, path: string,
                      keys: seq<string>): seq<DiffRow>
    requires Lists(order) && expected.Object? && forall key | key in keys :: key in expected.fields
    decreases expected, 0, |keys|
  {
    if keys == [] then []
    else
      var key := keys[|keys| - 1];
      ObjectRows(env, order, expected, actual, path, keys[..|keys| - 1])
      + Rows(env, order, expected.fields[key], Field(actual, key), Child(path, key))
  }

  function ListRows(env: Strings, order: Json -> seq<string>, expected: Json, actual: Json, path: string, n: nat)
    : seq<DiffRow>
    requires Lists(order) && expected.List?
    decreases expected, 0, n
  {
    if n == 0 then []
    else
      ListRows(env, order, expected, actual, path, n - 1)
      + if n <= |expected.items|
        then Rows(env, order, expected.items[n - 1], Item(actual, n - 1), Element(path, n - 1))
        else [Leaf(env, Null, Item(actual, n - 1), Element(path, n - 1))]
  }

  /** build_field_diff_rows. */
  method BuildFieldDiffRows(env: Strings, order: Json -> seq<string>, expected: Json, actual: Json, path: string)
    returns (rows: seq<DiffRow>)
    requires Lists(order)
    ensures rows == Rows(env, order, expected, actual, path)
    decreases expected, 1, 0
  {
    hide Leaf, Matches, Element, Child, Field, Item;
    if expected.Object? {
      rows := BuildObjectRows(env, order, expected, actual, path);
      return;
    }
    if expected.List? {
      rows := BuildListRows(env, order, expected, actual, path);
      if rows != [] {
        return;
      }
    }
    rows := [Leaf(env, expected, actual, path)];
  }

  method BuildObjectRows(env: Strings, order: Json -> seq<string>, expected: Json, actual: Json, path: string)
    returns (rows: seq<DiffRow>)
    requires Lists(order) && expected.Object?
    ensures rows == ObjectRows(env, order, expected, actual, path, order(expected))
    decreases expected, 0, 0
  {
    hide Rows, Leaf, Matches, Child, Field;
    rows := [];
    var keys := order(expected);
    assert keys[..0] == [];
    for i := 0 to |keys|
      invariant rows == ObjectRows(env, order, expected, actual, path, keys[..i])
    {
      assert keys[..i + 1][..i] == keys[..i];
      assert keys[i] in keys;
      var key := keys[i];
      var more := BuildFieldDiffRows(env, order, expected.fields[key], Field(actual, key), Child(path, key));
      rows := rows + more;
    }
    assert keys[..|keys|] == keys;
  }

  method BuildListRows(env: Strings, order: Json -> seq<string>, expected: Json, actual: Json, path: string)
    returns (rows: seq<DiffRow>)
    requires Lists(order) && expected.List?
    ensures rows == ListRows(env, order, expected, actual, path, Longest(expected, actual))
    decreases expected, 0, 0
  {
    hide Rows, Leaf, Matches, Element, Item;
    rows := [];
    for i := 0 to Longest(expected, actual)
      invariant rows == ListRows(env, order, expected, actual, path, i)
    {
      if i < |expected.items| {
        var more := BuildFieldDiffRows(env, order, expected.items[i], Item(actual, i), Element(path, i));
        rows := rows + more;
      } else {
        rows := rows + [Leaf(env, Null, Item(actual, i), Element(path, i))];
      }
    }
  }

  // ----- rows against the verdict -----

  predicate AllMatch(rows: seq<DiffRow>) {
    forall i | 0 <= i < |rows| :: rows[i].isMatch
  }

  lemma AllMatchConcat(a: seq<DiffRow>, b: seq<DiffRow>)
    ensures AllMatch(a + b) <==> AllMatch(a) && AllMatch(b)
  {
    if AllMatch(a + b) {
      forall i | 0 <= i < |a| ensures a[i].isMatch { assert (a + b)[i] == a[i]; }
      forall i | 0 <= i < |b| ensures b[i].isMatch { assert (a + b)[|a| + i] == b[i]; }
    }
  }

  /** A ground truth without lists, nulls and empty objects. */
  predicate Plain(v: Json) {
    match v
    case Null => false
    case List(_) => false
    case Object(fields) => fields != map[] && forall key | key in fields :: Plain(fields[key])
    case _ => true
  }

  /** For a plain ground truth the rows all match exactly if the value as a whole does. */
  lemma {:induction false} RowsAgreeWithVerdict(env: Strings, order: Json -> seq<string>, expected: Json, actual: Json,
                                                path: string)
    requires Lists(order) && Plain(expected)
    ensures AllMatch(Rows(env, order, expected, actual, path)) <==> Matches(env, actual, expected, path)
    decreases expected, 1, 0
  {
    if expected.Object? {
      var keys := order(expected);
      FieldsAgree(env, order, expected, actual, path, keys);
      var key :| key in expected.fields;
      assert key in keys;
    } else {
      var row := Leaf(env, expected, actual, path);
      assert Rows(env, order, expected, actual, path) == [row];
      assert AllMatch([row]) <==> [row][0].isMatch;
    }
  }

  lemma {:induction false} FieldsAgree(env: Strings, order: Json -> seq<string>, expected: Json, actual: Json,
                                       path: string, keys: seq<string>)
    requires Lists(order) && Plain(expected) && expected.Object?
    requires forall key | key in keys :: key in expected.fields
    ensures AllMatch(ObjectRows(env, order, expected, actual, path, keys))
            <==> forall key | key in keys ::
                   Matches(env, Field(actual, key), expected.fields[key], Child(path, key))
    ensures forall key | key in keys && !(actual.Object? && key in actual.fields) ::
              !Matches(env, Field(actual, key), expected.fields[key], Child(path, key))
    decreases expected, 0, |keys|
  {
    if keys != [] {
      hide Matches, Rows;
      var rest := keys[..|keys| - 1];
      var key := keys[|keys| - 1];
      assert keys == rest + [key];
      FieldsAgree(env, order, expected, actual, path, rest);
      RowsAgreeWithVerdict(env, order, expected.fields[key], Field(actual, key), Child(path, key));
      AllMatchConcat(ObjectRows(env, order, expected, actual, path, rest),
                     Rows(env, order, expected.fields[key], Field(actual, key), Child(path, key)));
      NothingMeetsPlain(env, expected.fields[key], Child(path, key));
    }
  }

  lemma NothingMeetsPlain(env: Strings, expected: Json, path: string)
    requires Plain(expected)
    ensures !Matches(env, Null, expected, path)
  {
  }

  /** Beyond plain ground truths rows and verdict part ways: an empty object has no rows to fail. */
  lemma EmptyObjectHasNoRows(env: Strings, order: Json -> seq<string>, text: string, path: string)
    requires Lists(order)
    ensures AllMatch(Rows(env, order, Object(map[]), Text(text), path))
    ensures !Matches(env, Text(text), Object(map[]), path)
  {
    SomeMember(order(Object(map[])));
  }

  // ----- critical rows -----

  lemma {:induction false} UpToKeeps(path: string, more: string, stop: char)
    requires more != "" && more[0] == stop
    ensures UpTo(path + more, stop) == UpTo(path, stop)
  {
    if path == "" {
      assert path + more == more;
    } else {
      assert (path + more)[1..] == path[1..] + more;
      UpToKeeps(path[1..], more, stop);
    }
  }

  lemma {:induction false} UpToOf(path: string, more: string, stop: char)
    ensures UpTo(path + more, stop) == if stop in path then UpTo(path, stop) else path + UpTo(more, stop)
  {
    if path == "" {
      assert path + more == more;
    } else {
      var rest := path[1..];
      assert path == [path[0]] + rest && (path + more)[1..] == rest + more && (path + more)[0] == path[0];
      if path[0] != stop {
        UpToOf(rest, more, stop);
        assert stop in path <==> stop in rest;
        assert path + UpTo(more, stop) == [path[0]] + (rest + UpTo(more, stop));
      }
    }
  }

  lemma {:induction false} UpToWithout(path: string, stop: char)
    requires stop !in path
    ensures UpTo(path, stop) == path
  {
    if path != "" {
      UpToWithout(path[1..], stop);
    }
  }

  lemma ChildRoot(path: string, key: string)
    requires path != ""
    ensures Root(Child(path, key)) == Root(path)
  {
    assert path + "." + key == path + ("." + key);
    UpToKeeps(path, "." + key, '.');
  }

  lemma ElementRoot(path: string, i: nat)
    ensures Root(Element(path, i)) == Root(path)
  {
    var more := "[" + Decimal(i) + "]";
    assert Element(path, i) == path + more;
    UpToOf(path, more, '.');
    if '.' !in path {
      UpToWithout(path, '.');
      assert UpTo(more, '.') == ['['] + UpTo(more[1..], '.');
      UpToKeeps(path, UpTo(more, '.'), '[');
    }
  }

  /** The name a path ends in, without positions. */
  function LeafName(path: string): string {
    UpTo(AfterLast(path, '.'), '[')
  }

  lemma {:induction false} AfterLastBehind(front: string, key: string, stop: char)
    ensures AfterLast(front + [stop] + key, stop) == AfterLast(key, stop)
  {
    var s := front + [stop] + key;
    if key != "" {
      var rest := key[..|key| - 1];
      assert key == rest + [key[|key| - 1]];
      assert s[..|s| - 1] == front + [stop] + rest;
      AfterLastBehind(front, rest, stop);
    }
  }

  lemma ChildLeafName(path: string, key: string)
    ensures LeafName(Child(path, key)) == LeafName(key)
  {
    if path != "" {
      AfterLastBehind(path, key, '.');
    }
  }

  /** A nested field is compared as a number exactly if its top-level field is, or its own name says so. */
  lemma NumericByRootOrLeaf(path: string, key: string)
    requires path != ""
    ensures IsNumericField(Child(path, key))
            <==> Root(path) in NUMERIC_EQUIVALENT_FIELDS || LeafName(key) in NUMERIC_EQUIVALENT_FIELDS
  {
    hide UpTo;
    ChildRoot(path, key);
    ChildLeafName(path, key);
  }

  /** Every row below a named field is critical exactly if the top-level field is. */
  lemma {:induction false} CriticalIsInherited(env: Strings, order: Json -> seq<string>, expected: Json, actual: Json,
                                               path: string)
    requires Lists(order) && path != ""
    ensures forall row | row in Rows(env, order, expected, actual, path) ::
              row.critical <==> Root(path) in CRITICAL_FIELDS
    decreases expected, 1, 0
  {
    match expected
    case Object(_) => FieldsInherit(env, order, expected, actual, path, order(expected));
    case List(_) => ItemsInherit(env, order, expected, actual, path, Longest(expected, actual));
    case _ =>
  }

  lemma {:induction false} FieldsInherit(env: Strings, order: Json -> seq<string>, expected: Json, actual: Json,
                                         path: string, keys: seq<string>)
    requires Lists(order) && path != "" && expected.Object? && forall key | key in keys :: key in expected.fields
    ensures forall row | row in ObjectRows(env, order, expected, actual, path, keys) ::
              row.critical <==> Root(path) in CRITICAL_FIELDS
    decreases expected, 0, |keys|
  {
    if keys != [] {
      var key := keys[|keys| - 1];
      FieldsInherit(env, order, expected, actual, path, keys[..|keys| - 1]);
      ChildRoot(path, key);
      CriticalIsInherited(env, order, expected.fields[key], Field(actual, key), Child(path, key));
    }
  }

  lemma {:induction false} ItemsInherit(env: Strings, order: Json -> seq<string>, expected: Json, actual: Json,
                                        path: string, n: nat)
    requires Lists(order) && path != "" && expected.List?
    ensures forall row | row in ListRows(env, order, expected, actual, path, n) ::
              row.critical <==> Root(path) in CRITICAL_FIELDS
    decreases expected, 0, n
  {
    if n > 0 {
      ItemsInherit(env, order, expected, actual, path, n - 1);
      ElementRoot(path, n - 1);
      if n <= |expected.items| {
        CriticalIsInherited(env, order, expected.items[n - 1], Item(actual, n - 1), Element(path, n - 1));
      }
    }
  }

  // ----- what a row shows -----

  /** The row pairs the two values found by the same way into both, null standing for what the extracted value
      does not have; or an item the extracted list has too many, against null. */
  ghost predicate Shows(row: DiffRow, expected: Json, actual: Json, path: string)
    decreases expected
  {
    || (row.field == path && row.expected == expected && row.actual == actual)
    || (expected.Object? && exists key | key in expected.fields ::
          Shows(row, expected.fields[key], if actual.Object? && key in actual.fields then actual.fields[key] else Null,
                if path == "" then key else path + "." + key))
    || (expected.List? && exists i: nat | i < |expected.items| ::
          Shows(row, expected.items[i], if actual.List? && i < |actual.items| then actual.items[i] else Null,
                path + "[" + Decimal(i) + "]"))
    || (expected.List? && actual.List? && exists i: nat | |expected.items| <= i < |actual.items| ::
          row.field == path + "[" + Decimal(i) + "]" && row.expected == Null && row.actual == actual.items[i])
  }

  /** Every row shows such a pair, and its mark is the verdict on it. */
  ghost predicate Sound(env: Strings, rows: seq<DiffRow>, expected: Json, actual: Json, path: string) {
    forall row | row in rows ::
      Shows(row, expected, actual, path) && (row.isMatch <==> Matches(env, row.actual, row.expected, row.field))
  }

  lemma {:induction false} RowsShowValues(env: Strings, order: Json -> seq<string>, expected: Json, actual: Json,
                                          path: string)
    requires Lists(order)
    ensures Sound(env, Rows(env, order, expected, actual, path), expected, actual, path)
    decreases expected, 1, 0
  {
    hide Matches, Shows, ObjectRows, ListRows;
    LeafShows(env, expected, actual, path);
    match expected
    case Object(_) => FieldsShow(env, order, expected, actual, path, order(expected));
    case List(_) => ItemsShow(env, order, expected, actual, path, Longest(expected, actual));
    case _ =>
  }

  lemma LeafShows(env: Strings, expected: Json, actual: Json, path: string)
    ensures Sound(env, [Leaf(env, expected, actual, path)], expected, actual, path)
  {
    hide Matches;
  }

  lemma {:induction false} FieldsShow(env: Strings, order: Json -> seq<string>, expected: Json, actual: Json,
                                      path: string, keys: seq<string>)
    requires Lists(order) && expected.Object? && forall key | key in keys :: key in expected.fields
    ensures Sound(env, ObjectRows(env, order, expected, actual, path, keys), expected, actual, path)
    decreases expected, 0, |keys|
  {
    hide Matches, Shows, Rows;
    if keys != [] {
      var key := keys[|keys| - 1];
      FieldsShow(env, order, expected, actual, path, keys[..|keys| - 1]);
      RowsShowValues(env, order, expected.fields[key], Field(actual, key), Child(path, key));
      forall row | Shows(row, expected.fields[key], Field(actual, key), Child(path, key))
        ensures Shows(row, expected, actual, path)
      {
        FieldShows(row, expected, actual, path, key);
      }
    }
  }

  lemma FieldShows(row: DiffRow, expected: Json, actual: Json, path: string, key: string)
    requires expected.Object? && key in expected.fields
    requires Shows(row, expected.fields[key], Field(actual, key), Child(path, key))
    ensures Shows(row, expected, actual, path)
  {
  }

  lemma {:induction false} ItemsShow(env: Strings, order: Json -> seq<string>, expected: Json, actual: Json,
                                     path: string, n: nat)
    requires Lists(order) && expected.List? && n <= Longest(expected, actual)
    ensures Sound(env, ListRows(env, order, expected, actual, path, n), expected, actual, path)
    decreases expected, 0, n
  {
    hide Matches, Shows, Rows;
    if n > 0 {
      ItemsShow(env, order, expected, actual, path, n - 1);
      if n <= |expected.items| {
        RowsShowValues(env, order, expected.items[n - 1], Item(actual, n - 1), Element(path, n - 1));
        forall row | Shows(row, expected.items[n - 1], Item(actual, n - 1), Element(path, n - 1))
          ensures Shows(row, expected, actual, path)
        {
          ItemShows(row, expected, actual, path, n - 1);
        }
      } else {
        SurplusShows(env, expected, actual, path, n - 1);
      }
    }
  }

  lemma ItemShows(row: DiffRow, expected: Json, actual: Json, path: string, i: nat)
    requires expected.List? && i < |expected.items|
    requires Shows(row, expected.items[i], Item(actual, i), Element(path, i))
    ensures Shows(row, expected, actual, path)
  {
  }

  lemma SurplusShows(env: Strings, expected: Json, actual: Json, path: string, i: nat)
    requires expected.List? && |expected.items| <= i < Longest(expected, actual)
    ensures Sound(env, [Leaf(env, Null, Item(actual, i), Element(path, i))], expected, actual, path)
  {
    hide Matches;
  }
}
