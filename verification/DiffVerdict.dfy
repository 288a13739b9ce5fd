/** app/services/evaluation_service.py: exactly when the leaf rows of a comparison tell its verdict. */
module DiffVerdict {
  import opened Wrappers
  import opened Compare
  import opened CompareProofs
  import opened DiffRows

  /** Something whose row never matches: `Poison` along the paths of the rows, where list items are numbered. */
  predicate RowPoison(env: Strings, v: Json, path: string) {
    match v
    case Number(n) => !n.Fin?
    case Text(s) => IsNumericField(path) && env.parsed(WithoutCommas(env.folded(s))) == Some(QuietNaN)
    case Object(fields) => exists key | key in fields :: RowPoison(env, fields[key], Child(path, key))
    case List(items) => exists i | 0 <= i < |items| :: RowPoison(env, items[i], Element(path, i))
    case _ => false
  }

  // ----- paths of rows against paths of the verdict -----

  /** Row path q is compared as a number only if verdict path p is, and so are all paths below them. */
  predicate Under(q: string, p: string) {
    && q != "" && LeafName(q) == LeafName(p)
    && (Root(q) !in NUMERIC_EQUIVALENT_FIELDS || (p != "" && Root(q) == Root(p)))
  }

  predicate SameNames(q: string, p: string) {
    q != "" && p != "" && LeafName(q) == LeafName(p) && Root(q) == Root(p)
  }

  lemma {:induction false} AfterLastAppend(s: string, more: string, stop: char)
    requires stop !in more
    ensures AfterLast(s + more, stop) == AfterLast(s, stop) + more
  {
    if more == "" {
      assert s + more == s;
    } else {
      var rest := more[..|more| - 1];
      assert more == rest + [more[|more| - 1]];
      assert (s + more)[..|s + more| - 1] == s + rest;
      AfterLastAppend(s, rest, stop);
    }
  }

  lemma ElementLeafName(path: string, i: nat)
    ensures LeafName(Element(path, i)) == LeafName(path)
  {
    var more := "[" + Decimal(i) + "]";
    assert Element(path, i) == path + more;
    AfterLastAppend(path, more, '.');
    UpToKeeps(AfterLast(path, '.'), more, '[');
  }

  lemma UnderChild(q: string, p: string, key: string)
    ensures Under(q, p) ==> Under(Child(q, key), Child(p, key))
    ensures SameNames(q, p) ==> SameNames(Child(q, key), Child(p, key))
  {
    hide LeafName, Root;
    ChildLeafName(q, key);
    ChildLeafName(p, key);
    if q != "" {
      ChildRoot(q, key);
    }
    if p != "" {
      ChildRoot(p, key);
    }
  }

  lemma UnderElement(q: string, p: string, i: nat)
    ensures q == p || Under(q, p) ==> Under(Element(q, i), p)
    ensures SameNames(q, p) ==> SameNames(Element(q, i), p)
  {
    ElementLeafName(q, i);
    ElementRoot(q, i);
    if q == "" {
      assert Root(q) == "";
    }
  }

  lemma {:induction false} RowPoisonIsPoison(env: Strings, v: Json, q: string, p: string)
    requires (q == p || Under(q, p)) && RowPoison(env, v, q)
    ensures Poison(env, v, p)
  {
    match v
    case Object(fields) =>
      var key :| key in fields && RowPoison(env, fields[key], Child(q, key));
      UnderChild(q, p, key);
      RowPoisonIsPoison(env, fields[key], Child(q, key), Child(p, key));
    case List(items) =>
      var i :| 0 <= i < |items| && RowPoison(env, items[i], Element(q, i));
      UnderElement(q, p, i);
      RowPoisonIsPoison(env, items[i], Element(q, i), p);
    case _ =>
  }

  lemma {:induction false} PoisonIsRowPoison(env: Strings, v: Json, q: string, p: string)
    requires SameNames(q, p) && Poison(env, v, p)
    ensures RowPoison(env, v, q)
  {
    match v
    case Object(fields) =>
      var key :| key in fields && Poison(env, fields[key], Child(p, key));
      UnderChild(q, p, key);
      PoisonIsRowPoison(env, fields[key], Child(q, key), Child(p, key));
    case List(items) =>
      var i :| 0 <= i < |items| && Poison(env, items[i], p);
      UnderElement(q, p, i);
      PoisonIsRowPoison(env, items[i], Element(q, i), p);
    case _ =>
  }

  /** Below a named field the two notions are one. */
  lemma RowPoisonOfField(env: Strings, v: Json, path: string)
    requires path != ""
    ensures RowPoison(env, v, path) <==> Poison(env, v, path)
  {
    if RowPoison(env, v, path) {
      RowPoisonIsPoison(env, v, path, path);
    }
    if Poison(env, v, path) {
      PoisonIsRowPoison(env, v, path, path);
    }
  }

  // ----- rows, part by part -----

  lemma ObjectRowsSnoc(env: Strings, order: Json -> seq<string>, expected: Json, actual: Json, path: string,
                       rest: seq<string>, key: string)
    requires Lists(order) && expected.Object? && key in expected.fields
    requires forall k | k in rest :: k in expected.fields
    ensures forall k | k in rest + [key] :: k in expected.fields
    ensures ObjectRows(env, order, expected, actual, path, []) == []
    ensures ObjectRows(env, order, expected, actual, path, rest + [key])
            == ObjectRows(env, order, expected, actual, path, rest)
               + Rows(env, order, expected.fields[key], Field(actual, key), Child(path, key))
  {
    hide Rows, Field, Child;
    assert (rest + [key])[..|rest|] == rest;
  }

  lemma {:induction false} ObjectRowsMatch(env: Strings, order: Json -> seq<string>, expected: Json, actual: Json,
                                           path: string, keys: seq<string>)
    requires Lists(order) && expected.Object? && forall key | key in keys :: key in expected.fields
    ensures AllMatch(ObjectRows(env, order, expected, actual, path, keys))
            <==> forall key | key in keys ::
                   AllMatch(Rows(env, order, expected.fields[key], Field(actual, key), Child(path, key)))
    ensures ObjectRows(env, order, expected, actual, path, keys) == []
            <==> forall key | key in keys ::
                   Rows(env, order, expected.fields[key], Field(actual, key), Child(path, key)) == []
  {
    hide Rows, AllMatch, Field, Child;
    if keys == [] {
      NoRowsMatch();
    } else {
      hide ObjectRows;
      var rest := keys[..|keys| - 1];
      var key := keys[|keys| - 1];
      assert keys == rest + [key];
      ObjectRowsSnoc(env, order, expected, actual, path, rest, key);
      ObjectRowsMatch(env, order, expected, actual, path, rest);
      AllMatchConcat(ObjectRows(env, order, expected, actual, path, rest),
                     Rows(env, order, expected.fields[key], Field(actual, key), Child(path, key)));
    }
  }

  lemma NoRowsMatch()
    ensures AllMatch([])
  {
  }

  /** The rows of position i of two lists. */
  function ItemRows(env: Strings, order: Json -> seq<string>, expected: Json, actual: Json, path: string, i: nat)
    : seq<DiffRow>
    requires Lists(order) && expected.List?
  {
    if i < |expected.items| then Rows(env, order, expected.items[i], Item(actual, i), Element(path, i))
    else [Leaf(env, Null, Item(actual, i), Element(path, i))]
  }

  lemma ListRowsSnoc(env: Strings, order: Json -> seq<string>, expected: Json, actual: Json, path: string, n: nat)
    requires Lists(order) && expected.List?
    ensures ListRows(env, order, expected, actual, path, 0) == []
    ensures ListRows(env, order, expected, actual, path, n + 1)
            == ListRows(env, order, expected, actual, path, n) + ItemRows(env, order, expected, actual, path, n)
  {
    hide Rows, Leaf;
  }

  lemma {:induction false} ListRowsMatch(env: Strings, order: Json -> seq<string>, expected: Json, actual: Json,
                                         path: string, n: nat)
    requires Lists(order) && expected.List?
    ensures AllMatch(ListRows(env, order, expected, actual, path, n))
            <==> forall i: nat | i < n :: AllMatch(ItemRows(env, order, expected, actual, path, i))
    ensures ListRows(env, order, expected, actual, path, n) == []
            <==> forall i: nat | i < n :: ItemRows(env, order, expected, actual, path, i) == []
  {
    hide ListRows, ItemRows, AllMatch;
    if n == 0 {
      ListRowsSnoc(env, order, expected, actual, path, 0);
      NoRowsMatch();
    } else {
      ListRowsSnoc(env, order, expected, actual, path, n - 1);
      ListRowsMatch(env, order, expected, actual, path, n - 1);
      AllMatchConcat(ListRows(env, order, expected, actual, path, n - 1),
                     ItemRows(env, order, expected, actual, path, n - 1));
    }
  }

  lemma LeafRow(env: Strings, expected: Json, actual: Json, path: string)
    ensures AllMatch([Leaf(env, expected, actual, path)]) <==> Matches(env, actual, expected, path)
  {
    assert [Leaf(env, expected, actual, path)][0].isMatch <==> Matches(env, actual, expected, path);
  }

  // ----- poisoned truths: neither rows nor verdict ever match -----

  lemma {:induction false} RowPoisonFails(env: Strings, order: Json -> seq<string>, expected: Json, actual: Json,
                                          path: string)
    requires Lists(order) && RowPoison(env, expected, path)
    ensures !AllMatch(Rows(env, order, expected, actual, path))
    decreases expected
  {
    hide AllMatch, Leaf;
    match expected
    case Object(fields) =>
      var key :| key in fields && RowPoison(env, fields[key], Child(path, key));
      assert key in order(expected);
      RowPoisonFails(env, order, fields[key], Field(actual, key), Child(path, key));
      ObjectRowsMatch(env, order, expected, actual, path, order(expected));
    case List(items) =>
      var i: nat :| i < |items| && RowPoison(env, items[i], Element(path, i));
      RowPoisonFails(env, order, items[i], Item(actual, i), Element(path, i));
      ListRowsMatch(env, order, expected, actual, path, Longest(expected, actual));
      assert !AllMatch(ItemRows(env, order, expected, actual, path, i));
      NoRowsMatch();
    case _ =>
      RowPoisonIsPoison(env, expected, path, path);
      PoisonMatchesNothing(env, actual, expected, path);
      LeafRow(env, expected, actual, path);
  }

  // ----- clean truths: the rows of a value against itself all match -----

  lemma {:induction false} PoisonHasRows(env: Strings, order: Json -> seq<string>, v: Json, actual: Json,
                                         p: string, path: string)
    requires Lists(order) && Poison(env, v, p)
    ensures Rows(env, order, v, actual, path) != []
    decreases v
  {
    if v.Object? {
      var key :| key in v.fields && Poison(env, v.fields[key], Child(p, key));
      assert key in order(v);
      PoisonHasRows(env, order, v.fields[key], Field(actual, key), Child(p, key), Child(path, key));
      ObjectRowsMatch(env, order, v, actual, path, order(v));
    }
  }

  lemma {:induction false} CleanRowsMatch(env: Strings, order: Json -> seq<string>, v: Json, path: string)
    requires Lists(order) && !RowPoison(env, v, path)
    ensures AllMatch(Rows(env, order, v, v, path))
    decreases v
  {
    hide AllMatch, Leaf;
    match v
    case Object(fields) =>
      forall key | key in order(v) ensures AllMatch(Rows(env, order, fields[key], Field(v, key), Child(path, key))) {
        CleanRowsMatch(env, order, fields[key], Child(path, key));
      }
      ObjectRowsMatch(env, order, v, v, path, order(v));
    case List(items) =>
      forall i: nat | i < |items| ensures AllMatch(ItemRows(env, order, v, v, path, i)) {
        CleanRowsMatch(env, order, items[i], Element(path, i));
      }
      ListRowsMatch(env, order, v, v, path, |items|);
      if ListRows(env, order, v, v, path, |items|) == [] {
        ListWithoutRows(env, order, v, path);
        LeafRow(env, v, v, path);
      }
    case _ =>
      LeafOfItself(env, v, path);
      LeafRow(env, v, v, path);
  }

  lemma LeafOfItself(env: Strings, v: Json, path: string)
    requires !v.Object? && !v.List? && !RowPoison(env, v, path)
    ensures Matches(env, v, v, path)
  {
    MatchesItselfIffClean(env, v, path);
  }

  lemma ListWithoutRows(env: Strings, order: Json -> seq<string>, v: Json, path: string)
    requires Lists(order) && v.List? && ListRows(env, order, v, v, path, |v.items|) == []
    ensures Matches(env, v, v, path)
  {
    hide Rows;
    ListRowsMatch(env, order, v, v, path, |v.items|);
    forall i: nat | i < |v.items| ensures !Poison(env, v.items[i], path) {
      assert ItemRows(env, order, v, v, path, i) == [];
      if Poison(env, v.items[i], path) {
        PoisonHasRows(env, order, v.items[i], v.items[i], path, Element(path, i));
      }
    }
    MatchesItselfIffClean(env, v, path);
  }

  // ----- everything else: some value whose rows all match and which is no match -----

  lemma ListDisagrees(env: Strings, order: Json -> seq<string>, expected: Json, path: string)
    requires Lists(order) && expected.List? && !RowPoison(env, expected, path)
    ensures var actual := List(expected.items + [Null]);
            AllMatch(Rows(env, order, expected, actual, path)) && !Matches(env, actual, expected, path)
  {
    hide AllMatch, Leaf;
    var n := |expected.items|;
    var actual := List(expected.items + [Null]);
    forall i: nat | i < n + 1 ensures AllMatch(ItemRows(env, order, expected, actual, path, i)) {
      if i < n {
        CleanRowsMatch(env, order, expected.items[i], Element(path, i));
      } else {
        LeafRow(env, Null, Null, Element(path, i));
      }
    }
    ListRowsMatch(env, order, expected, actual, path, n + 1);
    assert ItemRows(env, order, expected, actual, path, n) != [];
  }

  lemma WithoutKeyDisagrees(env: Strings, order: Json -> seq<string>, expected: Json, path: string, key: string)
    requires Lists(order) && expected.Object? && !RowPoison(env, expected, path)
    requires key in expected.fields && expected.fields[key] == Null
    ensures var actual := Object(expected.fields - {key});
            AllMatch(Rows(env, order, expected, actual, path)) && !Matches(env, actual, expected, path)
  {
    hide AllMatch, Leaf;
    var actual := Object(expected.fields - {key});
    forall k | k in order(expected)
      ensures AllMatch(Rows(env, order, expected.fields[k], Field(actual, k), Child(path, k)))
    {
      if k == key {
        LeafRow(env, Null, Null, Child(path, k));
      } else {
        CleanRowsMatch(env, order, expected.fields[k], Child(path, k));
      }
    }
    ObjectRowsMatch(env, order, expected, actual, path, order(expected));
  }

  lemma CleanField(env: Strings, v: Json, path: string, key: string)
    requires v.Object? && key in v.fields && !RowPoison(env, v, path)
    ensures !RowPoison(env, v.fields[key], Child(path, key))
  {
  }

  lemma WithFieldDisagrees(env: Strings, order: Json -> seq<string>, expected: Json, path: string, key: string, w: Json)
    requires Lists(order) && expected.Object? && !RowPoison(env, expected, path) && key in expected.fields
    requires AllMatch(Rows(env, order, expected.fields[key], w, Child(path, key)))
    requires !Matches(env, w, expected.fields[key], Child(path, key))
    ensures var actual := Object(expected.fields[key := w]);
            AllMatch(Rows(env, order, expected, actual, path)) && !Matches(env, actual, expected, path)
  {
    hide AllMatch, Leaf, Matches, RowPoison;
    var actual := Object(expected.fields[key := w]);
    MatchesByField(env, actual, expected, path);
    forall k | k in order(expected)
      ensures AllMatch(Rows(env, order, expected.fields[k], Field(actual, k), Child(path, k)))
    {
      if k != key {
        CleanField(env, expected, path, k);
        CleanRowsMatch(env, order, expected.fields[k], Child(path, k));
      }
    }
    ObjectRowsMatch(env, order, expected, actual, path, order(expected));
  }

  lemma {:induction false} Disagreement(env: Strings, order: Json -> seq<string>, expected: Json, path: string)
    returns (actual: Json)
    requires Lists(order) && !Plain(expected) && !expected.Null? && !RowPoison(env, expected, path)
    ensures AllMatch(Rows(env, order, expected, actual, path)) && !Matches(env, actual, expected, path)
    decreases expected
  {
    hide Rows, Matches, AllMatch;
    if expected.List? {
      ListDisagrees(env, order, expected, path);
      actual := List(expected.items + [Null]);
    } else if expected.fields == map[] {
      EmptyObjectHasNoRows(env, order, "", path);
      actual := Text("");
    } else {
      var key :| key in expected.fields && !Plain(expected.fields[key]);
      if expected.fields[key] == Null {
        WithoutKeyDisagrees(env, order, expected, path, key);
        actual := Object(expected.fields - {key});
      } else {
        var w := Disagreement(env, order, expected.fields[key], Child(path, key));
        WithFieldDisagrees(env, order, expected, path, key, w);
        actual := Object(expected.fields[key := w]);
      }
    }
  }

  // ----- exactly when -----

  /** Whatever was extracted, the rows all match if and only if the value as a whole does. */
  ghost predicate RowsTellVerdict(env: Strings, order: Json -> seq<string>, expected: Json, path: string)
    requires Lists(order)
  {
    forall actual :: AllMatch(Rows(env, order, expected, actual, path)) <==> Matches(env, actual, expected, path)
  }

  /** The rows tell the verdict exactly for ground truths that contain no list, no null and no empty object,
      for null itself, and for those with a row that can never match. */
  lemma RowsTellVerdictExactly(env: Strings, order: Json -> seq<string>, expected: Json, path: string)
    requires Lists(order)
    ensures RowsTellVerdict(env, order, expected, path)
            <==> Plain(expected) || expected.Null? || RowPoison(env, expected, path)
  {
    hide Rows, Matches, AllMatch, RowPoison;
    if RowPoison(env, expected, path) {
      RowPoisonIsPoison(env, expected, path, path);
      forall actual
        ensures AllMatch(Rows(env, order, expected, actual, path)) <==> Matches(env, actual, expected, path)
      {
        RowPoisonFails(env, order, expected, actual, path);
        PoisonMatchesNothing(env, actual, expected, path);
      }
    } else if Plain(expected) {
      forall actual
        ensures AllMatch(Rows(env, order, expected, actual, path)) <==> Matches(env, actual, expected, path)
      {
        RowsAgreeWithVerdict(env, order, expected, actual, path);
      }
    } else if expected.Null? {
      forall actual
        ensures AllMatch(Rows(env, order, expected, actual, path)) <==> Matches(env, actual, expected, path)
      {
        NullRow(env, order, actual, path);
      }
    } else {
      var actual := Disagreement(env, order, expected, path);
    }
  }

  lemma NullRow(env: Strings, order: Json -> seq<string>, actual: Json, path: string)
    requires Lists(order)
    ensures AllMatch(Rows(env, order, Null, actual, path)) <==> Matches(env, actual, Null, path)
  {
    LeafRow(env, Null, actual, path);
  }

  /** Below a named field the third condition is poison of the verdict itself. */
  lemma FieldRowsTellVerdict(env: Strings, order: Json -> seq<string>, expected: Json, path: string)
    requires Lists(order) && path != ""
    ensures RowsTellVerdict(env, order, expected, path)
            <==> Plain(expected) || expected.Null? || Poison(env, expected, path)
  {
    hide RowsTellVerdict;
    RowsTellVerdictExactly(env, order, expected, path);
    RowPoisonOfField(env, expected, path);
  }
}
