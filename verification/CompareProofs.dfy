/** What the comparison decides: one-to-one pairings of list items, exactly where the item relation allows it. */
module CompareProofs {
  import opened Wrappers
  import opened Compare

  // ----- lists in general -----

  /** The expected items can be paired off with distinct items of the pool that match them, none left over. */
  ghost predicate Pairable(env: Strings, pool: multiset<Json>, expected: seq<Json>, path: string)
    decreases |expected|
  {
    if expected == [] then pool == multiset{}
    else exists x :: x in pool && Matches(env, x, expected[0], path)
                     && Pairable(env, pool - multiset{x}, expected[1..], path)
  }

  lemma WithoutMultiset<T>(s: seq<T>, i: nat)
    requires i < |s|
    ensures multiset(Without(s, i)) == multiset(s) - multiset{s[i]}
  {
    assert s == s[..i] + [s[i]] + s[i + 1..];
  }

  /** Success means that a one-to-one pairing exists, for all JSON lists. */
  lemma {:induction false} GreedyPairs(env: Strings, unmatched: seq<Json>, expected: seq<Json>, path: string)
    requires |unmatched| == |expected| && Greedy(env, unmatched, expected, path)
    ensures Pairable(env, multiset(unmatched), expected, path)
    decreases |expected|
  {
    if expected != [] {
      var i := FirstMatch(env, unmatched, expected[0], path, 0).value;
      GreedyPairs(env, Without(unmatched, i), expected[1..], path);
      WithoutMultiset(unmatched, i);
      assert unmatched[i] in multiset(unmatched);
    }
  }

  lemma Choice(env: Strings, pool: multiset<Json>, expected: seq<Json>, path: string) returns (x: Json)
    requires expected != [] && Pairable(env, pool, expected, path)
    ensures x in pool && Matches(env, x, expected[0], path) && Pairable(env, pool - multiset{x}, expected[1..], path)
  {
    x :| x in pool && Matches(env, x, expected[0], path) && Pairable(env, pool - multiset{x}, expected[1..], path);
  }

  lemma PairFirst(env: Strings, pool: multiset<Json>, expected: seq<Json>, path: string, x: Json, rest: multiset<Json>)
    requires expected != [] && x in pool && rest == pool - multiset{x}
    requires Matches(env, x, expected[0], path) && Pairable(env, rest, expected[1..], path)
    ensures Pairable(env, pool, expected, path)
  {
  }

  /** y matches whatever z matches. */
  ghost predicate Covers(env: Strings, y: Json, z: Json, expected: seq<Json>, path: string) {
    forall e | e in expected && Matches(env, z, e, path) :: Matches(env, y, e, path)
  }

  /** Two items that share one expected item share them all. */
  ghost predicate Zigzag(env: Strings, pool: multiset<Json>, expected: seq<Json>, path: string) {
    forall a, b, e | a in pool && b in pool && e in expected && Matches(env, a, e, path) && Matches(env, b, e, path) ::
      Covers(env, b, a, expected, path)
  }

  lemma CoversRest(env: Strings, y: Json, z: Json, expected: seq<Json>, path: string)
    requires expected != [] && Covers(env, y, z, expected, path)
    ensures Covers(env, y, z, expected[1..], path)
  {
    hide Matches;
  }

  /** An item that matches whatever z matches can stand in for z. */
  lemma {:induction false} StandIn(env: Strings, pool: multiset<Json>, expected: seq<Json>, path: string,
                                   z: Json, y: Json)
    requires Pairable(env, pool, expected, path) && z in pool && Covers(env, y, z, expected, path)
    ensures Pairable(env, pool - multiset{z} + multiset{y}, expected, path)
    decreases |expected|
  {
    hide Matches, Pairable, Covers;
    SomethingExpected(env, pool, expected, path, z);
    var pool' := pool - multiset{z} + multiset{y};
    var x := Choice(env, pool, expected, path);
    if x == z {
      CoversFirst(env, y, z, expected, path);
      PairFirst(env, pool', expected, path, y, pool - multiset{z});
    } else {
      var rest := pool - multiset{x} - multiset{z} + multiset{y};
      Swap(pool, x, z, y);
      CoversRest(env, y, z, expected, path);
      StandIn(env, pool - multiset{x}, expected[1..], path, z, y);
      PairFirst(env, pool', expected, path, x, rest);
    }
  }

  lemma SomethingExpected(env: Strings, pool: multiset<Json>, expected: seq<Json>, path: string, z: Json)
    requires Pairable(env, pool, expected, path) && z in pool
    ensures expected != []
  {
  }

  lemma CoversFirst(env: Strings, y: Json, z: Json, expected: seq<Json>, path: string)
    requires expected != [] && Covers(env, y, z, expected, path) && Matches(env, z, expected[0], path)
    ensures Matches(env, y, expected[0], path)
  {
    hide Matches;
    assert expected[0] in expected;
  }

  lemma Swap<T>(pool: multiset<T>, x: T, z: T, y: T)
    requires x in pool && z in pool && x != z
    ensures x in pool - multiset{z} + multiset{y}
    ensures pool - multiset{x} - multiset{z} + multiset{y} == pool - multiset{z} + multiset{y} - multiset{x}
  {
  }

  /** Where items that share an expected item share them all, any choice is as good as another. */
  lemma AnyChoiceServes(env: Strings, pool: multiset<Json>, expected: seq<Json>, path: string, chosen: Json)
    requires expected != [] && Pairable(env, pool, expected, path) && Zigzag(env, pool, expected, path)
    requires chosen in pool && Matches(env, chosen, expected[0], path)
    ensures Pairable(env, pool - multiset{chosen}, expected[1..], path)
  {
    hide Matches, Pairable, Covers;
    var x := Choice(env, pool, expected, path);
    if x != chosen {
      assert expected[0] in expected;
      assert Covers(env, x, chosen, expected, path);
      CoversRest(env, x, chosen, expected, path);
      StandIn(env, pool - multiset{x}, expected[1..], path, chosen, x);
      assert pool - multiset{x} - multiset{chosen} + multiset{x} == pool - multiset{chosen};
    }
  }

  lemma ZigzagRest(env: Strings, pool: multiset<Json>, expected: seq<Json>, path: string, x: Json)
    requires expected != [] && Zigzag(env, pool, expected, path)
    ensures Zigzag(env, pool - multiset{x}, expected[1..], path)
  {
    hide Matches;
    forall a, b, e | a in pool && b in pool && e in expected[1..]
                     && Matches(env, a, e, path) && Matches(env, b, e, path)
      ensures Covers(env, b, a, expected[1..], path)
    {
      assert e in expected;
      assert Covers(env, b, a, expected, path);
      CoversRest(env, b, a, expected, path);
    }
  }

  lemma SomethingMatches(env: Strings, unmatched: seq<Json>, e: Json, path: string, x: Json)
    requires x in multiset(unmatched) && Matches(env, x, e, path)
    ensures FirstMatch(env, unmatched, e, path, 0).Some?
    ensures unmatched[FirstMatch(env, unmatched, e, path, 0).value] in multiset(unmatched)
  {
    hide Matches, FirstMatch;
    var k :| 0 <= k < |unmatched| && unmatched[k] == x;
  }

  /** Taking the first match is exact wherever items that share an expected item share them all. */
  lemma {:induction false} GreedyIsExact(env: Strings, unmatched: seq<Json>, expected: seq<Json>, path: string)
    requires |unmatched| == |expected| && Zigzag(env, multiset(unmatched), expected, path)
    ensures Greedy(env, unmatched, expected, path) <==> Pairable(env, multiset(unmatched), expected, path)
    decreases |expected|
  {
    hide Matches, FirstMatch, Pairable, Zigzag;
    if Greedy(env, unmatched, expected, path) {
      GreedyPairs(env, unmatched, expected, path);
    }
    if expected != [] && Pairable(env, multiset(unmatched), expected, path) {
      var x := Choice(env, multiset(unmatched), expected, path);
      SomethingMatches(env, unmatched, expected[0], path, x);
      var i := FirstMatch(env, unmatched, expected[0], path, 0).value;
      AnyChoiceServes(env, multiset(unmatched), expected, path, unmatched[i]);
      WithoutMultiset(unmatched, i);
      ZigzagRest(env, multiset(unmatched), expected, path, unmatched[i]);
      GreedyIsExact(env, Without(unmatched, i), expected[1..], path);
    }
  }

  /** Numbers are compared with a tolerance, which is no equivalence: the first match can be the wrong one. */
  lemma ToleranceMisleads(env: Strings, path: string)
    ensures var actual := [Number(Fin(0.0)), Number(Fin(0.002))];
            var expected := [Number(Fin(0.001)), Number(Fin(0.0))];
            Pairable(env, multiset(actual), expected, path) && !Matches(env, List(actual), List(expected), path)
  {
    hide Matches, Pairable, Greedy;
    NumbersMatch(env, 0.0, 0.001, path);
    NumbersMatch(env, 0.002, 0.001, path);
    NumbersMatch(env, 0.0, 0.0, path);
    NumbersMatch(env, 0.002, 0.0, path);
    var a, b := Number(Fin(0.0)), Number(Fin(0.002));
    var e, f := Number(Fin(0.001)), Number(Fin(0.0));
    TwoItems(env, a, b, e, f, path);
    ListsMatch(env, [a, b], [e, f], path);
  }

  lemma NumbersMatch(env: Strings, x: real, y: real, path: string)
    ensures Matches(env, Number(Fin(x)), Number(Fin(y)), path) <==> -0.001 <= x - y <= 0.001
  {
  }

  lemma ListsMatch(env: Strings, actual: seq<Json>, expected: seq<Json>, path: string)
    ensures Matches(env, List(actual), List(expected), path)
            <==> |actual| == |expected| && Greedy(env, actual, expected, path)
  {
  }

  lemma TwoItems(env: Strings, a: Json, b: Json, e: Json, f: Json, path: string)
    requires Matches(env, a, e, path) && Matches(env, b, e, path)
    requires Matches(env, a, f, path) && !Matches(env, b, f, path)
    ensures Pairable(env, multiset([a, b]), [e, f], path) && !Greedy(env, [a, b], [e, f], path)
  {
    hide Matches;
    assert [e, f][1..] == [f] && [f][1..] == [];
    assert Pairable(env, multiset{}, [], path);
    assert [f][0] == f && [e, f][0] == e;
    PairFirst(env, multiset{a}, [f], path, a, multiset{});
    PairFirst(env, multiset{a, b}, [e, f], path, b, multiset{a});
    assert multiset([a, b]) == multiset{a, b};
    assert FirstMatch(env, [a, b], e, path, 0) == Some(0);
    assert Without([a, b], 0) == [b];
    assert FirstMatch(env, [b], f, path, 0) == None;
    assert !Greedy(env, [b], [f], path);
  }

  // ----- comparing a value with itself -----

  /** Something no value matches: a number that is not finite, or in a numeric field a text denoting a NaN. */
  predicate Poison(env: Strings, v: Json, path: string) {
    match v
    case Number(n) => !n.Fin?
    case Text(s) => IsNumericField(path) && env.parsed(WithoutCommas(env.folded(s))) == Some(QuietNaN)
    case Object(fields) => exists key | key in fields :: Poison(env, fields[key], Child(path, key))
    case List(items) => exists i | 0 <= i < |items| :: Poison(env, items[i], path)
    case _ => false
  }

  lemma {:induction false} PoisonMatchesNothing(env: Strings, actual: Json, expected: Json, path: string)
    requires Poison(env, expected, path)
    ensures !Matches(env, actual, expected, path)
    decreases expected, 0
  {
    match expected
    case Object(fields) =>
      var key :| key in fields && Poison(env, fields[key], Child(path, key));
      if actual.Object? && key in actual.fields {
        PoisonMatchesNothing(env, actual.fields[key], fields[key], Child(path, key));
      }
    case List(items) =>
      if actual.List? && |actual.items| == |items| {
        PoisonedItem(env, actual.items, items, path);
      }
    case _ =>
  }

  lemma {:induction false} PoisonedItem(env: Strings, unmatched: seq<Json>, expected: seq<Json>, path: string)
    requires |unmatched| == |expected| && exists i | 0 <= i < |expected| :: Poison(env, expected[i], path)
    ensures !Greedy(env, unmatched, expected, path)
    decreases expected, 1
  {
    var found := FirstMatch(env, unmatched, expected[0], path, 0);
    if Poison(env, expected[0], path) {
      if found.Some? {
        PoisonMatchesNothing(env, unmatched[found.value], expected[0], path);
      }
    } else if found.Some? {
      var i :| 0 <= i < |expected| && Poison(env, expected[i], path);
      assert expected[1..][i - 1] == expected[i];
      PoisonedItem(env, Without(unmatched, found.value), expected[1..], path);
    }
  }

  lemma {:induction false} CleanMatchesItself(env: Strings, v: Json, path: string)
    requires !Poison(env, v, path)
    ensures Matches(env, v, v, path)
    decreases v, 0
  {
    match v
    case Object(fields) =>
      forall key | key in fields ensures Matches(env, fields[key], fields[key], Child(path, key)) {
        CleanMatchesItself(env, fields[key], Child(path, key));
      }
    case List(items) => CleanItems(env, items, path);
    case _ =>
  }

  lemma {:induction false} CleanItems(env: Strings, items: seq<Json>, path: string)
    requires forall i | 0 <= i < |items| :: !Poison(env, items[i], path)
    ensures Greedy(env, items, items, path)
    decreases items, 1
  {
    if items != [] {
      CleanMatchesItself(env, items[0], path);
      assert FirstMatch(env, items, items[0], path, 0) == Some(0);
      assert Without(items, 0) == items[1..];
      CleanItems(env, items[1..], path);
    }
  }

  /** A value meets itself as ground truth exactly if nothing in it is poison. */
  lemma MatchesItselfIffClean(env: Strings, v: Json, path: string)
    ensures Matches(env, v, v, path) <==> !Poison(env, v, path)
  {
    if Poison(env, v, path) {
      PoisonMatchesNothing(env, v, v, path);
    } else {
      CleanMatchesItself(env, v, path);
    }
  }

  // ----- lists of containers -----

  datatype Canon = AsNumber(num: Num) | AsText(text: string)

  /** What a text counts as in a field: the number it denotes, or its folded self. */
  function CanonText(env: Strings, text: string, path: string): Canon {
    var t := env.folded(text);
    var n := env.parsed(WithoutCommas(t));
    if IsNumericField(path) && n.Some? && n.value != SignalingNaN then AsNumber(n.value) else AsText(t)
  }

  /** For texts that denote no NaN the comparison is equality of what they count as. */
  lemma TextIsCanon(env: Strings, a: string, e: string, path: string)
    requires !Poison(env, Text(e), path)
    ensures SameText(env, a, e, path) <==> CanonText(env, a, path) == CanonText(env, e, path)
  {
    hide IsNumericField, WithoutCommas;
  }

  /** An object with exactly these keys, every value a text that denotes no NaN. */
  predicate Container(env: Strings, v: Json, keys: set<string>, path: string) {
    v.Object? && v.fields.Keys == keys
    && forall key | key in v.fields :: v.fields[key].Text? && !Poison(env, v.fields[key], Child(path, key))
  }

  function CanonRow(env: Strings, v: Json, keys: set<string>, path: string): map<string, Canon>
    requires Container(env, v, keys, path)
  {
    map key | key in keys :: CanonText(env, v.fields[key].text, Child(path, key))
  }

  lemma FieldIsCanon(env: Strings, a: Json, e: Json, keys: set<string>, path: string, key: string)
    requires Container(env, a, keys, path) && Container(env, e, keys, path) && key in keys
    ensures Matches(env, a.fields[key], e.fields[key], Child(path, key))
            <==> CanonRow(env, a, keys, path)[key] == CanonRow(env, e, keys, path)[key]
  {
    hide Poison, CanonText, SameText, Child;
    TextIsCanon(env, a.fields[key].text, e.fields[key].text, Child(path, key));
  }

  lemma ContainerIsCanon(env: Strings, a: Json, e: Json, keys: set<string>, path: string)
    requires Container(env, a, keys, path) && Container(env, e, keys, path)
    ensures Matches(env, a, e, path) <==> CanonRow(env, a, keys, path) == CanonRow(env, e, keys, path)
  {
    var left, right := CanonRow(env, a, keys, path), CanonRow(env, e, keys, path);
    assert left.Keys == keys == right.Keys;
    MatchesByField(env, a, e, path);
    hide Matches, CanonRow, Poison;
    forall key | key in keys
      ensures Matches(env, a.fields[key], e.fields[key], Child(path, key)) <==> left[key] == right[key]
    {
      FieldIsCanon(env, a, e, keys, path, key);
    }
  }

  lemma MatchesByField(env: Strings, a: Json, e: Json, path: string)
    requires a.Object? && e.Object?
    ensures Matches(env, a, e, path)
            <==> forall key | key in e.fields ::
                   key in a.fields && Matches(env, a.fields[key], e.fields[key], Child(path, key))
  {
  }

  function CanonRows(env: Strings, items: seq<Json>, keys: set<string>, path: string): (r: seq<map<string, Canon>>)
    requires forall i | 0 <= i < |items| :: Container(env, items[i], keys, path)
    ensures |r| == |items| && forall i | 0 <= i < |items| :: r[i] == CanonRow(env, items[i], keys, path)
  {
    if items == [] then [] else [CanonRow(env, items[0], keys, path)] + CanonRows(env, items[1..], keys, path)
  }

  /** Lists of complete container objects compare as multisets of rows: the order does not matter, nothing
      else is forgiven. */
  lemma ContainersAreMultisets(env: Strings, actual: seq<Json>, expected: seq<Json>, keys: set<string>, path: string)
    requires forall i | 0 <= i < |actual| :: Container(env, actual[i], keys, path)
    requires forall i | 0 <= i < |expected| :: Container(env, expected[i], keys, path)
    ensures Matches(env, List(actual), List(expected), path)
            <==> multiset(CanonRows(env, actual, keys, path)) == multiset(CanonRows(env, expected, keys, path))
  {
    hide Container, CanonRow;
    ListsMatch(env, actual, expected, path);
    if |actual| == |expected| {
      GreedyOnContainers(env, actual, expected, keys, path);
    } else {
      assert |multiset(CanonRows(env, actual, keys, path))| == |actual|;
      assert |multiset(CanonRows(env, expected, keys, path))| == |expected|;
    }
  }

  lemma RowsWithout(env: Strings, items: seq<Json>, i: nat, keys: set<string>, path: string)
    requires i < |items| && forall k | 0 <= k < |items| :: Container(env, items[k], keys, path)
    ensures forall k | 0 <= k < |items| - 1 :: Container(env, Without(items, i)[k], keys, path)
    ensures multiset(CanonRows(env, Without(items, i), keys, path))
            == multiset(CanonRows(env, items, keys, path)) - multiset{CanonRow(env, items[i], keys, path)}
  {
    hide Container, CanonRow;
    var rows := CanonRows(env, items, keys, path);
    assert CanonRows(env, Without(items, i), keys, path) == Without(rows, i);
    WithoutMultiset(rows, i);
  }

  lemma FirstMatchIsCanon(env: Strings, unmatched: seq<Json>, e: Json, keys: set<string>, path: string)
    requires forall i | 0 <= i < |unmatched| :: Container(env, unmatched[i], keys, path)
    requires Container(env, e, keys, path)
    ensures var found := FirstMatch(env, unmatched, e, path, 0);
            var row := CanonRow(env, e, keys, path);
            if found.Some? then CanonRow(env, unmatched[found.value], keys, path) == row
            else row !in CanonRows(env, unmatched, keys, path)
  {
    hide Matches, Container, CanonRow, FirstMatch;
    forall i | 0 <= i < |unmatched|
      ensures Matches(env, unmatched[i], e, path)
              <==> CanonRow(env, unmatched[i], keys, path) == CanonRow(env, e, keys, path)
    {
      ContainerIsCanon(env, unmatched[i], e, keys, path);
    }
  }

  lemma MultisetsShrink<T>(a: multiset<T>, b: multiset<T>, x: T)
    requires x in a && x in b
    ensures a - multiset{x} == b - multiset{x} <==> a == b
  {
    if a - multiset{x} == b - multiset{x} {
      assert a == a - multiset{x} + multiset{x};
      assert b == b - multiset{x} + multiset{x};
    }
  }

  lemma {:induction false} GreedyOnContainers(env: Strings, unmatched: seq<Json>, expected: seq<Json>,
                                              keys: set<string>, path: string)
    requires |unmatched| == |expected|
    requires forall i | 0 <= i < |unmatched| :: Container(env, unmatched[i], keys, path)
    requires forall i | 0 <= i < |expected| :: Container(env, expected[i], keys, path)
    ensures Greedy(env, unmatched, expected, path)
            <==> multiset(CanonRows(env, unmatched, keys, path)) == multiset(CanonRows(env, expected, keys, path))
    decreases |expected|
  {
    hide Matches, Container, CanonRow, FirstMatch, CanonRows;
    if expected == [] {
      assert unmatched == expected;
    } else {
      var row := CanonRow(env, expected[0], keys, path);
      var left := CanonRows(env, unmatched, keys, path);
      var right := CanonRows(env, expected, keys, path);
      FirstMatchIsCanon(env, unmatched, expected[0], keys, path);
      assert Without(expected, 0) == expected[1..];
      RowsWithout(env, expected, 0, keys, path);
      assert right[0] == row && row in multiset(right);
      match FirstMatch(env, unmatched, expected[0], path, 0)
      case None =>
        assert row !in multiset(left);
      case Some(i) =>
        RowsWithout(env, unmatched, i, keys, path);
        assert left[i] == row && row in multiset(left);
        GreedyOnContainers(env, Without(unmatched, i), expected[1..], keys, path);
        MultisetsShrink(multiset(left), multiset(right), row);
    }
  }
}
