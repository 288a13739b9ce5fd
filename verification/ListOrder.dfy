/** app/services/evaluation_service.py: exactly when the first-match loop is right whatever order the lists come in. */
module ListOrder {
  import opened Wrappers
  import opened Compare
  import opened CompareProofs

  /** Pairs side by side. */
  predicate Aligned(env: Strings, b: seq<Json>, expected: seq<Json>, path: string) {
    |b| == |expected| && forall i | 0 <= i < |b| :: Matches(env, b[i], expected[i], path)
  }

  lemma AlignedCons(env: Strings, x: Json, b: seq<Json>, expected: seq<Json>, path: string)
    requires expected != [] && Matches(env, x, expected[0], path) && Aligned(env, b, expected[1..], path)
    ensures Aligned(env, [x] + b, expected, path)
  {
    hide Matches;
    forall i | 0 <= i < |expected| ensures Matches(env, ([x] + b)[i], expected[i], path) {
      if i > 0 {
        assert ([x] + b)[i] == b[i - 1] && expected[i] == expected[1..][i - 1];
      }
    }
  }

  lemma AlignedWithout(env: Strings, b: seq<Json>, expected: seq<Json>, i: nat, path: string)
    requires Aligned(env, b, expected, path) && i < |b|
    ensures Aligned(env, Without(b, i), Without(expected, i), path)
  {
    hide Matches;
    forall k | 0 <= k < |b| - 1 ensures Matches(env, Without(b, i)[k], Without(expected, i)[k], path) {
      var j := if k < i then k else k + 1;
      assert Without(b, i)[k] == b[j] && Without(expected, i)[k] == expected[j];
    }
  }

  lemma ConsMultiset<T>(x: T, rest: seq<T>, pool: multiset<T>)
    requires x in pool && multiset(rest) == pool - multiset{x}
    ensures multiset([x] + rest) == pool
  {
  }

  lemma RestMultiset<T>(s: seq<T>)
    requires s != []
    ensures multiset(s[1..]) == multiset(s) - multiset{s[0]} && s[0] in multiset(s)
  {
    assert s == [s[0]] + s[1..];
  }

  lemma NothingExpected(env: Strings, pool: multiset<Json>, path: string)
    ensures Pairable(env, pool, [], path) <==> pool == multiset{}
  {
  }

  lemma {:induction false} PairableAligned(env: Strings, pool: multiset<Json>, expected: seq<Json>, path: string)
    returns (b: seq<Json>)
    requires Pairable(env, pool, expected, path)
    ensures multiset(b) == pool && Aligned(env, b, expected, path)
    decreases |expected|
  {
    hide Matches, Pairable;
    if expected == [] {
      NothingExpected(env, pool, path);
      b := [];
    } else {
      var x := Choice(env, pool, expected, path);
      var rest := PairableAligned(env, pool - multiset{x}, expected[1..], path);
      b := [x] + rest;
      ConsMultiset(x, rest, pool);
      AlignedCons(env, x, rest, expected, path);
    }
  }

  lemma {:induction false} AlignedPairable(env: Strings, b: seq<Json>, expected: seq<Json>, path: string)
    requires Aligned(env, b, expected, path)
    ensures Pairable(env, multiset(b), expected, path)
    decreases |expected|
  {
    hide Matches;
    if expected == [] {
      NothingExpected(env, multiset(b), path);
    } else {
      hide Pairable;
      RestMultiset(b);
      AlignedPairable(env, b[1..], expected[1..], path);
      PairFirst(env, multiset(b), expected, path, b[0], multiset(b[1..]));
    }
  }

  lemma {:induction false} AlignedPermutes(env: Strings, b: seq<Json>, expected: seq<Json>, other: seq<Json>,
                                           path: string)
    returns (c: seq<Json>)
    requires Aligned(env, b, expected, path) && multiset(expected) == multiset(other)
    ensures Aligned(env, c, other, path) && multiset(c) == multiset(b)
    decreases |other|
  {
    hide Matches, Aligned;
    SameLength(expected, other);
    AlignedLength(env, b, expected, path);
    if other == [] {
      c := [];
      NothingAligned(env, path);
    } else {
      RestMultiset(other);
      var i :| 0 <= i < |expected| && expected[i] == other[0];
      WithoutMultiset(expected, i);
      WithoutMultiset(b, i);
      AlignedWithout(env, b, expected, i, path);
      AlignedAt(env, b, expected, i, path);
      var rest := AlignedPermutes(env, Without(b, i), Without(expected, i), other[1..], path);
      c := [b[i]] + rest;
      ConsMultiset(b[i], rest, multiset(b));
      AlignedCons(env, b[i], rest, other, path);
    }
  }

  lemma AlignedLength(env: Strings, b: seq<Json>, expected: seq<Json>, path: string)
    requires Aligned(env, b, expected, path)
    ensures |b| == |expected|
  {
  }

  lemma AlignedAt(env: Strings, b: seq<Json>, expected: seq<Json>, i: nat, path: string)
    requires Aligned(env, b, expected, path) && i < |b| == |expected|
    ensures Matches(env, b[i], expected[i], path)
  {
    hide Matches;
  }

  lemma NothingAligned(env: Strings, path: string)
    ensures Aligned(env, [], [], path)
  {
  }

  lemma SameLength<T>(a: seq<T>, b: seq<T>)
    requires multiset(a) == multiset(b)
    ensures |a| == |b|
  {
    assert |multiset(a)| == |a| && |multiset(b)| == |b|;
  }

  // ----- enough -----

  lemma ZigzagPermutes(env: Strings, pool: multiset<Json>, expected: seq<Json>, other: seq<Json>, path: string)
    requires Zigzag(env, pool, expected, path) && multiset(expected) == multiset(other)
    ensures Zigzag(env, pool, other, path)
  {
    hide Matches;
    forall e ensures e in expected <==> e in other {
      assert e in multiset(expected) <==> e in multiset(other);
    }
    forall a, b, e | a in pool && b in pool && e in other && Matches(env, a, e, path) && Matches(env, b, e, path)
      ensures Covers(env, b, a, other, path)
    {
      assert Covers(env, b, a, expected, path);
    }
  }

  /** Pairable lists whose items share all expected items or none match in every order. */
  lemma ZigzagServesEveryOrder(env: Strings, actual: seq<Json>, expected: seq<Json>, path: string,
                               a: seq<Json>, e: seq<Json>)
    requires Pairable(env, multiset(actual), expected, path) && Zigzag(env, multiset(actual), expected, path)
    requires multiset(a) == multiset(actual) && multiset(e) == multiset(expected)
    ensures Matches(env, List(a), List(e), path)
  {
    hide Matches, Greedy, Zigzag, Pairable;
    var b := PairableAligned(env, multiset(actual), expected, path);
    var c := AlignedPermutes(env, b, expected, e, path);
    AlignedPairable(env, c, e, path);
    SameLength(a, c);
    ZigzagPermutes(env, multiset(actual), expected, e, path);
    GreedyIsExact(env, a, e, path);
    ListsMatch(env, a, e, path);
  }

  // ----- needed -----

  lemma PullOne<T>(s: seq<T>, x: T) returns (rest: seq<T>)
    requires x in s
    ensures multiset(rest) == multiset(s) - multiset{x} && multiset([x] + rest) == multiset(s)
  {
    var i :| 0 <= i < |s| && s[i] == x;
    rest := Without(s, i);
    WithoutMultiset(s, i);
    ConsMultiset(x, rest, multiset(s));
  }

  lemma StillIn<T>(s: seq<T>, x: T, y: T, t: seq<T>)
    requires y in s && x != y && multiset(t) == multiset(s) - multiset{x}
    ensures y in t
  {
    assert y in multiset(s);
    assert y in multiset(t);
  }

  lemma PullTwo<T>(s: seq<T>, x: T, y: T) returns (rest: seq<T>)
    requires x in s && y in s && x != y
    ensures multiset([x, y] + rest) == multiset(s)
  {
    var t := PullOne(s, x);
    StillIn(s, x, y, t);
    rest := PullOne(t, y);
    Prepend(x, [y] + rest, t);
    assert [x] + ([y] + rest) == [x, y] + rest;
  }

  lemma Prepend<T>(x: T, a: seq<T>, b: seq<T>)
    requires multiset(a) == multiset(b)
    ensures multiset([x] + a) == multiset([x] + b)
  {
  }

  lemma FirstIsMatch(env: Strings, unmatched: seq<Json>, expected: seq<Json>, path: string)
    requires |unmatched| == |expected| > 0 && Matches(env, unmatched[0], expected[0], path)
    ensures Greedy(env, unmatched, expected, path) <==> Greedy(env, unmatched[1..], expected[1..], path)
  {
    hide Matches;
    assert FirstMatch(env, unmatched, expected[0], path, 0) == Some(0);
    assert Without(unmatched, 0) == unmatched[1..];
  }

  /** Aligned pairs in front are matched with each other. */
  lemma {:induction false} AlignedFront(env: Strings, b: seq<Json>, expected: seq<Json>, moreB: seq<Json>,
                                        moreE: seq<Json>, path: string)
    requires Aligned(env, b, expected, path) && |moreB| == |moreE|
    ensures Greedy(env, b + moreB, expected + moreE, path) <==> Greedy(env, moreB, moreE, path)
    decreases |b|
  {
    hide Matches, Greedy;
    if b == [] {
      assert b + moreB == moreB && expected + moreE == moreE;
    } else {
      FirstIsMatch(env, b + moreB, expected + moreE, path);
      assert (b + moreB)[1..] == b[1..] + moreB && (expected + moreE)[1..] == expected[1..] + moreE;
      AlignedFront(env, b[1..], expected[1..], moreB, moreE, path);
    }
  }

  /** Items that share one expected item but not another can be put in an order that misleads the loop. */
  lemma MisledOrder(env: Strings, actual: seq<Json>, expected: seq<Json>, path: string,
                    x: Json, y: Json, e: Json, f: Json)
    returns (a: seq<Json>, g: seq<Json>)
    requires |actual| == |expected| && x in actual && y in actual && e in expected && f in expected
    requires Matches(env, x, e, path) && Matches(env, y, e, path)
    requires Matches(env, x, f, path) && !Matches(env, y, f, path)
    ensures multiset(a) == multiset(actual) && multiset(g) == multiset(expected)
    ensures !Matches(env, List(a), List(g), path)
  {
    hide Matches, Greedy, Pairable, Aligned;
    var restA := PullTwo(actual, y, x);
    var restE := PullTwo(expected, e, f);
    a, g := [y, x] + restA, [e, f] + restE;
    SameLength(a, actual);
    SameLength(g, expected);
    ListsMatch(env, a, g, path);
    if Greedy(env, a, g, path) {
      TwoThenRest(env, x, y, restA, e, f, restE, path);
      GreedyPairs(env, restA, restE, path);
      var c := PairableAligned(env, multiset(restA), restE, path);
      SameLength(c, restA);
      AlignedFront(env, c, restE, [x, y], [e, f], path);
      TwoItems(env, x, y, e, f, path);
      Behind(c, restA, x, y);
      BehindSame(restE, e, f);
      a, g := c + [x, y], restE + [e, f];
      ListsMatch(env, a, g, path);
    }
  }

  lemma TwoThenRest(env: Strings, x: Json, y: Json, restA: seq<Json>, e: Json, f: Json, restE: seq<Json>, path: string)
    requires |restA| == |restE| && Matches(env, y, e, path) && Matches(env, x, f, path)
    ensures Greedy(env, [y, x] + restA, [e, f] + restE, path) <==> Greedy(env, restA, restE, path)
  {
    hide Matches, Greedy;
    TwoInFront(y, x, restA);
    TwoInFront(e, f, restE);
    ConsMatch(env, y, [x] + restA, e, [f] + restE, path);
    ConsMatch(env, x, restA, f, restE, path);
  }

  lemma TwoInFront<T>(x: T, y: T, rest: seq<T>)
    ensures [x, y] + rest == [x] + ([y] + rest)
  {
  }

  lemma ConsMatch(env: Strings, x: Json, a: seq<Json>, e: Json, g: seq<Json>, path: string)
    requires |a| == |g| && Matches(env, x, e, path)
    ensures Greedy(env, [x] + a, [e] + g, path) <==> Greedy(env, a, g, path)
  {
    hide Matches, Greedy;
    FirstIsMatch(env, [x] + a, [e] + g, path);
    assert ([x] + a)[1..] == a && ([e] + g)[1..] == g;
  }

  lemma Behind<T>(c: seq<T>, rest: seq<T>, x: T, y: T)
    requires multiset(c) == multiset(rest)
    ensures multiset(c + [x, y]) == multiset([y, x] + rest)
  {
    assert multiset(c + [x, y]) == multiset(c) + multiset([x, y]);
    assert multiset([y, x] + rest) == multiset([y, x]) + multiset(rest);
    assert multiset([x, y]) == multiset{x, y} && multiset([y, x]) == multiset{x, y};
  }

  lemma BehindSame<T>(rest: seq<T>, e: T, f: T)
    ensures multiset(rest + [e, f]) == multiset([e, f] + rest)
  {
    assert multiset(rest + [e, f]) == multiset(rest) + multiset([e, f]);
    assert multiset([e, f] + rest) == multiset([e, f]) + multiset(rest);
  }

  // ----- exactly when -----

  /** The comparison says True for every ordering of both lists. */
  ghost predicate MatchesInEveryOrder(env: Strings, actual: seq<Json>, expected: seq<Json>, path: string) {
    forall a, e | multiset(a) == multiset(actual) && multiset(e) == multiset(expected) ::
      Matches(env, List(a), List(e), path)
  }

  lemma EveryOrderNeedsZigzag(env: Strings, actual: seq<Json>, expected: seq<Json>, path: string)
    requires MatchesInEveryOrder(env, actual, expected, path)
    ensures Pairable(env, multiset(actual), expected, path) && Zigzag(env, multiset(actual), expected, path)
  {
    hide Matches, Greedy;
    assert Matches(env, List(actual), List(expected), path);
    ListsMatch(env, actual, expected, path);
    GreedyPairs(env, actual, expected, path);
    forall x, y, e | x in multiset(actual) && y in multiset(actual) && e in expected
                     && Matches(env, x, e, path) && Matches(env, y, e, path)
      ensures Covers(env, y, x, expected, path)
    {
      if !Covers(env, y, x, expected, path) {
        var f :| f in expected && Matches(env, x, f, path) && !Matches(env, y, f, path);
        var a, g := MisledOrder(env, actual, expected, path, x, y, e, f);
      }
    }
  }

  /** Pairable lists match in every order exactly if items that share one expected item share them all; else
      some order of the same items misses a pairing. */
  lemma FirstMatchIsRightExactly(env: Strings, actual: seq<Json>, expected: seq<Json>, path: string)
    requires Pairable(env, multiset(actual), expected, path)
    ensures MatchesInEveryOrder(env, actual, expected, path) <==> Zigzag(env, multiset(actual), expected, path)
  {
    hide Matches, Pairable, Zigzag;
    if MatchesInEveryOrder(env, actual, expected, path) {
      EveryOrderNeedsZigzag(env, actual, expected, path);
    }
    if Zigzag(env, multiset(actual), expected, path) {
      forall a, e | multiset(a) == multiset(actual) && multiset(e) == multiset(expected)
        ensures Matches(env, List(a), List(e), path)
      {
        ZigzagServesEveryOrder(env, actual, expected, path, a, e);
      }
    }
  }

  /** The lists without a pairing match in no order. */
  lemma UnpairableNeverMatches(env: Strings, actual: seq<Json>, expected: seq<Json>, path: string,
                               a: seq<Json>, e: seq<Json>)
    requires !Pairable(env, multiset(actual), expected, path)
    requires multiset(a) == multiset(actual) && multiset(e) == multiset(expected)
    ensures !Matches(env, List(a), List(e), path)
  {
    hide Matches, Greedy, Pairable;
    ListsMatch(env, a, e, path);
    if Matches(env, List(a), List(e), path) {
      GreedyPairs(env, a, e, path);
      var b := PairableAligned(env, multiset(a), e, path);
      var c := AlignedPermutes(env, b, e, expected, path);
      AlignedPairable(env, c, expected, path);
    }
  }
}
