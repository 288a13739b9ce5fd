/** What the comparison accepts where a value has no parts, said over the values themselves. */
module LeafVerdicts {
  import opened Wrappers
  import opened Compare

  predicate Within(x: real, y: real) {
    x <= y + 0.001 && y <= x + 0.001
  }

  /** A finite number is met by a number within 0.001, or by a text that reads as one, in any field. No other
      number is met by anything. */
  lemma NumbersMatchExactly(env: Strings, actual: Json, expected: Num, path: string)
    ensures Matches(env, actual, Number(expected), path)
            <==> || (exists x: real, y: real :: actual == Number(Fin(x)) && expected == Fin(y) && Within(x, y))
                 || (exists x: real, y: real :: && actual.Text? && env.parsed(actual.text) == Some(Fin(x))
                                                && expected == Fin(y) && Within(x, y))
  {
    if Matches(env, actual, Number(expected), path) {
      var x := AsNumber(env, actual).value.value;
      assert AsNumber(env, actual) == Some(Fin(x)) && expected == Fin(expected.value);
    }
  }

  lemma TruthMatchesExactly(env: Strings, actual: Json, expected: Json, path: string)
    requires expected.Bool? || expected.Null?
    ensures Matches(env, actual, expected, path) <==> actual == expected
  {
  }

  /** A text is met by any value but null whose text is the same once folded. In a numeric field two texts that
      read as numbers, commas aside, are compared as numbers instead. */
  lemma TextsMatchExactly(env: Strings, actual: Json, expected: string, path: string)
    requires !actual.Null?
    ensures var a := env.folded(if actual.Text? then actual.text else env.shown(actual));
            var e := env.folded(expected);
            var m, n := env.parsed(WithoutCommas(a)), env.parsed(WithoutCommas(e));
            var numeric := IsNumericField(path) && m.Some? && n.Some?
                           && m.value != SignalingNaN && n.value != SignalingNaN;
            Matches(env, actual, Text(expected), path)
            <==> if numeric
                 then (m == n && m != Some(QuietNaN))
                 else a == e
    ensures !Matches(env, Null, Text(expected), path)
  {
  }

  lemma {:induction false} NoCommaStays(s: string)
    ensures ',' !in WithoutCommas(s) && (',' !in s ==> WithoutCommas(s) == s)
  {
    if s != "" {
      NoCommaStays(s[1..]);
      if ',' in s[1..] {
        assert ',' in s;
      }
      assert s == [s[0]] + s[1..];
    }
  }

  lemma {:induction false} CommasGoPiecewise(s: string, t: string)
    ensures WithoutCommas(s + t) == WithoutCommas(s) + WithoutCommas(t)
  {
    if s == "" {
      assert s + t == t;
    } else {
      CommasGoPiecewise(s[1..], t);
      assert (s + t)[1..] == s[1..] + t && (s + t)[0] == s[0];
    }
  }

  /** Dropping commas: nothing else goes. */
  lemma CommasGo(s: string, t: string)
    ensures ',' !in WithoutCommas(s)
    ensures ',' !in s ==> WithoutCommas(s) == s
    ensures WithoutCommas(s + t) == WithoutCommas(s) + WithoutCommas(t)
    ensures WithoutCommas(",") == ""
  {
    NoCommaStays(s);
    CommasGoPiecewise(s, t);
  }

  // ----- field paths -----

  /** `head` is all of s up to the first stop, or all of it. */
  predicate Heads(head: string, s: string, stop: char) {
    && |head| <= |s| && s[..|head|] == head && stop !in head
    && (|head| == |s| || s[|head|] == stop)
  }

  lemma {:induction false} UpToExactly(head: string, s: string, stop: char)
    ensures UpTo(s, stop) == head <==> Heads(head, s, stop)
  {
    if s != "" && s[0] != stop {
      if head != "" && head[0] == s[0] {
        UpToExactly(head[1..], s[1..], stop);
        HeadsInside(head, s, stop);
        assert head == [s[0]] + head[1..];
      }
    }
  }

  lemma HeadsInside(head: string, s: string, stop: char)
    requires head != "" && s != "" && head[0] == s[0] != stop
    ensures Heads(head, s, stop) <==> Heads(head[1..], s[1..], stop)
  {
    if |head| <= |s| {
      assert s[..|head|] == [s[0]] + s[1..][..|head| - 1];
      assert head == [head[0]] + head[1..];
      if stop in head {
        var i :| 0 <= i < |head| && head[i] == stop;
        assert head[1..][i - 1] == stop;
      }
    }
  }

  /** `tail` is all of s behind the last stop, or all of it. */
  predicate Tails(tail: string, s: string, stop: char) {
    && |tail| <= |s| && s[|s| - |tail|..] == tail && stop !in tail
    && (|tail| == |s| || s[|s| - |tail| - 1] == stop)
  }

  lemma {:induction false} AfterLastExactly(tail: string, s: string, stop: char)
    ensures AfterLast(s, stop) == tail <==> Tails(tail, s, stop)
  {
    if s != "" && s[|s| - 1] != stop {
      if tail != "" && tail[|tail| - 1] == s[|s| - 1] {
        AfterLastExactly(tail[..|tail| - 1], s[..|s| - 1], stop);
        TailsInside(tail, s, stop);
        assert tail == tail[..|tail| - 1] + [s[|s| - 1]];
      }
    }
  }

  lemma TailsInside(tail: string, s: string, stop: char)
    requires tail != "" && s != "" && tail[|tail| - 1] == s[|s| - 1] != stop
    ensures Tails(tail, s, stop) <==> Tails(tail[..|tail| - 1], s[..|s| - 1], stop)
  {
    var n, m := |tail| - 1, |s| - 1;
    if n <= m {
      assert s[m - n..] == s[..m][m - n..] + [s[m]];
      assert tail == tail[..n] + [tail[n]];
      if stop in tail {
        var i :| 0 <= i < |tail| && tail[i] == stop;
        assert tail[..n][i] == stop;
      }
    }
  }

  /** A path belongs to a numeric field if its first name is one, or its last. */
  lemma NumericFieldsExactly(path: string)
    ensures IsNumericField(path)
            <==> exists name | name in NUMERIC_EQUIVALENT_FIELDS ::
                   || (exists first :: Heads(first, path, '.') && Heads(name, first, '['))
                   || (exists last :: Tails(last, path, '.') && Heads(name, last, '['))
  {
    var first := UpTo(path, '.');
    var last := AfterLast(path, '.');
    UpToExactly(first, path, '.');
    AfterLastExactly(last, path, '.');
    UpToExactly(UpTo(first, '['), first, '[');
    UpToExactly(UpTo(last, '['), last, '[');
    if name, head :| name in NUMERIC_EQUIVALENT_FIELDS && Heads(head, path, '.') && Heads(name, head, '[') {
      UpToExactly(head, path, '.');
      UpToExactly(name, head, '[');
    }
    if name, tail :| name in NUMERIC_EQUIVALENT_FIELDS && Tails(tail, path, '.') && Heads(name, tail, '[') {
      AfterLastExactly(tail, path, '.');
      UpToExactly(name, tail, '[');
    }
  }
}
