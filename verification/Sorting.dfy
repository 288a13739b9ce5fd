/** The stable sort by chronological_key that the ledger replay relies on (scripts/migrate_sqlite_to_postgres.py). */
module Sorting {

  /** chronological_key: the creation time as comparable text, then the row id. */
  datatype Key = Key(created: string, id: string)

  datatype Keyed<T> = Keyed(key: Key, item: T)

  predicate TextLe(a: string, b: string) {
    a == "" || (b != "" && if a[0] == b[0] then TextLe(a[1..], b[1..]) else a[0] < b[0])
  }

  predicate KeyLe(a: Key, b: Key) {
    if a.created == b.created then TextLe(a.id, b.id) else TextLe(a.created, b.created)
  }

  predicate Sorted<T>(s: seq<Keyed<T>>) {
    forall i, j | 0 <= i < j < |s| :: KeyLe(s[i].key, s[j].key)
  }

  function Insert<T>(s: seq<Keyed<T>>, x: Keyed<T>): seq<Keyed<T>> {
    if s == [] || KeyLe(s[|s| - 1].key, x.key) then s + [x]
    else Insert(s[..|s| - 1], x) + [s[|s| - 1]]
  }

  /** Equal keys keep their order: a later row is inserted after the earlier ones. */
  function Sort<T>(s: seq<Keyed<T>>): seq<Keyed<T>> {
    if s == [] then [] else Insert(Sort(s[..|s| - 1]), s[|s| - 1])
  }

  function Filter<T>(s: seq<T>, p: T -> bool): seq<T> {
    if s == [] then []
    else if p(s[|s| - 1]) then Filter(s[..|s| - 1], p) + [s[|s| - 1]]
    else Filter(s[..|s| - 1], p)
  }

  lemma {:induction false} TextLeTotal(a: string, b: string)
    ensures TextLe(a, b) || TextLe(b, a)
    ensures TextLe(a, b) && TextLe(b, a) ==> a == b
  {
    if a != "" && b != "" && a[0] == b[0] {
      TextLeTotal(a[1..], b[1..]);
      assert a == [a[0]] + a[1..] && b == [b[0]] + b[1..];
    }
  }

  lemma {:induction false} TextLeTransitive(a: string, b: string, c: string)
    requires TextLe(a, b) && TextLe(b, c)
    ensures TextLe(a, c)
  {
    if a != "" && b != "" && c != "" && a[0] == b[0] == c[0] {
      TextLeTransitive(a[1..], b[1..], c[1..]);
    }
  }

  lemma KeyLeTotal(a: Key, b: Key)
    ensures KeyLe(a, b) || KeyLe(b, a)
  {
    TextLeTotal(a.created, b.created);
    TextLeTotal(a.id, b.id);
  }

  lemma KeyLeTransitive(a: Key, b: Key, c: Key)
    requires KeyLe(a, b) && KeyLe(b, c)
    ensures KeyLe(a, c)
  {
    if a.created == b.created == c.created {
      TextLeTransitive(a.id, b.id, c.id);
    } else {
      TextLeTotal(a.created, b.created);
      TextLeTotal(b.created, c.created);
      TextLeTotal(a.created, c.created);
      TextLeTotal(a.created, a.created);
      TextLeTotal(c.created, c.created);
      TextLeTransitive(a.created, b.created, c.created);
    }
  }

  lemma {:induction false} InsertPermutes<T>(s: seq<Keyed<T>>, x: Keyed<T>)
    ensures multiset(Insert(s, x)) == multiset(s) + multiset{x}
    ensures forall j | 0 <= j < |Insert(s, x)| :: Insert(s, x)[j] == x || Insert(s, x)[j] in s
  {
    if s != [] && !KeyLe(s[|s| - 1].key, x.key) {
      var rest := s[..|s| - 1];
      InsertPermutes(rest, x);
      assert s == rest + [s[|s| - 1]];
      forall j | 0 <= j < |Insert(s, x)| ensures Insert(s, x)[j] == x || Insert(s, x)[j] in s {
        if j < |Insert(rest, x)| {
          assert Insert(s, x)[j] == Insert(rest, x)[j];
        }
      }
    }
  }

  lemma {:induction false} InsertKeeps<T>(s: seq<Keyed<T>>, x: Keyed<T>)
    requires Sorted(s)
    ensures Sorted(Insert(s, x))
  {
    if s != [] {
      var last := s[|s| - 1];
      if KeyLe(last.key, x.key) {
        forall i | 0 <= i < |s| - 1 ensures KeyLe(s[i].key, x.key) {
          KeyLeTransitive(s[i].key, last.key, x.key);
        }
      } else {
        KeyLeTotal(last.key, x.key);
        var rest := s[..|s| - 1];
        InsertKeeps(rest, x);
        InsertPermutes(rest, x);
        forall j | 0 <= j < |Insert(rest, x)| ensures KeyLe(Insert(rest, x)[j].key, last.key) {
          var y := Insert(rest, x)[j];
          if y != x {
            var i :| 0 <= i < |rest| && rest[i] == y;
            assert s[i] == y;
          }
        }
      }
    }
  }

  lemma {:induction false} SortSorts<T>(s: seq<Keyed<T>>)
    ensures Sorted(Sort(s))
  {
    if s != [] {
      SortSorts(s[..|s| - 1]);
      InsertKeeps(Sort(s[..|s| - 1]), s[|s| - 1]);
    }
  }

  lemma {:induction false} SortPermutes<T>(s: seq<Keyed<T>>)
    ensures multiset(Sort(s)) == multiset(s)
    ensures forall j | 0 <= j < |Sort(s)| :: Sort(s)[j] in s
  {
    if s != [] {
      SortPermutes(s[..|s| - 1]);
      InsertPermutes(Sort(s[..|s| - 1]), s[|s| - 1]);
      assert s == s[..|s| - 1] + [s[|s| - 1]];
      forall j | 0 <= j < |Sort(s)| ensures Sort(s)[j] in s {
        assert Sort(s)[j] in multiset(Sort(s));
      }
    }
  }

  lemma {:induction false} SortOfSorted<T>(s: seq<Keyed<T>>)
    requires Sorted(s)
    ensures Sort(s) == s
  {
    if s != [] {
      SortOfSorted(s[..|s| - 1]);
    }
  }

  lemma FilterSnoc<T>(s: seq<T>, x: T, p: T -> bool)
    ensures Filter(s + [x], p) == if p(x) then Filter(s, p) + [x] else Filter(s, p)
  {
    assert (s + [x])[..|s|] == s;
  }

  lemma InsertSnoc<T>(s: seq<Keyed<T>>, last: Keyed<T>, x: Keyed<T>)
    ensures Insert(s + [last], x) == if KeyLe(last.key, x.key) then s + [last] + [x] else Insert(s, x) + [last]
  {
    assert (s + [last])[..|s|] == s;
  }

  /** Where x belongs at the end of s, it belongs at the end of what is kept of s. */
  lemma {:induction false} FilterBelow<T>(s: seq<Keyed<T>>, x: Keyed<T>, p: Keyed<T> -> bool)
    requires forall i | 0 <= i < |s| :: KeyLe(s[i].key, x.key)
    ensures Insert(Filter(s, p), x) == Filter(s, p) + [x]
  {
    if s != [] {
      var rest := s[..|s| - 1];
      if p(s[|s| - 1]) {
        InsertSnoc(Filter(rest, p), s[|s| - 1], x);
      } else {
        FilterBelow(rest, x, p);
      }
    }
  }

  lemma {:induction false} FilterInsert<T>(s: seq<Keyed<T>>, x: Keyed<T>, p: Keyed<T> -> bool)
    requires Sorted(s)
    ensures Filter(Insert(s, x), p) == if p(x) then Insert(Filter(s, p), x) else Filter(s, p)
  {
    if s == [] {
      FilterSnoc(s, x, p);
    } else {
      var last := s[|s| - 1];
      var rest := s[..|s| - 1];
      if KeyLe(last.key, x.key) {
        FilterSnoc(s, x, p);
        forall i | 0 <= i < |s| ensures KeyLe(s[i].key, x.key) {
          if i < |s| - 1 {
            KeyLeTransitive(s[i].key, last.key, x.key);
          }
        }
        FilterBelow(s, x, p);
      } else {
        FilterInsert(rest, x, p);
        FilterSnoc(Insert(rest, x), last, p);
        if p(last) {
          InsertSnoc(Filter(rest, p), last, x);
        }
      }
    }
  }

  /** Selecting and sorting commute, because the sort is stable. */
  lemma {:induction false} FilterSort<T>(s: seq<Keyed<T>>, p: Keyed<T> -> bool)
    ensures Filter(Sort(s), p) == Sort(Filter(s, p))
  {
    if s != [] {
      var rest := s[..|s| - 1];
      var last := s[|s| - 1];
      FilterSort(rest, p);
      SortSorts(rest);
      FilterInsert(Sort(rest), last, p);
      if p(last) {
        var kept := Filter(rest, p);
        assert (kept + [last])[..|kept|] == kept;
      }
    }
  }

  predicate DistinctItems<T(==)>(s: seq<Keyed<T>>) {
    forall i, j | 0 <= i < j < |s| :: s[i].item != s[j].item
  }

  lemma {:induction false} InsertDistinct<T>(s: seq<Keyed<T>>, x: Keyed<T>)
    requires DistinctItems(s) && forall y | y in s :: y.item != x.item
    ensures DistinctItems(Insert(s, x))
  {
    if s != [] && !KeyLe(s[|s| - 1].key, x.key) {
      var rest := s[..|s| - 1];
      InsertDistinct(rest, x);
      InsertPermutes(rest, x);
      forall i | 0 <= i < |Insert(rest, x)| ensures Insert(rest, x)[i].item != s[|s| - 1].item {
        assert Insert(rest, x)[i] == x || Insert(rest, x)[i] in rest;
      }
    }
  }

  lemma {:induction false} SortDistinct<T>(s: seq<Keyed<T>>)
    requires DistinctItems(s)
    ensures DistinctItems(Sort(s))
  {
    if s != [] {
      SortDistinct(s[..|s| - 1]);
      SortPermutes(s[..|s| - 1]);
      InsertDistinct(Sort(s[..|s| - 1]), s[|s| - 1]);
    }
  }
}
