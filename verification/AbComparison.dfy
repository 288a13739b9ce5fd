/** app/services/evaluation_service.py: scoring one extraction, and comparing a candidate evaluation with a
    baseline field by field. */
module AbComparison {
  import opened Wrappers
  import opened Compare

  /** A case id or a field path, as `dict.get` returns it. */
  type Key = Option<string>

  type Pair = (Key, Key)

  /** One field of one case; `critical` is None if the row does not say. */
  datatype FieldRow = FieldRow(field: Key, isMatch: bool, critical: Option<bool>)

  datatype CaseResult = CaseResult(id: Key, rows: seq<FieldRow>)

  /** A count that may be absent, or present without a value. */
  type Counted = Option<Option<int>>

  datatype Evaluation = Evaluation(cases: seq<CaseResult>, accuracy: Option<real>,
                                   failureCases: Counted, criticalRegressions: Counted)

  datatype Class = Fixed | Regressed | StillWrong | UnchangedCorrect

  datatype Summary = Summary(fixed: nat, regressed: nat, stillWrong: nat, stillRight: nat, critical: nat)

  // ----- the dictionaries the comparison builds -----

  /** `{case["case_id"]: case ...}`: the last case of an id wins. */
  function RowsOf(cases: seq<CaseResult>, id: Key): seq<FieldRow> {
    if cases == [] then []
    else if cases[|cases| - 1].id == id then cases[|cases| - 1].rows
    else RowsOf(cases[..|cases| - 1], id)
  }

  function RowOf(rows: seq<FieldRow>, field: Key): Option<FieldRow> {
    if rows == [] then None
    else if rows[|rows| - 1].field == field then Some(rows[|rows| - 1])
    else RowOf(rows[..|rows| - 1], field)
  }

  /** `dict.fromkeys`: every key once, in the order of its first appearance. */
  function Distinct(s: seq<Key>): (r: seq<Key>)
    ensures forall x :: x in r <==> x in s
    ensures forall i, j | 0 <= i < j < |r| :: r[i] != r[j]
  {
    if s == [] then []
    else
      var rest := Distinct(s[..|s| - 1]);
      assert s == s[..|s| - 1] + [s[|s| - 1]];
      if s[|s| - 1] in rest then rest else rest + [s[|s| - 1]]
  }

  function Ids(cases: seq<CaseResult>): (r: seq<Key>)
    ensures forall id :: id in r <==> exists i | 0 <= i < |cases| :: cases[i].id == id
  {
    if cases == [] then []
    else
      assert forall i | 0 <= i < |cases| - 1 :: cases[..|cases| - 1][i] == cases[i];
      Ids(cases[..|cases| - 1]) + [cases[|cases| - 1].id]
  }

  function Fields(rows: seq<FieldRow>): (r: seq<Key>)
    ensures forall f :: f in r <==> RowOf(rows, f).Some?
  {
    if rows == [] then [] else Fields(rows[..|rows| - 1]) + [rows[|rows| - 1].field]
  }

  // ----- one field -----

  predicate MatchedIn(cases: seq<CaseResult>, p: Pair) {
    var row := RowOf(RowsOf(cases, p.0), p.1);
    row.Some? && row.value.isMatch
  }

  function Classify(before: bool, after: bool): Class {
    if !before && after then Fixed
    else if before && !after then Regressed
    else if !before && !after then StillWrong
    else UnchangedCorrect
  }

  /** The candidate's word on whether a field is critical, else the baseline's, else no. */
  predicate Critical(before: seq<CaseResult>, after: seq<CaseResult>, p: Pair) {
    var a, b := RowOf(RowsOf(after, p.0), p.1), RowOf(RowsOf(before, p.0), p.1);
    if a.Some? && a.value.critical.Some? then a.value.critical.value
    else b.Some? && b.value.critical.Some? && b.value.critical.value
  }

  function Count(t: Summary, c: Class, critical: bool): Summary {
    match c
    case Fixed => t.(fixed := t.fixed + 1)
    case Regressed => t.(regressed := t.regressed + 1, critical := t.critical + if critical then 1 else 0)
    case StillWrong => t.(stillWrong := t.stillWrong + 1)
    case UnchangedCorrect => t.(stillRight := t.stillRight + 1)
  }

  // ----- the comparison as it runs -----

  function FieldsOfCase(before: seq<CaseResult>, after: seq<CaseResult>, id: Key): seq<Key> {
    Distinct(Fields(RowsOf(before, id)) + Fields(RowsOf(after, id)))
  }

  function CaseIds(before: seq<CaseResult>, after: seq<CaseResult>): seq<Key> {
    Distinct(Distinct(Ids(before)) + Distinct(Ids(after)))
  }

  function PairsOfCase(id: Key, fields: seq<Key>): (r: seq<Pair>)
    ensures |r| == |fields| && forall i | 0 <= i < |fields| :: r[i] == (id, fields[i])
  {
    if fields == [] then [] else PairsOfCase(id, fields[..|fields| - 1]) + [(id, fields[|fields| - 1])]
  }

  function Pairs(before: seq<CaseResult>, after: seq<CaseResult>, ids: seq<Key>): seq<Pair> {
    if ids == [] then []
    else
      var id := ids[|ids| - 1];
      Pairs(before, after, ids[..|ids| - 1]) + PairsOfCase(id, FieldsOfCase(before, after, id))
  }

  function Tally(before: seq<CaseResult>, after: seq<CaseResult>, pairs: seq<Pair>): Summary {
    if pairs == [] then Summary(0, 0, 0, 0, 0)
    else
      var p := pairs[|pairs| - 1];
      Count(Tally(before, after, pairs[..|pairs| - 1]),
            Classify(MatchedIn(before, p), MatchedIn(after, p)), Critical(before, after, p))
  }

  lemma TallySnoc(before: seq<CaseResult>, after: seq<CaseResult>, pairs: seq<Pair>, p: Pair)
    ensures Tally(before, after, pairs + [p])
            == Count(Tally(before, after, pairs), Classify(MatchedIn(before, p), MatchedIn(after, p)),
                     Critical(before, after, p))
  {
    assert (pairs + [p])[..|pairs|] == pairs;
  }

  method TallyCase(before: seq<CaseResult>, after: seq<CaseResult>, id: Key, sofar: Summary, ghost done: seq<Pair>)
    returns (t: Summary)
    requires sofar == Tally(before, after, done)
    ensures t == Tally(before, after, done + PairsOfCase(id, FieldsOfCase(before, after, id)))
  {
    hide Tally, Critical, Classify, FieldsOfCase;
    t := sofar;
    var fields := FieldsOfCase(before, after, id);
    ghost var pairs := PairsOfCase(id, fields);
    assert done + pairs[..0] == done;
    for i := 0 to |fields|
      invariant t == Tally(before, after, done + pairs[..i])
    {
      var beforeRow := RowOf(RowsOf(before, id), fields[i]);
      var afterRow := RowOf(RowsOf(after, id), fields[i]);
      var beforeMatch := beforeRow.Some? && beforeRow.value.isMatch;
      var afterMatch := afterRow.Some? && afterRow.value.isMatch;
      TallySnoc(before, after, done + pairs[..i], (id, fields[i]));
      assert done + pairs[..i + 1] == done + pairs[..i] + [(id, fields[i])];
      t := Count(t, Classify(beforeMatch, afterMatch), Critical(before, after, (id, fields[i])));
    }
    assert pairs[..|fields|] == pairs;
  }

  function CountOf(n: Counted): int {
    if n.Some? && n.value.Some? then n.value.value else 0
  }

  /** Cases of the candidate that fail on a critical field, under either name of the statistic. */
  function CriticalFailures(e: Evaluation): int {
    if e.failureCases.Some? then CountOf(e.failureCases) else CountOf(e.criticalRegressions)
  }

  function Accuracy(e: Evaluation): real {
    if e.accuracy.Some? then e.accuracy.value else 0.0
  }

  lemma StartAndEnd(before: seq<CaseResult>, after: seq<CaseResult>)
    ensures Pairs(before, after, []) == [] && Tally(before, after, []) == Summary(0, 0, 0, 0, 0)
    ensures Tally(before, after, Pairs(before, after, CaseIds(before, after))).critical == 0 ==>
              forall p: Pair | Critical(before, after, p) :: MatchedIn(before, p) ==> MatchedIn(after, p)
  {
    hide Critical, MatchedIn;
    ReleaseHasNoCriticalRegression(before, after);
  }

  lemma PairsSnoc(before: seq<CaseResult>, after: seq<CaseResult>, ids: seq<Key>, i: nat)
    requires i < |ids|
    ensures Pairs(before, after, ids[..i + 1])
            == Pairs(before, after, ids[..i]) + PairsOfCase(ids[i], FieldsOfCase(before, after, ids[i]))
  {
    hide FieldsOfCase;
    assert ids[..i + 1][..i] == ids[..i];
  }

  /** build_ab_comparison: the summary and whether the candidate may be released. */
  method BuildAbComparison(baseline: Evaluation, candidate: Evaluation, threshold: real)
    returns (t: Summary, canRelease: bool)
    ensures t == Tally(baseline.cases, candidate.cases,
                       Pairs(baseline.cases, candidate.cases, CaseIds(baseline.cases, candidate.cases)))
    ensures canRelease <==>
            && Accuracy(candidate) >= threshold && Accuracy(candidate) >= Accuracy(baseline)
            && CriticalFailures(candidate) == 0 && t.critical == 0
    ensures canRelease ==> forall p: Pair | Critical(baseline.cases, candidate.cases, p) ::
                             MatchedIn(baseline.cases, p) ==> MatchedIn(candidate.cases, p)
  {
    hide Critical, MatchedIn, Tally, Pairs, CaseIds, RowOf, RowsOf;
    StartAndEnd(baseline.cases, candidate.cases);
    var ids := CaseIds(baseline.cases, candidate.cases);
    t := Summary(0, 0, 0, 0, 0);
    assert ids[..0] == [];
    for i := 0 to |ids|
      invariant t == Tally(baseline.cases, candidate.cases, Pairs(baseline.cases, candidate.cases, ids[..i]))
    {
      PairsSnoc(baseline.cases, candidate.cases, ids, i);
      t := TallyCase(baseline.cases, candidate.cases, ids[i], t, Pairs(baseline.cases, candidate.cases, ids[..i]));
    }
    assert ids[..|ids|] == ids;
    canRelease := true;
    if Accuracy(candidate) < threshold {
      canRelease := false;
    }
    if Accuracy(candidate) < Accuracy(baseline) {
      canRelease := false;
    }
    if CriticalFailures(candidate) != 0 {
      canRelease := false;
    }
    if t.critical != 0 {
      canRelease := false;
    }
  }

  // ----- what the counts mean -----

  /** The (case, field) pairs a run reports. */
  ghost predicate Reports(cases: seq<CaseResult>, p: Pair) {
    RowOf(RowsOf(cases, p.0), p.1).Some?
  }

  lemma {:induction false} ReportedIsListed(cases: seq<CaseResult>, id: Key)
    requires RowsOf(cases, id) != []
    ensures id in Ids(cases)
  {
    if cases[|cases| - 1].id != id {
      ReportedIsListed(cases[..|cases| - 1], id);
      var i :| 0 <= i < |cases| - 1 && cases[..|cases| - 1][i].id == id;
      assert cases[i].id == id;
    }
  }

  lemma {:induction false} PairsAreDistinct(before: seq<CaseResult>, after: seq<CaseResult>, ids: seq<Key>)
    requires forall i, j | 0 <= i < j < |ids| :: ids[i] != ids[j]
    ensures forall p :: p in Pairs(before, after, ids)
                        <==> p.0 in ids && (Reports(before, p) || Reports(after, p))
    ensures forall i, j | 0 <= i < j < |Pairs(before, after, ids)| ::
              Pairs(before, after, ids)[i] != Pairs(before, after, ids)[j]
  {
    if ids != [] {
      var rest := ids[..|ids| - 1];
      var id := ids[|ids| - 1];
      PairsAreDistinct(before, after, rest);
      var all := Pairs(before, after, ids);
      var earlier := Pairs(before, after, rest);
      var fields := FieldsOfCase(before, after, id);
      var mine := PairsOfCase(id, fields);
      assert all == earlier + mine;
      forall p ensures p in mine <==> p.0 == id && (Reports(before, p) || Reports(after, p)) {
        if p.0 == id && p.1 in fields {
          var i :| 0 <= i < |fields| && fields[i] == p.1;
          assert mine[i] == p;
        }
      }
      assert forall p :: p in all <==> p in earlier || p in mine;
      assert ids == rest + [id];
      forall i, j | 0 <= i < j < |all| ensures all[i] != all[j] {
        if i < |earlier| <= j {
          assert all[i] in earlier && all[j] in mine;
        }
      }
    }
  }

  /** The pairs compared: each pair that either run reports, once. */
  function Compared(before: seq<CaseResult>, after: seq<CaseResult>): seq<Pair> {
    Pairs(before, after, CaseIds(before, after))
  }

  lemma ComparedExactly(before: seq<CaseResult>, after: seq<CaseResult>)
    ensures forall p :: p in Compared(before, after) <==> Reports(before, p) || Reports(after, p)
    ensures forall i, j | 0 <= i < j < |Compared(before, after)| ::
              Compared(before, after)[i] != Compared(before, after)[j]
  {
    PairsAreDistinct(before, after, CaseIds(before, after));
    forall p: Pair | Reports(before, p) || Reports(after, p) ensures p.0 in CaseIds(before, after) {
      if Reports(before, p) {
        ReportedIsListed(before, p.0);
      } else {
        ReportedIsListed(after, p.0);
      }
    }
  }

  /** The pairs a run matches. */
  function Matched(cases: seq<CaseResult>, pairs: seq<Pair>): set<Pair> {
    set p | p in pairs && MatchedIn(cases, p)
  }

  function Regressions(before: seq<CaseResult>, after: seq<CaseResult>, pairs: seq<Pair>): set<Pair> {
    set p | p in pairs && MatchedIn(before, p) && !MatchedIn(after, p) && Critical(before, after, p)
  }

  function All(pairs: seq<Pair>): set<Pair> {
    set p | p in pairs
  }

  /** Each count is the size of the set it names: of all pairs, b matched before and a matched after. */
  ghost predicate Sizes(t: Summary, all: set<Pair>, b: set<Pair>, a: set<Pair>, r: set<Pair>) {
    && t.fixed == |a - b| && t.regressed == |b - a| && t.stillRight == |a * b| && t.stillWrong == |all - a - b|
    && t.critical == |r|
  }

  ghost predicate CountsSets(t: Summary, before: seq<CaseResult>, after: seq<CaseResult>, pairs: seq<Pair>) {
    Sizes(t, All(pairs), Matched(before, pairs), Matched(after, pairs), Regressions(before, after, pairs))
  }

  function With<T>(s: set<T>, p: T, yes: bool): set<T> {
    if yes then s + {p} else s
  }

  lemma {:induction false} TallyCountsSets(before: seq<CaseResult>, after: seq<CaseResult>, pairs: seq<Pair>)
    requires forall i, j | 0 <= i < j < |pairs| :: pairs[i] != pairs[j]
    ensures CountsSets(Tally(before, after, pairs), before, after, pairs)
    ensures |All(pairs)| == |pairs|
  {
    hide MatchedIn, Critical, CountsSets, Tally, Matched, Regressions, All;
    if pairs != [] {
      var rest := pairs[..|pairs| - 1];
      var p := pairs[|pairs| - 1];
      TallyCountsSets(before, after, rest);
      assert pairs == rest + [p] && p !in rest;
      OneMore(before, after, rest, p);
      WithSize(All(rest), p, true);
      TallySnoc(before, after, rest, p);
      CountMore(Tally(before, after, rest), before, after, rest, p);
    } else {
      NothingCounted(before, after);
    }
  }

  lemma NothingCounted(before: seq<CaseResult>, after: seq<CaseResult>)
    ensures CountsSets(Tally(before, after, []), before, after, []) && All([]) == {}
  {
    assert Matched(before, []) == {} == Matched(after, []);
    assert Regressions(before, after, []) == {};
  }

  lemma CountMore(t: Summary, before: seq<CaseResult>, after: seq<CaseResult>, rest: seq<Pair>, p: Pair)
    requires CountsSets(t, before, after, rest) && p !in rest
    ensures CountsSets(Count(t, Classify(MatchedIn(before, p), MatchedIn(after, p)), Critical(before, after, p)),
                       before, after, rest + [p])
  {
    hide MatchedIn, Critical, Matched, Regressions, All, Sizes, Count, Classify, With;
    OneMore(before, after, rest, p);
    SizesMore(t, All(rest), Matched(before, rest), Matched(after, rest), Regressions(before, after, rest), p,
              MatchedIn(before, p), MatchedIn(after, p), Critical(before, after, p));
  }

  lemma SizesMore(t: Summary, all: set<Pair>, b: set<Pair>, a: set<Pair>, r: set<Pair>, p: Pair,
                  inB: bool, inA: bool, critical: bool)
    requires Sizes(t, all, b, a, r) && p !in all && p !in b && p !in a && p !in r
    ensures Sizes(Count(t, Classify(inB, inA), critical), With(all, p, true), With(b, p, inB), With(a, p, inA),
                  With(r, p, inB && !inA && critical))
  {
    DifferenceMore(a, b, p, inA, inB);
    DifferenceMore(b, a, p, inB, inA);
    IntersectionMore(a, b, p, inA, inB);
    NeitherMore(all, b, a, p, inB, inA);
    hide With;
    WithSize(r, p, inB && !inA && critical);
  }

  lemma WithSize<T>(s: set<T>, p: T, yes: bool)
    requires p !in s
    ensures |With(s, p, yes)| == |s| + if yes then 1 else 0
  {
  }

  lemma DifferenceMore<T>(x: set<T>, y: set<T>, p: T, inX: bool, inY: bool)
    requires p !in x && p !in y
    ensures |With(x, p, inX) - With(y, p, inY)| == |x - y| + if inX && !inY then 1 else 0
  {
    assert With(x, p, inX) - With(y, p, inY) == With(x - y, p, inX && !inY);
  }

  lemma IntersectionMore<T>(x: set<T>, y: set<T>, p: T, inX: bool, inY: bool)
    requires p !in x && p !in y
    ensures |With(x, p, inX) * With(y, p, inY)| == |x * y| + if inX && inY then 1 else 0
  {
    assert With(x, p, inX) * With(y, p, inY) == With(x * y, p, inX && inY);
  }

  lemma NeitherMore<T>(all: set<T>, b: set<T>, a: set<T>, p: T, inB: bool, inA: bool)
    requires p !in all && p !in b && p !in a
    ensures |With(all, p, true) - With(a, p, inA) - With(b, p, inB)|
            == |all - a - b| + if !inB && !inA then 1 else 0
  {
    assert With(all, p, true) - With(a, p, inA) - With(b, p, inB) == With(all - a - b, p, !inB && !inA);
  }

  lemma OneMore(before: seq<CaseResult>, after: seq<CaseResult>, rest: seq<Pair>, p: Pair)
    requires p !in rest
    ensures var pairs := rest + [p];
            && All(pairs) == With(All(rest), p, true)
            && Matched(before, pairs) == With(Matched(before, rest), p, MatchedIn(before, p))
            && Matched(after, pairs) == With(Matched(after, rest), p, MatchedIn(after, p))
            && Regressions(before, after, pairs)
               == With(Regressions(before, after, rest), p,
                       MatchedIn(before, p) && !MatchedIn(after, p) && Critical(before, after, p))
            && p !in All(rest) && p !in Matched(before, rest) && p !in Matched(after, rest)
            && p !in Regressions(before, after, rest)
  {
    hide MatchedIn, Critical;
  }

  /** The summary of a comparison. */
  function SummaryOf(before: seq<CaseResult>, after: seq<CaseResult>): Summary {
    Tally(before, after, Compared(before, after))
  }

  /** The four counts share out the pairs that either run reports, and each counts what its name says. */
  lemma SummaryCounts(before: seq<CaseResult>, after: seq<CaseResult>)
    ensures var t := SummaryOf(before, after);
            var pairs := Compared(before, after);
            && CountsSets(t, before, after, pairs)
            && t.fixed + t.regressed + t.stillWrong + t.stillRight == |pairs| == |All(pairs)|
            && t.fixed - t.regressed == |Matched(after, pairs)| - |Matched(before, pairs)|
  {
    var pairs := Compared(before, after);
    ComparedExactly(before, after);
    TallyCountsSets(before, after, pairs);
    SharedOut(All(pairs), Matched(before, pairs), Matched(after, pairs));
  }

  lemma SharedOut<T>(all: set<T>, b: set<T>, a: set<T>)
    requires a <= all && b <= all
    ensures |a - b| + |b - a| + |a * b| + |all - a - b| == |all|
    ensures |a - b| - |b - a| == |a| - |b|
  {
    assert all == (a - b) + (b - a) + a * b + (all - a - b);
    assert a == (a - b) + a * b;
    assert b == (b - a) + a * b;
  }

  /** Comparing the other way round swaps FIXED and REGRESSED and leaves the other two. */
  lemma SwapSwaps(before: seq<CaseResult>, after: seq<CaseResult>)
    ensures var t := SummaryOf(before, after);
            var u := SummaryOf(after, before);
            && u.fixed == t.regressed && u.regressed == t.fixed
            && u.stillWrong == t.stillWrong && u.stillRight == t.stillRight
  {
    hide Compared, Matched, All, Tally;
    var forward, back := Compared(before, after), Compared(after, before);
    ComparedExactly(before, after);
    ComparedExactly(after, before);
    TallyCountsSets(before, after, forward);
    TallyCountsSets(after, before, back);
    SamePairs(before, forward, back);
    SamePairs(after, forward, back);
    var b, a := Matched(before, back), Matched(after, back);
    assert All(back) - a - b == All(back) - b - a && a * b == b * a;
  }

  lemma SamePairs(cases: seq<CaseResult>, x: seq<Pair>, y: seq<Pair>)
    requires forall p :: p in x <==> p in y
    ensures All(x) == All(y) && Matched(cases, x) == Matched(cases, y)
  {
    hide MatchedIn;
  }

  /** A release means that no critical field, reported by either run, went from matching to not matching. */
  lemma ReleaseHasNoCriticalRegression(before: seq<CaseResult>, after: seq<CaseResult>)
    ensures SummaryOf(before, after).critical == 0
            <==> forall p: Pair :: MatchedIn(before, p) && Critical(before, after, p) ==> MatchedIn(after, p)
  {
    var pairs := Compared(before, after);
    ComparedExactly(before, after);
    TallyCountsSets(before, after, pairs);
    if SummaryOf(before, after).critical == 0 {
      forall p: Pair | MatchedIn(before, p) && Critical(before, after, p) ensures MatchedIn(after, p) {
        assert Reports(before, p);
        assert p !in Regressions(before, after, pairs);
      }
    } else {
      var p :| p in Regressions(before, after, pairs);
    }
  }

  // ----- the gate over the rows themselves -----

  /** What a run says of a field of a case: of equal case ids the last counts, and in it of equal fields the last. */
  ghost predicate Says(cases: seq<CaseResult>, id: Key, row: FieldRow) {
    exists i | 0 <= i < |cases| ::
      && cases[i].id == id && (forall k | i < k < |cases| :: cases[k].id != id)
      && LastOf(cases[i].rows, row)
  }

  ghost predicate LastOf(rows: seq<FieldRow>, row: FieldRow) {
    exists j | 0 <= j < |rows| :: rows[j] == row && forall k | j < k < |rows| :: rows[k].field != row.field
  }

  lemma {:induction false} RowOfIsLast(rows: seq<FieldRow>, field: Key)
    ensures forall row :: LastOf(rows, row) && row.field == field <==> RowOf(rows, field) == Some(row)
  {
    if rows != [] {
      var n := |rows| - 1;
      RowOfIsLast(rows[..n], field);
      forall row ensures LastOf(rows, row) && row.field == field <==> RowOf(rows, field) == Some(row) {
        LastOfSnoc(rows[..n], rows[n], row);
        assert rows == rows[..n] + [rows[n]];
      }
    }
  }

  lemma LastOfSnoc(rows: seq<FieldRow>, last: FieldRow, row: FieldRow)
    ensures LastOf(rows + [last], row) <==> row == last || (last.field != row.field && LastOf(rows, row))
  {
    var all := rows + [last];
    if row == last {
      assert all[|rows|] == row;
    }
    if last.field != row.field && LastOf(rows, row) {
      var j :| 0 <= j < |rows| && rows[j] == row && forall k | j < k < |rows| :: rows[k].field != row.field;
      assert all[j] == row;
    }
    if row != last && LastOf(all, row) {
      var j :| 0 <= j < |all| && all[j] == row && forall k | j < k < |all| :: all[k].field != row.field;
      assert rows[j] == row && all[|rows|] == last;
      assert forall k | j < k < |rows| :: rows[k] == all[k];
    }
  }

  lemma SaysSnoc(cases: seq<CaseResult>, last: CaseResult, id: Key, row: FieldRow)
    ensures Says(cases + [last], id, row)
            <==> if last.id == id then LastOf(last.rows, row) else Says(cases, id, row)
  {
    hide LastOf;
    var n := |cases|;
    var all := cases + [last];
    assert all[n] == last && forall k | 0 <= k < n :: all[k] == cases[k];
    if last.id != id && Says(cases, id, row) {
      var i :| 0 <= i < n && cases[i].id == id && (forall k | i < k < n :: cases[k].id != id)
               && LastOf(cases[i].rows, row);
      assert all[i].id == id && forall k | i < k < |all| :: k == n || all[k] == cases[k];
    }
    if Says(all, id, row) {
      var i :| 0 <= i < |all| && all[i].id == id && (forall k | i < k < |all| :: all[k].id != id)
               && LastOf(all[i].rows, row);
      assert i == n || (all[n].id != id && cases[i].id == id);
    }
  }

  lemma {:induction false} RowsOfIsLast(cases: seq<CaseResult>, id: Key, row: FieldRow)
    ensures Says(cases, id, row) <==> LastOf(RowsOf(cases, id), row)
  {
    hide LastOf, Says;
    if cases == [] {
      NoRows(row);
      NothingSaid(id, row);
    } else {
      var n := |cases| - 1;
      RowsOfIsLast(cases[..n], id, row);
      SaysSnoc(cases[..n], cases[n], id, row);
      assert cases[..n] + [cases[n]] == cases;
    }
  }

  lemma NothingSaid(id: Key, row: FieldRow)
    ensures !Says([], id, row)
  {
  }

  lemma NoRows(row: FieldRow)
    ensures !LastOf([], row)
  {
  }

  lemma WhatIsSaid(cases: seq<CaseResult>, p: Pair, row: FieldRow)
    ensures Says(cases, p.0, row) && row.field == p.1 <==> RowOf(RowsOf(cases, p.0), p.1) == Some(row)
  {
    hide RowOf, RowsOf, LastOf, Says;
    RowsOfIsLast(cases, p.0, row);
    RowOfIsLast(RowsOf(cases, p.0), p.1);
  }

  /** A field that matched and no longer does, or is no longer reported, and that the candidate calls critical;
      the baseline's word counts where the candidate does not say. */
  ghost predicate Lost(before: seq<CaseResult>, after: seq<CaseResult>, p: Pair) {
    exists b :: Says(before, p.0, b) && b.field == p.1 && b.isMatch
                && (|| (b.critical == Some(true) && forall a :: Says(after, p.0, a) ==> a.field != p.1)
                    || (exists a :: && Says(after, p.0, a) && a.field == p.1 && !a.isMatch
                                    && (a.critical == Some(true) || (a.critical == None && b.critical == Some(true)))))
  }

  lemma LostIsCritical(before: seq<CaseResult>, after: seq<CaseResult>, p: Pair)
    ensures Lost(before, after, p)
            <==> MatchedIn(before, p) && Critical(before, after, p) && !MatchedIn(after, p)
  {
    hide RowOf, RowsOf, Says;
    forall row ensures Says(before, p.0, row) && row.field == p.1 <==> RowOf(RowsOf(before, p.0), p.1) == Some(row) {
      WhatIsSaid(before, p, row);
    }
    forall row ensures Says(after, p.0, row) && row.field == p.1 <==> RowOf(RowsOf(after, p.0), p.1) == Some(row) {
      WhatIsSaid(after, p, row);
    }
    var was, now := RowOf(RowsOf(before, p.0), p.1), RowOf(RowsOf(after, p.0), p.1);
    if was.Some? {
      assert Says(before, p.0, was.value);
    }
    if now.Some? {
      assert Says(after, p.0, now.value);
    }
  }

  /** The last gate, over the rows' own marks. */
  lemma GateSeesLostFields(before: seq<CaseResult>, after: seq<CaseResult>)
    ensures SummaryOf(before, after).critical == 0 <==> forall p: Pair :: !Lost(before, after, p)
  {
    hide Lost, SummaryOf, MatchedIn, Critical;
    ReleaseHasNoCriticalRegression(before, after);
    forall p: Pair
      ensures Lost(before, after, p) <==> MatchedIn(before, p) && Critical(before, after, p) && !MatchedIn(after, p)
    {
      LostIsCritical(before, after, p);
    }
  }

  /** A field is matched in a run if the row that counts says so. */
  lemma MatchedIsSaid(cases: seq<CaseResult>, p: Pair)
    ensures MatchedIn(cases, p) <==> exists row :: Says(cases, p.0, row) && row.field == p.1 && row.isMatch
  {
    hide RowOf, RowsOf, Says;
    forall row ensures Says(cases, p.0, row) && row.field == p.1 <==> RowOf(RowsOf(cases, p.0), p.1) == Some(row) {
      WhatIsSaid(cases, p, row);
    }
  }

  /** The other two statistics: an absent accuracy is 0, and the critical failures stand under either of two
      names, the newer one first. */
  lemma StatisticsOf(e: Evaluation)
    ensures Accuracy(e) == match e.accuracy case Some(x) => x case None => 0.0
    ensures CriticalFailures(e) == 0
            <==> || e.failureCases in {Some(None), Some(Some(0))}
                 || (e.failureCases == None && e.criticalRegressions in {None, Some(None), Some(Some(0))})
  {
  }

  // ----- scoring one extraction -----

  function Get(fields: map<string, Json>, key: string): Json {
    if key in fields then fields[key] else Null
  }

  /** The fields in order: which match, and the keys of those that do not. */
  method ScoreFields(env: Strings, extracted: map<string, Json>, truth: map<string, Json>, order: seq<string>)
    returns (matched: nat, matches: map<string, bool>, diffs: seq<string>)
    requires forall key | key in order :: key in truth
    ensures forall key :: key in matches <==> key in order
    ensures forall key | key in matches :: matches[key] == Matches(env, Get(extracted, key), truth[key], key)
    ensures diffs == Differing(env, extracted, truth, order) && matched == |order| - |diffs|
  {
    hide Matches, Differing;
    DifferingNothing(env, extracted, truth);
    matched, matches, diffs := 0, map[], [];
    assert order[..0] == [];
    for i := 0 to |order|
      invariant matched == i - |diffs|
      invariant forall key :: key in matches <==> key in order[..i]
      invariant forall key | key in matches :: matches[key] == Matches(env, Get(extracted, key), truth[key], key)
      invariant diffs == Differing(env, extracted, truth, order[..i])
    {
      var key := order[i];
      assert order[..i + 1] == order[..i] + [key];
      DifferingSnoc(env, extracted, truth, order[..i], key);
      var isMatch := CompareValues(env, Get(extracted, key), truth[key], key);
      matches := matches[key := isMatch];
      if isMatch {
        matched := matched + 1;
      } else {
        diffs := diffs + [key];
      }
    }
    assert order[..|order|] == order;
  }

  /** evaluate_extracted_against_ground_truth; `order` is the order of the ground truth's keys. */
  method EvaluateExtracted(env: Strings, extracted: map<string, Json>, truth: map<string, Json>, order: seq<string>)
    returns (accuracy: real, matches: map<string, bool>, diffs: seq<string>)
    requires forall key :: key in order <==> key in truth
    ensures matches.Keys == truth.Keys
    ensures forall key | key in truth :: matches[key] == Matches(env, Get(extracted, key), truth[key], key)
    ensures diffs == Differing(env, extracted, truth, order)
    ensures accuracy == if |order| == 0 then 0.0 else (|order| - |diffs|) as real / |order| as real
  {
    hide Matches, Differing;
    DifferingNothing(env, extracted, truth);
    if truth == map[] {
      SomeMember(order);
      return 0.0, map[], [];
    }
    var matched;
    matched, matches, diffs := ScoreFields(env, extracted, truth, order);
    accuracy := if |order| > 0 then matched as real / |order| as real else 0.0;
  }

  function Differing(env: Strings, extracted: map<string, Json>, truth: map<string, Json>, keys: seq<string>)
    : (r: seq<string>)
    requires forall key | key in keys :: key in truth
    ensures |r| <= |keys|
    ensures forall key :: key in r <==> key in keys && !Matches(env, Get(extracted, key), truth[key], key)
  {
    if keys == [] then []
    else
      var key := keys[|keys| - 1];
      var rest := keys[..|keys| - 1];
      assert keys == rest + [key];
      if Matches(env, Get(extracted, key), truth[key], key) then Differing(env, extracted, truth, rest)
      else Differing(env, extracted, truth, rest) + [key]
  }

  lemma DifferingNothing(env: Strings, extracted: map<string, Json>, truth: map<string, Json>)
    ensures Differing(env, extracted, truth, []) == []
  {
  }

  lemma DifferingSnoc(env: Strings, extracted: map<string, Json>, truth: map<string, Json>, keys: seq<string>,
                      key: string)
    requires key in truth && forall k | k in keys :: k in truth
    ensures forall k | k in keys + [key] :: k in truth
    ensures Differing(env, extracted, truth, keys + [key])
            == if Matches(env, Get(extracted, key), truth[key], key) then Differing(env, extracted, truth, keys)
               else Differing(env, extracted, truth, keys) + [key]
  {
    hide Matches;
    assert (keys + [key])[..|keys|] == keys;
  }

  /** The score is 1 exactly if the whole ground truth, as one object, is met by the extraction with missing
      keys read as null. */
  lemma FullScoreIsMatch(env: Strings, extracted: map<string, Json>, truth: map<string, Json>, order: seq<string>)
    requires forall key :: key in order <==> key in truth
    requires truth != map[]
    ensures var padded := map key | key in truth :: if key in extracted then extracted[key] else Null;
            |Differing(env, extracted, truth, order)| == 0 <==> Matches(env, Object(padded), Object(truth), "")
  {
    var padded := map key | key in truth :: if key in extracted then extracted[key] else Null;
    var diffs := Differing(env, extracted, truth, order);
    forall key | key in truth
      ensures key !in diffs <==> Matches(env, padded[key], truth[key], Child("", key))
    {
    }
    if diffs != [] {
      assert diffs[0] in diffs;
      assert !Matches(env, padded[diffs[0]], truth[diffs[0]], Child("", diffs[0]));
    }
  }
}
