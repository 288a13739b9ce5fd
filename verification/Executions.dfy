/** app/celery_tasks.py: the executions behind the tenant slots. An execution begins where its token is granted and
    ends with its own release, or at the latest when its time is over, which is the ttl of the slot. */
module Executions {
  import opened Semaphore

  /** Event j started an execution. */
  predicate Granted(h: seq<Event>, j: nat, ttl: nat)
    requires j < |h|
  {
    h[j].Acquire? && Grants(Deadlines(h[..j], ttl), h[j].now, h[j].limit, h[j].token)
  }

  /** The execution that event j started may still be running. */
  ghost predicate Running(h: seq<Event>, j: nat, ttl: nat, now: int)
    requires j < |h|
  {
    && Granted(h, j, ttl) && now < h[j].now + ttl
    && forall i | j < i < |h| :: !(h[i].Release? && h[i].start == j && h[i].token == h[j].token)
  }

  /** Beyond that, nobody at all released its token since. */
  ghost predicate Holding(h: seq<Event>, j: nat, ttl: nat, now: int)
    requires j < |h|
  {
    && Granted(h, j, ttl) && now < h[j].now + ttl
    && forall i | j < i < |h| :: !(h[i].Release? && h[i].token == h[j].token)
  }

  // ----- slots and holders -----

  lemma {:induction false} HolderHasSlot(h: seq<Event>, j: nat, ttl: nat, now: int)
    requires TimesRise(h) && j < |h| && Holding(h, j, ttl, now)
    ensures h[j].token in Live(Deadlines(h, ttl), now)
  {
    if j < |h| - 1 {
      var rest := h[..|h| - 1];
      assert rest[..j] == h[..j];
      assert Holding(rest, j, ttl, now);
      HolderHasSlot(rest, j, ttl, now);
    }
  }

  lemma HoldingExtends(h: seq<Event>, j: nat, ttl: nat, now: int)
    requires j + 1 < |h| && Holding(h[..|h| - 1], j, ttl, now)
    requires !(h[|h| - 1].Release? && h[|h| - 1].token == h[j].token)
    ensures Holding(h, j, ttl, now)
  {
    assert h[..|h| - 1][..j] == h[..j];
    forall i | j < i < |h| ensures !(h[i].Release? && h[i].token == h[j].token) {
      if i < |h| - 1 {
        assert h[..|h| - 1][i] == h[i];
      }
    }
  }

  lemma {:induction false} SlotHasHolder(h: seq<Event>, ttl: nat, now: int, token: string)
    requires token in Live(Deadlines(h, ttl), now)
    ensures exists j :: 0 <= j < |h| && h[j].token == token && Holding(h, j, ttl, now)
  {
    var last := |h| - 1;
    if h[last].Acquire? && h[last].token == token && Granted(h, last, ttl) {
      assert Holding(h, last, ttl, now);
    } else {
      hide Holding;
      SlotHasHolder(h[..last], ttl, now, token);
      var j :| 0 <= j < last && h[..last][j].token == token && Holding(h[..last], j, ttl, now);
      HoldingExtends(h, j, ttl, now);
    }
  }

  /** A token is unexpired exactly if some execution granted under it may still run and nobody released it since. */
  lemma LiveIsHeld(h: seq<Event>, ttl: nat, now: int, token: string)
    requires TimesRise(h)
    ensures token in Live(Deadlines(h, ttl), now)
            <==> exists j :: 0 <= j < |h| && h[j].token == token && Holding(h, j, ttl, now)
  {
    hide Holding;
    if exists j :: 0 <= j < |h| && h[j].token == token && Holding(h, j, ttl, now) {
      var j :| 0 <= j < |h| && h[j].token == token && Holding(h, j, ttl, now);
      HolderHasSlot(h, j, ttl, now);
    }
    if token in Live(Deadlines(h, ttl), now) {
      SlotHasHolder(h, ttl, now, token);
    }
  }

  /** Every unexpired token has an execution that may still be running. */
  lemma LiveIsRunning(h: seq<Event>, ttl: nat, now: int, token: string) returns (j: nat)
    requires token in Live(Deadlines(h, ttl), now)
    ensures j < |h| && h[j].token == token && Running(h, j, ttl, now)
  {
    SlotHasHolder(h, ttl, now, token);
    j :| 0 <= j < |h| && h[j].token == token && Holding(h, j, ttl, now);
  }

  /** A refusal means that `limit` other executions may really be running: crashed ones stop counting as soon
      as their time is over. */
  lemma RefusedOnlyWhenFull(h: seq<Event>, ttl: nat, now: int, limit: int, token: string)
    requires TimesRise(h) && !Grants(Deadlines(h, ttl), now, limit, token)
    ensures |Live(Deadlines(h, ttl), now)| >= limit
    ensures forall other | other in Live(Deadlines(h, ttl), now) ::
              other != token && exists j :: 0 <= j < |h| && h[j].token == other && Running(h, j, ttl, now)
  {
    hide Running;
    forall other | other in Live(Deadlines(h, ttl), now)
      ensures exists j :: 0 <= j < |h| && h[j].token == other && Running(h, j, ttl, now)
    {
      var j := LiveIsRunning(h, ttl, now, other);
    }
  }

  // ----- counting executions -----

  ghost function Executions(h: seq<Event>, ttl: nat, now: int): set<nat> {
    set j: nat | j < |h| && Running(h, j, ttl, now)
  }

  function TokensOf(h: seq<Event>, starts: set<nat>): set<string>
    requires forall j | j in starts :: j < |h|
  {
    set j | j in starts :: h[j].token
  }

  predicate DistinctTokens(h: seq<Event>, starts: set<nat>)
    requires forall j | j in starts :: j < |h|
  {
    forall i, j | i in starts && j in starts && i != j :: h[i].token != h[j].token
  }

  lemma {:induction false} TokensCount(h: seq<Event>, starts: set<nat>)
    requires forall j | j in starts :: j < |h|
    ensures |TokensOf(h, starts)| <= |starts|
    ensures DistinctTokens(h, starts) ==> |TokensOf(h, starts)| == |starts|
  {
    if starts == {} {
      assert TokensOf(h, starts) == {};
    } else {
      var j :| j in starts;
      TokensCount(h, starts - {j});
      assert TokensOf(h, starts) == TokensOf(h, starts - {j}) + {h[j].token};
    }
  }

  lemma SharedTokenCounts(h: seq<Event>, starts: set<nat>, i: nat, j: nat)
    requires forall m | m in starts :: m < |h|
    requires i in starts && j in starts && i != j && h[i].token == h[j].token
    ensures |TokensOf(h, starts)| < |starts|
  {
    TokensCount(h, starts - {j});
    assert i in starts - {j};
    assert TokensOf(h, starts) == TokensOf(h, starts - {j});
  }

  /** Every running execution has a slot, and shares it with no other. */
  ghost predicate OwnSlots(h: seq<Event>, ttl: nat, now: int) {
    && (forall j | 0 <= j < |h| && Running(h, j, ttl, now) :: h[j].token in Live(Deadlines(h, ttl), now))
    && DistinctTokens(h, Executions(h, ttl, now))
  }

  lemma SameSet<T>(a: set<T>, b: set<T>)
    requires a <= b && |a| == |b|
    ensures a == b
  {
    if x :| x in b && x !in a {
      SubsetSize(a, b - {x});
    }
  }

  /** There are never fewer executions than slots taken, and as many exactly if each has a slot of its own. */
  lemma OwnSlotsCount(h: seq<Event>, ttl: nat, now: int)
    ensures |Live(Deadlines(h, ttl), now)| <= |Executions(h, ttl, now)|
    ensures OwnSlots(h, ttl, now) <==> |Executions(h, ttl, now)| == |Live(Deadlines(h, ttl), now)|
  {
    hide Running, Live, Deadlines;
    var starts := Executions(h, ttl, now);
    var live := Live(Deadlines(h, ttl), now);
    var tokens := TokensOf(h, starts);
    forall token | token in live ensures token in tokens {
      var j := LiveIsRunning(h, ttl, now, token);
      assert j in starts;
    }
    SubsetSize(live, tokens);
    TokensCount(h, starts);
    if OwnSlots(h, ttl, now) {
      SubsetSize(tokens, live);
    }
    if |starts| == |live| {
      SameSet(live, tokens);
      forall i, j | i in starts && j in starts && i != j ensures h[i].token != h[j].token {
        if h[i].token == h[j].token {
          SharedTokenCounts(h, starts, i, j);
        }
      }
      forall j | 0 <= j < |h| && Running(h, j, ttl, now) ensures h[j].token in live {
        assert j in starts;
      }
    }
  }

  // ----- when every execution has a slot of its own -----

  /** A release is made under its own token by an execution that is still running. */
  ghost predicate ReleasesAreOwn(h: seq<Event>, ttl: nat) {
    forall i | 0 <= i < |h| && h[i].Release? ::
      h[i].start < i && h[h[i].start].token == h[i].token && Running(h[..i], h[i].start, ttl, h[i].now)
  }

  /** No execution begins under the token of another one that is still running. */
  ghost predicate NeverOverlap(h: seq<Event>, ttl: nat) {
    forall i, j | 0 <= i < j < |h| && h[i].token == h[j].token && Granted(h, j, ttl) ::
      !Running(h[..j], i, ttl, h[j].now)
  }

  lemma RunningBefore(h: seq<Event>, m: nat, j: nat, ttl: nat, now: int, earlier: int)
    requires j < m <= |h| && Running(h, j, ttl, now) && earlier <= now
    ensures Running(h[..m], j, ttl, earlier)
  {
    assert h[..m][..j] == h[..j];
  }

  /** Without overlaps the release of a running execution's token is its own. */
  lemma ReleasedByItself(h: seq<Event>, i: nat, j: nat, ttl: nat)
    requires TimesRise(h) && ReleasesAreOwn(h, ttl) && NeverOverlap(h, ttl)
    requires j < i < |h| && Running(h[..i], j, ttl, h[i].now) && h[i].Release? && h[i].token == h[j].token
    ensures h[i].start == j
  {
    hide Grants, Deadlines;
    var s := h[i].start;
    assert h[..i][..j] == h[..j] && h[..i][..s] == h[..s];
    assert Granted(h, j, ttl) && Granted(h, s, ttl);
    if s < j {
      assert !Running(h[..j], s, ttl, h[j].now);
      RunningBefore(h[..i], j, s, ttl, h[i].now, h[j].now);
    } else if s > j {
      assert !Running(h[..s], j, ttl, h[s].now);
      RunningBefore(h[..i], s, j, ttl, h[i].now, h[s].now);
    }
  }

  /** Without overlaps nobody else releases the token of a running execution. */
  lemma RunningIsHolding(h: seq<Event>, j: nat, ttl: nat, now: int)
    requires TimesRise(h) && ReleasesAreOwn(h, ttl) && NeverOverlap(h, ttl)
    requires j < |h| && h[|h| - 1].now <= now && Running(h, j, ttl, now)
    ensures Holding(h, j, ttl, now)
  {
    hide Granted;
    forall i | j < i < |h| ensures !(h[i].Release? && h[i].token == h[j].token) {
      if h[i].Release? && h[i].token == h[j].token {
        RunningBefore(h, i, j, ttl, now, h[i].now);
        ReleasedByItself(h, i, j, ttl);
      }
    }
  }

  lemma NoOverlapOwnSlots(h: seq<Event>, ttl: nat, now: int)
    requires TimesRise(h) && ReleasesAreOwn(h, ttl) && NeverOverlap(h, ttl) && (h != [] ==> h[|h| - 1].now <= now)
    ensures OwnSlots(h, ttl, now)
  {
    hide Running, Holding, Granted, Live, Deadlines;
    forall j | 0 <= j < |h| && Running(h, j, ttl, now) ensures h[j].token in Live(Deadlines(h, ttl), now) {
      RunningIsHolding(h, j, ttl, now);
      HolderHasSlot(h, j, ttl, now);
    }
    forall i: nat, j: nat | i < j < |h| && Running(h, i, ttl, now) && Running(h, j, ttl, now)
      ensures h[i].token != h[j].token
    {
      RunningBefore(h, j, i, ttl, now, h[j].now);
      RunningWasGranted(h, j, ttl, now);
    }
  }

  lemma RunningWasGranted(h: seq<Event>, j: nat, ttl: nat, now: int)
    requires j < |h| && Running(h, j, ttl, now)
    ensures Granted(h, j, ttl)
  {
  }

  lemma PrefixKeeps(h: seq<Event>, n: nat, ttl: nat)
    requires n <= |h| && TimesRise(h) && ReleasesAreOwn(h, ttl) && NeverOverlap(h, ttl)
    ensures TimesRise(h[..n]) && ReleasesAreOwn(h[..n], ttl) && NeverOverlap(h[..n], ttl)
  {
    hide Running, Grants, Deadlines;
    forall i | 0 <= i < n ensures h[..n][..i] == h[..i] {
    }
  }

  /** At every moment of the history, after its first n events. */
  ghost predicate OwnSlotsThroughout(h: seq<Event>, ttl: nat) {
    forall n: nat, now: int | n <= |h| && (n > 0 ==> h[n - 1].now <= now) && (n < |h| ==> now <= h[n].now) ::
      OwnSlots(h[..n], ttl, now)
  }

  lemma OverlapSharesSlot(h: seq<Event>, i: nat, j: nat, ttl: nat)
    requires TimesRise(h) && i < j < |h| && h[i].token == h[j].token && Granted(h, j, ttl)
    requires Running(h[..j], i, ttl, h[j].now)
    ensures !OwnSlots(h[..j + 1], ttl, h[j].now)
  {
    hide Grants, Deadlines;
    var part := h[..j + 1];
    assert part[..j] == h[..j] && part[..i] == h[..j][..i];
    assert Running(part, i, ttl, h[j].now) by {
      forall m | i < m < |part| ensures !(part[m].Release? && part[m].start == i && part[m].token == part[i].token) {
        if m < j {
          assert part[m] == h[..j][m];
        }
      }
    }
    assert Running(part, j, ttl, h[j].now);
    assert i in Executions(part, ttl, h[j].now) && j in Executions(part, ttl, h[j].now);
  }

  /** At every moment every running execution has a slot of its own, exactly if no execution ever begins under the
      token of another one that is still running. */
  lemma OwnSlotsExactly(h: seq<Event>, ttl: nat)
    requires TimesRise(h) && ReleasesAreOwn(h, ttl)
    ensures OwnSlotsThroughout(h, ttl) <==> NeverOverlap(h, ttl)
  {
    hide Running, OwnSlots, Granted;
    if NeverOverlap(h, ttl) {
      forall n: nat, now: int | n <= |h| && (n > 0 ==> h[n - 1].now <= now) && (n < |h| ==> now <= h[n].now)
        ensures OwnSlots(h[..n], ttl, now)
      {
        PrefixKeeps(h, n, ttl);
        NoOverlapOwnSlots(h[..n], ttl, now);
      }
    }
    if OwnSlotsThroughout(h, ttl) {
      forall i, j | 0 <= i < j < |h| && h[i].token == h[j].token && Granted(h, j, ttl)
        ensures !Running(h[..j], i, ttl, h[j].now)
      {
        if Running(h[..j], i, ttl, h[j].now) {
          OverlapSharesSlot(h, i, j, ttl);
        }
      }
    }
  }

  /** Without overlaps under one token, all executions that end within ttl never exceed the largest limit,
      whoever crashes without releasing. */
  lemma ExecutionsWithinLimit(h: seq<Event>, ttl: nat, most: nat, now: int)
    requires TimesRise(h) && LimitsWithin(h, most) && (h != [] ==> h[|h| - 1].now <= now)
    requires ReleasesAreOwn(h, ttl) && NeverOverlap(h, ttl)
    ensures |Executions(h, ttl, now)| <= most
  {
    NoOverlapOwnSlots(h, ttl, now);
    OwnSlotsCount(h, ttl, now);
    SlotsWithinLimit(h, ttl, most, now);
  }

  /** The same of the executions that the scripts of a key granted. */
  lemma ScriptExecutionsWithinLimit(key: TenantKey, most: nat)
    requires key.Valid() && LimitsWithin(key.history, most)
    requires ReleasesAreOwn(key.history, key.ttl) && NeverOverlap(key.history, key.ttl)
    ensures |Executions(key.history, key.ttl, key.clock)| <= most
  {
    ExecutionsWithinLimit(key.history, key.ttl, most, key.clock);
  }

  // ----- a redelivery -----

  /** Limit one. The second delivery of "a" is granted while the first runs; the first one ends and gives the slot of
      both back; "b" takes it. */
  function Redelivery(): seq<Event> {
    [Acquire(0, 1, "a"), Acquire(1, 1, "a"), Release(2, "a", 0), Acquire(3, 1, "b")]
  }

  lemma RedeliveryGrants()
    ensures var h := Redelivery();
            && Granted(h, 0, 100) && Granted(h, 1, 100) && Granted(h, 3, 100)
            && Live(Deadlines(h[..3], 100), 3) == {} && Live(Deadlines(h, 100), 3) == {"b"}
  {
    var h := Redelivery();
    assert h[..0] == [] && h[..1] == [h[0]] && h[..2] == [h[0], h[1]] && h[..3] == [h[0], h[1], h[2]];
    assert h[..1][..0] == [] && h[..2][..1] == h[..1] && h[..3][..2] == h[..2] && h[..2][..0] == [];
    assert Live(Deadlines([], 100), 0) == {};
    assert Deadlines(h[..1], 100) == map["a" := 100];
    assert Deadlines(h[..2], 100) == map["a" := 101];
    assert Deadlines(h[..3], 100) == map[];
    assert Live(Deadlines(h[..3], 100), 3) == {};
    assert Deadlines(h, 100) == map["b" := 103];
  }

  /** The second execution of "a" runs on without a slot, next to "b": two executions with different tokens where
      the limit is one. */
  lemma RedeliveryExceedsLimit()
    ensures var h := Redelivery();
            && TimesRise(h) && LimitsWithin(h, 1) && ReleasesAreOwn(h, 100) && !NeverOverlap(h, 100)
            && Executions(h, 100, 3) == {1, 3} && h[1].token != h[3].token
            && Live(Deadlines(h, 100), 3) == {"b"}
  {
    hide Grants, Deadlines, Live;
    var h := Redelivery();
    RedeliveryGrants();
    assert h[..2][..0] == h[..0] && h[..1][..0] == h[..0];
    assert Granted(h[..2], 0, 100) && Granted(h[..1], 0, 100);
    assert Running(h[..2], 0, 100, 2);
    assert Running(h[..1], 0, 100, 1);
    assert Running(h, 1, 100, 3) && Running(h, 3, 100, 3);
    assert h[2].Release? && h[2].start == 0;
    assert !Running(h, 0, 100, 3);
    assert !Running(h, 2, 100, 3);
  }
}
