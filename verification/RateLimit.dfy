/** app/core/rate_limit.py: the fixed-window counter kept under one Redis key. */
module RateLimit {
  import opened Wrappers

  /** The key: absent, or a counter that Redis drops when its time comes. */
  datatype Counter = Absent | Counting(count: nat, expireAt: int)

  /** INCR, then EXPIRE with NX, which leaves an existing expiry alone. */
  function Hit(c: Counter, now: int, window: nat): Counter {
    if c.Absent? || c.expireAt <= now then Counting(1, now + window) else c.(count := c.count + 1)
  }

  /** The key after requests at these times. */
  function After(times: seq<int>, window: nat): Counter {
    if times == [] then Absent else Hit(After(times[..|times| - 1], window), times[|times| - 1], window)
  }

  predicate LastAllowed(times: seq<int>, limit: int, window: nat)
    requires times != []
  {
    After(times, window).count <= limit
  }

  predicate TimesRise(times: seq<int>) {
    forall i, j | 0 <= i < j < |times| :: times[i] <= times[j]
  }

  /** How many requests at times in [from, to] were allowed. */
  function AllowedWithin(times: seq<int>, limit: int, window: nat, from: int, to: int): nat {
    if times == [] then 0
    else AllowedWithin(times[..|times| - 1], limit, window, from, to)
         + if from <= times[|times| - 1] <= to && LastAllowed(times, limit, window) then 1 else 0
  }

  /** Where the count within [from, from + window] stands when the key is c. */
  predicate Bounded(c: Counter, total: int, limit: nat, window: nat, from: int) {
    && total <= 2 * limit
    && (c.Absent? ==> total == 0)
    && (c.Counting? ==>
          && (total > 0 ==> c.expireAt > from)
          && (c.expireAt <= from + window ==> total <= Min(c.count, limit))
          && (from + window < c.expireAt <= from + 2 * window ==> total <= limit + Min(c.count, limit)))
  }

  lemma {:induction false} StaysBounded(times: seq<int>, limit: nat, window: nat, from: int)
    requires TimesRise(times) && window > 0
    ensures Bounded(After(times, window), AllowedWithin(times, limit, window, from, from + window), limit, window, from)
    ensures var c := After(times, window);
            times != [] ==> c.expireAt - window <= times[|times| - 1] < c.expireAt
  {
    if times != [] {
      StaysBounded(times[..|times| - 1], limit, window, from);
    }
  }

  /** Any closed interval as long as the window holds at most 2 * limit allowed requests. */
  lemma SlidingBound(times: seq<int>, limit: nat, window: nat, from: int)
    requires TimesRise(times) && window > 0
    ensures AllowedWithin(times, limit, window, from, from + window) <= 2 * limit
  {
    StaysBounded(times, limit, window, from);
  }

  lemma {:induction false} WindowIsUsed(times: seq<int>, limit: nat, window: nat)
    requires TimesRise(times) && window > 0 && times != []
    ensures var c := After(times, window);
            && c.expireAt - window <= times[|times| - 1] < c.expireAt
            && AllowedWithin(times, limit, window, c.expireAt - window, times[|times| - 1]) >= Min(c.count, limit)
  {
    var rest := times[..|times| - 1];
    if rest != [] {
      WindowIsUsed(rest, limit, window);
      AllowedUpTo(rest, limit, window, After(times, window).expireAt - window, rest[|rest| - 1], times[|times| - 1]);
    }
  }

  lemma {:induction false} AllowedUpTo(times: seq<int>, limit: nat, window: nat, from: int, to: int, later: int)
    requires to <= later
    ensures AllowedWithin(times, limit, window, from, to) <= AllowedWithin(times, limit, window, from, later)
  {
    if times != [] {
      AllowedUpTo(times[..|times| - 1], limit, window, from, to, later);
    }
  }

  /** A request is refused only if `limit` requests of the last window's length were allowed. */
  lemma RefusedMeansLimitUsed(times: seq<int>, limit: nat, window: nat)
    requires TimesRise(times) && window > 0 && times != [] && !LastAllowed(times, limit, window)
    ensures var now := times[|times| - 1];
            AllowedWithin(times, limit, window, now - window + 1, now) >= limit
  {
    var now := times[|times| - 1];
    var start := After(times, window).expireAt - window;
    WindowIsUsed(times, limit, window);
    AllowedFrom(times, limit, window, now - window + 1, start, now);
  }

  lemma {:induction false} AllowedFrom(times: seq<int>, limit: nat, window: nat, from: int, start: int, to: int)
    requires from <= start
    ensures AllowedWithin(times, limit, window, start, to) <= AllowedWithin(times, limit, window, from, to)
  {
    if times != [] {
      AllowedFrom(times[..|times| - 1], limit, window, from, start, to);
    }
  }

  /** `count` requests at one time. */
  function Burst(at: int, count: nat): (r: seq<int>)
    ensures |r| == count && forall i | 0 <= i < count :: r[i] == at
  {
    if count == 0 then [] else Burst(at, count - 1) + [at]
  }

  lemma {:induction false} BurstsAllowed(limit: nat, window: nat, extra: nat)
    requires limit > 0 && window > 0 && extra <= limit
    ensures var times := Burst(0, limit) + Burst(window, extra);
            && After(times, window) == (if extra == 0 then Counting(limit, window) else Counting(extra, 2 * window))
            && AllowedWithin(times, limit, window, 0, window) == limit + extra
    decreases extra
  {
    if extra == 0 {
      assert Burst(0, limit) + Burst(window, 0) == Burst(0, limit);
      FirstBurst(limit, limit, window);
    } else {
      BurstsAllowed(limit, window, extra - 1);
      var times := Burst(0, limit) + Burst(window, extra);
      assert times[..|times| - 1] == Burst(0, limit) + Burst(window, extra - 1);
    }
  }

  lemma {:induction false} FirstBurst(count: nat, limit: nat, window: nat)
    requires 0 < count <= limit && window > 0
    ensures After(Burst(0, count), window) == Counting(count, window)
    ensures AllowedWithin(Burst(0, count), limit, window, 0, window) == count
  {
    var times := Burst(0, count);
    assert times[..count - 1] == Burst(0, count - 1);
    if count > 1 {
      FirstBurst(count - 1, limit, window);
    } else {
      assert times[..0] == [];
    }
  }

  /** The bound is reached, for every limit and window. */
  lemma SlidingBoundIsTight(limit: nat, window: nat)
    requires limit > 0 && window > 0
    ensures var times := Burst(0, limit) + Burst(window, limit);
            TimesRise(times) && AllowedWithin(times, limit, window, 0, window) == 2 * limit
  {
    BurstsAllowed(limit, window, limit);
  }

  // ----- the key as the requests use it -----

  /** One request with its answer. */
  datatype Call = Call(now: int, limit: int, window: nat, allowed: bool)

  function AfterCalls(calls: seq<Call>): Counter {
    if calls == [] then Absent
    else
      var last := calls[|calls| - 1];
      Hit(AfterCalls(calls[..|calls| - 1]), last.now, last.window)
  }

  /** Every answer says whether the count after that request was within its limit. */
  predicate Truthful(calls: seq<Call>) {
    calls == []
    || (var last := calls[|calls| - 1];
        last.allowed == (AfterCalls(calls).count <= last.limit) && Truthful(calls[..|calls| - 1]))
  }

  class RedisKey {
    var value: Option<nat>
    var expireAt: Option<int>
    ghost var calls: seq<Call>

    /** The key holds what the requests so far left there. */
    ghost predicate Valid()
      reads this
    {
      && (value.Some? <==> expireAt.Some?)
      && Contents() == AfterCalls(calls) && Truthful(calls)
    }

    function Contents(): Counter
      reads this
    {
      if value.Some? && expireAt.Some? then Counting(value.value, expireAt.value) else Absent
    }

    constructor ()
      ensures Valid() && Contents() == Absent && calls == []
    {
      value, expireAt, calls := None, None, [];
    }

    /** consume_rate_limit: whether the request is allowed, and when to come back. */
    method Consume(now: int, limit: int, window: nat) returns (allowed: bool, retryAfter: int)
      requires Valid()
      modifies this
      ensures Valid() && Contents() == Hit(old(Contents()), now, window)
      ensures allowed == (Contents().count <= limit)
      ensures calls == old(calls) + [Call(now, limit, window, allowed)]
      ensures retryAfter > 0 || window == 0
      ensures window > 0 ==> retryAfter == Contents().expireAt - now
    {
      if expireAt.Some? && expireAt.value <= now {
        value, expireAt := None, None;
      }
      value := Some(1 + if value.Some? then value.value else 0);
      if expireAt == None {
        expireAt := Some(now + window);
      }
      var ttl := expireAt.value - now;
      allowed := value.value <= limit;
      retryAfter := if ttl > 0 then ttl else window;
      assert (calls + [Call(now, limit, window, allowed)])[..|calls|] == calls;
      calls := calls + [Call(now, limit, window, allowed)];
    }
  }

  /** All requests came with one limit and one window. */
  predicate Steady(calls: seq<Call>, limit: int, window: nat) {
    forall i | 0 <= i < |calls| :: calls[i].limit == limit && calls[i].window == window
  }

  function Times(calls: seq<Call>): (r: seq<int>)
    ensures |r| == |calls| && forall i | 0 <= i < |calls| :: r[i] == calls[i].now
  {
    if calls == [] then [] else Times(calls[..|calls| - 1]) + [calls[|calls| - 1].now]
  }

  /** How many of the requests at times in [from, to] got a yes. */
  function YesWithin(calls: seq<Call>, from: int, to: int): nat {
    if calls == [] then 0
    else
      var last := calls[|calls| - 1];
      YesWithin(calls[..|calls| - 1], from, to) + if from <= last.now <= to && last.allowed then 1 else 0
  }

  lemma {:induction false} AnswersCount(calls: seq<Call>, limit: int, window: nat, from: int, to: int)
    requires Steady(calls, limit, window) && Truthful(calls)
    ensures AfterCalls(calls) == After(Times(calls), window)
    ensures YesWithin(calls, from, to) == AllowedWithin(Times(calls), limit, window, from, to)
  {
    if calls != [] {
      AnswersCount(calls[..|calls| - 1], limit, window, from, to);
      assert Times(calls)[..|calls| - 1] == Times(calls[..|calls| - 1]);
    }
  }

  /** Whatever calls a key has served with one limit and window: of those in any closed interval of window length
      it answered at most 2 * limit with yes. */
  lemma KeyKeepsSlidingBound(key: RedisKey, limit: nat, window: nat, from: int)
    requires key.Valid() && Steady(key.calls, limit, window) && TimesRise(Times(key.calls)) && window > 0
    ensures YesWithin(key.calls, from, from + window) <= 2 * limit
  {
    AnswersCount(key.calls, limit, window, from, from + window);
    SlidingBound(Times(key.calls), limit, window, from);
  }
}
