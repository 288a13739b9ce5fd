/** app/celery_tasks.py: the per-tenant slots kept in one Redis sorted set, as the two Lua scripts change it.
    Times are microseconds of the Redis clock. */
module Semaphore {
  import opened Wrappers

  datatype KeyType = Missing | Legacy | SortedSet

  // ----- the simple form: token -> deadline -----

  /** The tokens whose deadline has not passed. */
  function Live(deadlines: map<string, int>, now: int): set<string> {
    set token | token in deadlines && deadlines[token] > now
  }

  predicate Grants(deadlines: map<string, int>, now: int, limit: int, token: string) {
    token in Live(deadlines, now) || |Live(deadlines, now)| < limit
  }

  /** A release is made by the execution that the acquisition at position `start` began. */
  datatype Event = Acquire(now: int, limit: int, token: string) | Release(now: int, token: string, start: nat)

  function Update(before: map<string, int>, e: Event, ttl: nat): map<string, int> {
    if e.Release? then before - {e.token}
    else if Grants(before, e.now, e.limit, e.token) then before[e.token := e.now + ttl]
    else before
  }

  /** The plain map after a history: nothing is purged, nothing expires, and only a release removes a token. */
  function Deadlines(h: seq<Event>, ttl: nat): map<string, int> {
    if h == [] then map[]
    else Update(Deadlines(h[..|h| - 1], ttl), h[|h| - 1], ttl)
  }

  lemma HistorySnoc(h: seq<Event>, e: Event, ttl: nat)
    ensures Deadlines(h + [e], ttl) == Update(Deadlines(h, ttl), e, ttl)
  {
    assert (h + [e])[..|h|] == h;
  }

  // ----- what the plain map guarantees -----

  predicate TimesRise(h: seq<Event>) {
    forall i, j | 0 <= i < j < |h| :: h[i].now <= h[j].now
  }

  predicate LimitsWithin(h: seq<Event>, most: nat) {
    forall i | 0 <= i < |h| && h[i].Acquire? :: h[i].limit <= most
  }

  lemma {:induction false} SubsetSize<T>(a: set<T>, b: set<T>)
    requires a <= b
    ensures |a| <= |b|
  {
    if a != {} {
      var x :| x in a;
      SubsetSize(a - {x}, b - {x});
    }
  }

  /** Later, fewer tokens are live. */
  lemma LiveShrinks(deadlines: map<string, int>, now: int, later: int)
    requires now <= later
    ensures |Live(deadlines, later)| <= |Live(deadlines, now)|
  {
    SubsetSize(Live(deadlines, later), Live(deadlines, now));
  }

  /** One acquisition. Held tokens are refreshed without taking a second slot; others take one. */
  lemma AcquireCounts(deadlines: map<string, int>, now: int, limit: int, token: string, ttl: nat)
    requires Grants(deadlines, now, limit, token)
    ensures |Live(deadlines[token := now + ttl], now)|
            <= |Live(deadlines, now)| + if token in Live(deadlines, now) then 0 else 1
  {
    SubsetSize(Live(deadlines[token := now + ttl], now), Live(deadlines, now) + {token});
  }

  /** Never more than the largest limit: at any time not before the last event. */
  lemma {:induction false} SlotsWithinLimit(h: seq<Event>, ttl: nat, most: nat, now: int)
    requires TimesRise(h) && LimitsWithin(h, most) && (h != [] ==> h[|h| - 1].now <= now)
    ensures |Live(Deadlines(h, ttl), now)| <= most
  {
    if h == [] {
      assert Live(Deadlines(h, ttl), now) == {};
    } else {
      var before := Deadlines(h[..|h| - 1], ttl);
      var last := h[|h| - 1];
      SlotsWithinLimit(h[..|h| - 1], ttl, most, last.now);
      LiveShrinks(Deadlines(h, ttl), last.now, now);
      match last
      case Acquire(at, limit, token) =>
        if Grants(before, at, limit, token) {
          AcquireCounts(before, at, limit, token, ttl);
        }
      case Release(at, token, _) =>
        SubsetSize(Live(before - {token}, at), Live(before, at));
    }
  }

  // ----- the scripts -----

  /** The sorted set and the plain map agree on everything that has not expired. */
  ghost predicate Agree(scores: map<string, int>, deadlines: map<string, int>, now: int) {
    forall token ::
      (token in scores && scores[token] > now) || (token in deadlines && deadlines[token] > now) ==>
        token in scores && token in deadlines && scores[token] == deadlines[token]
  }

  ghost predicate AtMost(deadlines: map<string, int>, top: int) {
    forall token | token in deadlines :: deadlines[token] <= top
  }

  /** Giving one token the latest deadline in both. */
  lemma PutAgrees(scores: map<string, int>, deadlines: map<string, int>, now: int, token: string, deadline: int)
    requires Agree(scores, deadlines, now) && AtMost(deadlines, deadline)
    requires forall other | other in scores :: scores[other] > now
    ensures Agree(scores[token := deadline], deadlines[token := deadline], now)
    ensures AtMost(scores[token := deadline], deadline) && AtMost(deadlines[token := deadline], deadline)
  {
  }

  class TenantKey {
    const ttl: nat
    var keyType: KeyType
    var scores: map<string, int>
    var expireAt: Option<int>
    ghost var history: seq<Event>
    ghost var deadlines: map<string, int>
    ghost var clock: int

    ghost predicate Valid()
      reads this
    {
      && (keyType != SortedSet ==> scores == map[] && expireAt == None)
      && (keyType == SortedSet ==> scores != map[] && expireAt.Some?)
      && (keyType == SortedSet ==> AtMost(scores, expireAt.value))
      && AtMost(deadlines, clock + ttl)
      && Agree(scores, deadlines, clock) && Recorded()
    }

    /** The plain map is that of the calls made so far. */
    ghost predicate Recorded()
      reads this`history, this`deadlines, this`clock
    {
      deadlines == Deadlines(history, ttl) && TimesRise(history)
      && (history != [] ==> history[|history| - 1].now <= clock)
    }

    ghost method Record(e: Event)
      requires Recorded() && clock <= e.now
      modifies this`history, this`deadlines, this`clock
      ensures Recorded() && history == old(history) + [e] && clock == e.now
      ensures deadlines == Update(old(deadlines), e, ttl)
    {
      HistorySnoc(history, e, ttl);
      history := history + [e];
      deadlines := Update(deadlines, e, ttl);
      clock := e.now;
    }

    /** Before the first script ran: nothing, or the integer counter of an older release. */
    constructor (ttl: nat, legacy: bool, now: int)
      ensures Valid() && this.ttl == ttl && clock == now && deadlines == map[] && history == []
    {
      this.ttl := ttl;
      keyType := if legacy then Legacy else Missing;
      scores, expireAt, history, deadlines, clock := map[], None, [], map[], now;
    }

    method Delete()
      modifies this`keyType, this`scores, this`expireAt
      ensures keyType == Missing && scores == map[] && expireAt == None
    {
      keyType, scores, expireAt := Missing, map[], None;
    }

    method Purge(now: int)
      modifies this`keyType, this`scores, this`expireAt
      ensures scores == map token | token in old(scores) && old(scores)[token] > now :: old(scores)[token]
      ensures if scores == map[] && old(scores) != map[] then keyType == Missing && expireAt == None
              else keyType == old(keyType) && expireAt == old(expireAt)
    {
      var before := scores;
      scores := map token | token in scores && scores[token] > now :: scores[token];
      if before != map[] && scores == map[] {
        Delete();
      }
    }

    method Put(token: string, deadline: int)
      modifies this`keyType, this`scores, this`expireAt
      ensures keyType == SortedSet && scores == old(scores)[token := deadline] && expireAt == Some(deadline)
    {
      keyType, scores := SortedSet, scores[token := deadline];
      expireAt := Some(deadline);
    }

    /** The first statements of ACQUIRE_SEMAPHORE: afterwards the sorted set holds exactly the live tokens. */
    method Prepare(now: int)
      requires Valid() && clock <= now
      modifies this`keyType, this`scores, this`expireAt, this`clock
      ensures Valid() && clock == now && keyType != Legacy
      ensures scores.Keys == Live(deadlines, now) && |scores| == |Live(deadlines, now)|
      ensures forall token | token in scores :: scores[token] > now
      ensures AtMost(deadlines, now + ttl) && deadlines == old(deadlines)
    {
      if keyType != Missing && keyType != SortedSet {
        Delete();
      }
      Purge(now);
      clock := now;
      assert scores.Keys == Live(deadlines, now);
      assert |scores| == |scores.Keys|;
    }

    /** ACQUIRE_SEMAPHORE grants exactly what the plain map grants. */
    method Acquire(now: int, limit: int, token: string) returns (ok: bool)
      requires Valid() && clock <= now
      modifies this
      ensures Valid() && clock == now
      ensures ok == Grants(old(deadlines), now, limit, token)
      ensures deadlines == if ok then old(deadlines)[token := now + ttl] else old(deadlines)
      ensures history == old(history) + [Event.Acquire(now, limit, token)]
    {
      hide Recorded, Live, Agree, AtMost;
      Prepare(now);
      PutAgrees(scores, deadlines, now, token, now + ttl);
      Record(Event.Acquire(now, limit, token));
      if token in scores {
        Put(token, now + ttl);
        return true;
      }
      if |scores| >= limit {
        return false;
      }
      Put(token, now + ttl);
      return true;
    }

    /** RELEASE_SEMAPHORE. */
    method Release(token: string, ghost start: nat) returns (removed: bool)
      requires Valid()
      modifies this
      ensures Valid() && clock == old(clock) && deadlines == old(deadlines) - {token}
      ensures removed == (token in old(scores)) && (token in Live(old(deadlines), clock) ==> removed)
      ensures history == old(history) + [Event.Release(clock, token, start)]
    {
      hide Recorded;
      Record(Event.Release(clock, token, start));
      if keyType != SortedSet {
        return false;
      }
      removed := token in scores;
      scores := scores - {token};
      if scores == map[] {
        Delete();
      }
    }

    /** Redis drops a key whose EXPIRE has run out, then or later: no unexpired token goes with it. */
    method Evict(now: int)
      requires Valid() && clock <= now && expireAt.Some? && expireAt.value <= now
      modifies this
      ensures Valid() && clock == now && deadlines == old(deadlines) && Live(deadlines, now) == {}
      ensures history == old(history)
    {
      Delete();
      clock := now;
    }

    /** At the current time the sorted set holds exactly the live tokens of the history, besides expired ones. */
    lemma ScriptsKeepLimit(most: nat)
      requires Valid() && LimitsWithin(history, most)
      ensures |Live(scores, clock)| <= most
    {
      SlotsWithinLimit(history, ttl, most, clock);
      assert Live(scores, clock) == Live(deadlines, clock);
    }
  }
}
