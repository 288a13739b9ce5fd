/** app/services/queue_service.py: the in-process worker pool, one step between two awaits at a time. */
module LocalQueue {

  datatype Item = Item(task: nat, tenant: nat)

  /** A worker waits for an item, holds one while its tenant's limit is looked up, or runs it. */
  datatype Worker = Idle | Holding(item: Item) | Running(item: Item)

  function Load(w: Worker, t: nat): nat {
    if w.Running? && w.item.tenant == t then 1 else 0
  }

  function RunningFor(workers: seq<Worker>, t: nat): nat {
    if workers == [] then 0 else RunningFor(workers[..|workers| - 1], t) + Load(workers[|workers| - 1], t)
  }

  function InHand(w: Worker): multiset<Item> {
    if w.Idle? then multiset{} else multiset{w.item}
  }

  function InHands(workers: seq<Worker>): multiset<Item> {
    if workers == [] then multiset{} else InHands(workers[..|workers| - 1]) + InHand(workers[|workers| - 1])
  }

  lemma {:induction false} WorkerChanges(workers: seq<Worker>, w: nat, x: Worker, t: nat)
    requires w < |workers|
    ensures RunningFor(workers[w := x], t) == RunningFor(workers, t) - Load(workers[w], t) + Load(x, t)
    ensures InHand(workers[w]) <= InHands(workers)
    ensures InHands(workers[w := x]) == InHands(workers) - InHand(workers[w]) + InHand(x)
  {
    hide InHand, Load;
    var n := |workers| - 1;
    if w < n {
      assert workers[w := x][..n] == workers[..n][w := x];
      WorkerChanges(workers[..n], w, x, t);
      Shift(InHands(workers[..n]), InHand(workers[n]), InHand(workers[w]), InHand(x));
    } else {
      assert workers[w := x][..n] == workers[..n];
      Shift(multiset{}, InHands(workers[..n]), multiset{}, InHand(x));
    }
  }

  lemma Shift<T>(a: multiset<T>, rest: multiset<T>, out: multiset<T>, x: multiset<T>)
    requires out <= a
    ensures out <= a + rest
    ensures a - out + x + rest == a + rest - out + x
  {
  }

  lemma {:induction false} AllIdle(workers: seq<Worker>)
    requires forall i | 0 <= i < |workers| :: workers[i].Idle?
    ensures InHands(workers) == multiset{} && forall t: nat :: RunningFor(workers, t) == 0
  {
    if workers != [] {
      AllIdle(workers[..|workers| - 1]);
    }
  }

  class TaskQueueManager {
    var queue: seq<Item>
    var activeCounts: map<nat, nat>
    var workers: seq<Worker>
    var isRunning: bool
    ghost var asked: map<nat, nat>   // the largest limit that was looked up for a tenant

    constructor (n: nat)
      ensures Valid() && Pending() == multiset{} && |workers| == n && isRunning
      ensures forall i | 0 <= i < n :: workers[i].Idle?
    {
      queue, activeCounts, isRunning, asked := [], map[], true, map[];
      workers := seq(n, i => Idle);
      new;
      AllIdle(workers);
    }

    /** The defaultdict of active counts. */
    function Active(t: nat): nat
      reads this
    {
      if t in activeCounts then activeCounts[t] else 0
    }

    ghost function MostAsked(t: nat): nat
      reads this`asked
    {
      if t in asked then asked[t] else 0
    }

    /** The counters count the running items, so that a counter is never clamped at zero; and no tenant ever runs
        more items than the largest limit that was looked up for it. */
    ghost predicate Valid()
      reads this
    {
      && (forall t: nat :: Active(t) == RunningFor(workers, t))
      && (forall t: nat :: RunningFor(workers, t) <= MostAsked(t))
    }

    /** Everything that was enqueued and neither finished nor dropped. */
    ghost function Pending(): multiset<Item>
      reads this
    {
      multiset(queue) + InHands(workers)
    }

    method SetWorker(w: nat, x: Worker)
      requires w < |workers|
      modifies this`workers
      ensures workers == old(workers)[w := x]
      ensures forall t: nat :: RunningFor(workers, t)
                               == RunningFor(old(workers), t) - Load(old(workers)[w], t) + Load(x, t)
      ensures InHand(old(workers)[w]) <= InHands(old(workers))
      ensures InHands(workers) == InHands(old(workers)) - InHand(old(workers)[w]) + InHand(x)
    {
      ghost var before := workers;
      workers := workers[w := x];
      forall t: nat ensures RunningFor(workers, t) == RunningFor(before, t) - Load(before[w], t) + Load(x, t) {
        WorkerChanges(before, w, x, t);
      }
      WorkerChanges(before, w, x, 0);
    }

    method Enqueue(item: Item)
      requires Valid()
      modifies this`queue
      ensures Valid() && queue == old(queue) + [item]
      ensures Pending() == old(Pending()) + multiset{item}
    {
      queue := queue + [item];
    }

    /** `queue.get()` of an idle worker. */
    method Take(w: nat)
      requires Valid() && w < |workers| && workers[w].Idle? && queue != []
      modifies this
      ensures Valid() && Pending() == old(Pending())
      ensures workers == old(workers)[w := Holding(old(queue)[0])] && queue == old(queue)[1..]
      ensures isRunning == old(isRunning) && activeCounts == old(activeCounts)
    {
      hide InHands, RunningFor;
      var item := queue[0];
      assert queue == [item] + queue[1..];
      queue := queue[1..];
      SetWorker(w, Holding(item));
    }

    method PutBack(w: nat)
      requires Valid() && w < |workers| && workers[w].Holding?
      modifies this`queue, this`workers
      ensures Valid() && Pending() == old(Pending())
      ensures workers == old(workers)[w := Idle] && queue == old(queue) + [old(workers)[w].item]
    {
      hide InHands, RunningFor;
      queue := queue + [workers[w].item];
      SetWorker(w, Idle);
    }

    method Drop(w: nat)
      requires Valid() && w < |workers| && workers[w].Holding?
      modifies this`workers
      ensures Valid() && Pending() == old(Pending()) - multiset{old(workers)[w].item}
      ensures workers == old(workers)[w := Idle]
    {
      hide InHands, RunningFor;
      SetWorker(w, Idle);
    }

    method Start(w: nat, ghost limit: nat)
      requires Valid() && w < |workers| && workers[w].Holding?
      requires RunningFor(workers, workers[w].item.tenant) < limit
      modifies this`activeCounts, this`workers, this`asked
      ensures asked == old(asked)[old(workers)[w].item.tenant := if limit > old(MostAsked(workers[w].item.tenant))
                                                                 then limit else old(MostAsked(workers[w].item.tenant))]
      ensures Valid() && Pending() == old(Pending())
      ensures workers == old(workers)[w := Running(old(workers)[w].item)]
      ensures forall t: nat :: RunningFor(workers, t)
                               == old(RunningFor(workers, t)) + if t == old(workers)[w].item.tenant then 1 else 0
    {
      hide InHands, RunningFor;
      var item := workers[w].item;
      activeCounts := activeCounts[item.tenant := Active(item.tenant) + 1];
      asked := asked[item.tenant := if limit > MostAsked(item.tenant) then limit else MostAsked(item.tenant)];
      SetWorker(w, Running(item));
    }

    /** The admission check. The count is read and raised without an await between, so that the tenant never
        runs more than its limit; a refused item goes to the back of the queue. Only a stopped pool drops one. */
    method Admit(w: nat, limit: nat)
      requires Valid() && w < |workers| && workers[w].Holding?
      modifies this
      ensures Valid() && isRunning == old(isRunning)
      ensures var item := old(workers)[w].item;
              if old(RunningFor(workers, item.tenant)) >= limit && isRunning then
                workers == old(workers)[w := Idle] && queue == old(queue) + [item] && Pending() == old(Pending())
              else if !isRunning then
                workers == old(workers)[w := Idle] && queue == old(queue)
                && Pending() == old(Pending()) - multiset{item}
              else
                workers == old(workers)[w := Running(item)] && queue == old(queue) && Pending() == old(Pending())
                && RunningFor(workers, item.tenant) <= limit
                && forall t: nat | t != item.tenant :: RunningFor(workers, t) == old(RunningFor(workers, t))
    {
      hide InHands, RunningFor;
      var item := workers[w].item;
      if Active(item.tenant) >= limit && isRunning {
        PutBack(w);
        return;
      }
      if !isRunning {
        Drop(w);
        return;
      }
      Start(w, limit);
    }

    /** The task is over, however it ended. */
    method Finish(w: nat)
      requires Valid() && w < |workers| && workers[w].Running?
      modifies this
      ensures Valid() && workers == old(workers)[w := Idle] && queue == old(queue) && isRunning == old(isRunning)
      ensures Pending() == old(Pending()) - multiset{old(workers)[w].item}
      ensures forall t: nat :: RunningFor(workers, t) <= old(RunningFor(workers, t))
    {
      hide InHands, RunningFor;
      var t := workers[w].item.tenant;
      ghost var item := workers[w].item;
      SetWorker(w, Idle);
      activeCounts := activeCounts[t := if Active(t) > 0 then Active(t) - 1 else 0];
      assert InHand(Idle) == multiset{};
    }
  }
}
