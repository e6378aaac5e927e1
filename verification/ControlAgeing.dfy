/**
  How long an overdue control packet can be kept waiting.
  */
module ControlAgeing {
  import opened Common
  import opened ControlSpec

  /** Within capacity, and every queued packet has an order of its own below the counter. */
  ghost predicate QueueOk(q: Queue) {
    && |q.items| <= CAPACITY
    && (forall i :: 0 <= i < |q.items| ==> q.items[i].order < q.next)
    && (forall i, j :: 0 <= i < j < |q.items| ==> q.items[i].order != q.items[j].order)
  }

  lemma WithoutKeepsOk(q: Queue, i: nat)
    requires QueueOk(q) && i < |q.items|
    ensures QueueOk(Queue(Without(q.items, i), q.next))
  {
  }

  lemma EnqueueKeepsOk(q: Queue, item: Item)
    requires QueueOk(q)
    ensures QueueOk(Enqueue(q, item))
  {
    var d := Decide(q.items, item);
    if d.Evict? {
      WithoutKeepsOk(q, d.victim);
    }
  }

  ghost function Orders(items: seq<Item>): set<nat> { set i | 0 <= i < |items| :: items[i].order }

  /** The queued orders that come before o. */
  ghost function Earlier(items: seq<Item>, o: nat): set<nat> { set x | x in Orders(items) && x < o }

  /** Order o is queued, and has waited its limit by time `now`. */
  ghost predicate Waiting(items: seq<Item>, o: nat, now: int) {
    exists i :: 0 <= i < |items| && items[i].order == o && Overdue(items[i], now)
  }

  lemma WithoutOrders(q: Queue, i: nat)
    requires QueueOk(q) && i < |q.items|
    ensures Orders(Without(q.items, i)) == Orders(q.items) - {q.items[i].order}
  {
    WithoutAt(q.items, i);
    var after, gone := Without(q.items, i), q.items[i].order;
    forall k | 0 <= k < |q.items| && k != i
      ensures q.items[k].order in Orders(after) && q.items[k].order != gone
    {
      var m :| 0 <= m < |after| && after[m] == q.items[k];
      assert after[m].order == q.items[k].order;
    }
    forall x | x in Orders(after)
      ensures x in Orders(q.items) && x != gone
    {
      var m :| 0 <= m < |after| && after[m].order == x;
      assert after[m] == q.items[if m == i then |q.items| - 1 else m];
    }
  }

  lemma WithoutWaiting(items: seq<Item>, i: nat, o: nat, now: int)
    requires i < |items| && items[i].order != o && Waiting(items, o, now)
    ensures Waiting(Without(items, i), o, now)
  {
    WithoutAt(items, i);
    var k :| 0 <= k < |items| && items[k].order == o && Overdue(items[k], now);
    var after := Without(items, i);
    var m :| 0 <= m < |after| && after[m] == items[k];
  }

  lemma AddedOrders(items: seq<Item>, item: Item, o: nat, now: int)
    ensures Orders(items + [item]) == Orders(items) + {item.order}
    ensures Waiting(items, o, now) ==> Waiting(items + [item], o, now)
  {
    var all := items + [item];
    assert all[|items|] == item;
    forall i | 0 <= i < |items|
      ensures all[i] == items[i]
    {
    }
    if Waiting(items, o, now) {
      var i :| 0 <= i < |items| && items[i].order == o && Overdue(items[i], now);
      assert all[i] == items[i];
    }
  }

  lemma MergedOrders(items: seq<Item>, at: nat, item: Item, o: nat, now: int)
    requires at < |items|
    ensures Orders(items[at := Merged(items[at], item)]) == Orders(items)
    ensures Waiting(items, o, now) ==> Waiting(items[at := Merged(items[at], item)], o, now)
  {
    var after := items[at := Merged(items[at], item)];
    assert forall i :: 0 <= i < |items| ==>
      after[i].order == items[i].order && after[i].enqueuedUs == items[i].enqueuedUs;
    if Waiting(items, o, now) {
      var i :| 0 <= i < |items| && items[i].order == o && Overdue(items[i], now);
      assert Overdue(after[i], now);
    }
  }

  /** Enqueuing puts nothing before o and never makes o younger; o can only go by eviction. */
  lemma EnqueueKeepsPlace(q: Queue, item: Item, o: nat, now: int)
    requires QueueOk(q) && Waiting(q.items, o, now) && o in Orders(Enqueue(q, item).items)
    ensures Waiting(Enqueue(q, item).items, o, now)
    ensures |Earlier(Enqueue(q, item).items, o)| <= |Earlier(q.items, o)|
  {
    var d, added := Decide(q.items, item), item.(order := q.next);
    WaitingIsQueued(q, o, now);
    match d {
      case Coalesce(at) => MergedOrders(q.items, at, item, o, now);
      case Append => AddedOrders(q.items, added, o, now);
      case Evict(victim) =>
        WithoutOrders(q, victim);
        AddedOrders(Without(q.items, victim), added, o, now);
        WithoutWaiting(q.items, victim, o, now);
      case Reject =>
    }
    SubsetSize(Earlier(Enqueue(q, item).items, o), Earlier(q.items, o));
  }

  lemma WaitingIsQueued(q: Queue, o: nat, now: int)
    requires QueueOk(q) && Waiting(q.items, o, now)
    ensures o in Orders(q.items) && o < q.next
  {
  }

  /** While o stays overdue and queued, every dequeue takes a packet with an earlier order. */
  lemma DequeueComesCloser(q: Queue, o: nat, since: int, now: int)
    requires QueueOk(q) && Waiting(q.items, o, since) && since <= now && q.items != []
    requires o in Orders(Dequeue(q, now).0.items)
    ensures Waiting(Dequeue(q, now).0.items, o, since)
    ensures |Earlier(Dequeue(q, now).0.items, o)| < |Earlier(q.items, o)|
  {
    var s := Select(q.items, now);
    WithoutOrders(q, s);
    OverdueTakesEarlier(q.items, o, since, now);
    WithoutWaiting(q.items, s, o, since);
    var taken := q.items[s].order;
    SubsetSize(Earlier(Without(q.items, s), o), Earlier(q.items, o) - {taken});
  }

  /** With o overdue, the packet taken has an order of at most o. */
  lemma OverdueTakesEarlier(items: seq<Item>, o: nat, since: int, now: int)
    requires Waiting(items, o, since) && since <= now && items != []
    ensures items[Select(items, now)].order <= o
  {
    SelectIsDue(items, now);
    var i :| 0 <= i < |items| && items[i].order == o && Overdue(items[i], since);
    assert Overdue(items[i], now);
  }

  // -------------------------------------------------------------------- runs

  datatype Op = Put(item: Item) | Get(now: int)

  function Apply(q: Queue, op: Op): Queue {
    match op
    case Put(item) => Enqueue(q, item)
    case Get(now) => if q.items == [] then q else Dequeue(q, now).0
  }

  lemma ApplyKeepsOk(q: Queue, op: Op)
    requires QueueOk(q)
    ensures QueueOk(Apply(q, op))
  {
    match op
    case Put(item) => EnqueueKeepsOk(q, item);
    case Get(now) =>
      if q.items != [] {
        WithoutKeepsOk(q, Select(q.items, now));
      }
  }

  /** Order o is queued after every operation of a run. */
  ghost predicate StaysQueued(q: Queue, ops: seq<Op>, o: nat)
    decreases |ops|
  {
    o in Orders(q.items) && (ops != [] ==> StaysQueued(Apply(q, ops[0]), ops[1..], o))
  }

  function Gets(ops: seq<Op>): nat {
    if ops == [] then 0 else (if ops[0].Get? then 1 else 0) + Gets(ops[1..])
  }

  /**
    A packet that is overdue at `since` survives at most as many dequeues as there are packets with an earlier
    order, whatever is enqueued, coalesced or evicted meanwhile: it leaves with the next one, unless it was evicted.
    */
  lemma {:induction false} OverduePacketLeaves(q: Queue, ops: seq<Op>, o: nat, since: int)
    requires QueueOk(q) && Waiting(q.items, o, since) && StaysQueued(q, ops, o)
    requires forall k :: 0 <= k < |ops| && ops[k].Get? ==> since <= ops[k].now
    ensures Gets(ops) <= |Earlier(q.items, o)|
    decreases |ops|
  {
    if ops != [] {
      var op, rest := ops[0], ops[1..];
      var next := Apply(q, op);
      ApplyKeepsOk(q, op);
      assert StaysQueued(next, rest, o);
      match op {
        case Put(item) =>
          EnqueueKeepsPlace(q, item, o, since);
        case Get(now) =>
          DequeueComesCloser(q, o, since, now);
      }
      OverduePacketLeaves(next, rest, o, since);
    }
  }
}
