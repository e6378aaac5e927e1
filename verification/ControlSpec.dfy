/**
  The control queue as values: where a packet is put, which one is given up, which one is sent next.
  */
module ControlSpec {
  import opened Common

  const CAPACITY := 12
  const HEADER_LEN := 8
  const STATUS_LEN := HEADER_LEN + 8
  const MAX_PAYLOAD := 14
  const MAX_WAIT_US := 500 * 1000

  const JOIN_ACK: Byte := 0x03
  const LEAVE: Byte := 0x04
  const SYNC: Byte := 0x05
  const SLOT_MAP: Byte := 0x06
  const STATUS: Byte := 0x07
  const KEEPALIVE: Byte := 0x08
  const SPEAKER_GRANT: Byte := 0x09
  const SPEAKER_RELEASE: Byte := 0x0A

  const PERIODIC := 1
  const TOPOLOGY := 2
  const LIFECYCLE := 3
  const SYNCHRONIZING := 4

  /** A heard and a relayed bitmap, each as the set of node ids whose bit it has. */
  datatype Marks = Marks(heard: set<Byte>, relayed: set<Byte>)

  const NO_MARKS := Marks({}, {})

  /** The two bitmaps or-ed together. */
  function Join(a: Marks, b: Marks): Marks { Marks(a.heard + b.heard, a.relayed + b.relayed) }

  /** control_tx_item_t; `marks` are the bitmap bytes of a STATUS, `body` the other payload bytes. */
  datatype Item = Item(
    kind: Byte, priority: nat, order: nat, enqueuedUs: int, dest: seq<Byte>, len: nat, marks: Marks, body: seq<Byte>)

  function Priority(kind: Byte): nat {
    if kind == SYNC then SYNCHRONIZING
    else if kind == JOIN_ACK || kind == LEAVE then LIFECYCLE
    else if kind == SLOT_MAP || kind == SPEAKER_GRANT || kind == SPEAKER_RELEASE then TOPOLOGY
    else PERIODIC
  }

  /** A newer packet of such a kind takes the place of a queued one. */
  predicate Supersedes(kind: Byte) {
    kind == STATUS || kind == KEEPALIVE || kind == SLOT_MAP || kind == SPEAKER_GRANT || kind == JOIN_ACK
  }

  // --------------------------------------------------------------- enqueuing

  predicate Matches(queued: Item, item: Item) { queued.kind == item.kind && queued.dest == item.dest }

  /** First queued packet of the same kind and destination, or the queue size. */
  function FindMatch(q: seq<Item>, item: Item): (i: nat)
    ensures i <= |q| && (i < |q| ==> Matches(q[i], item))
    ensures forall j :: 0 <= j < i ==> !Matches(q[j], item)
  {
    if q == [] then 0 else if Matches(q[0], item) then 0 else 1 + FindMatch(q[1..], item)
  }

  predicate Lesser(a: Item, b: Item) { a.priority < b.priority || (a.priority == b.priority && a.order < b.order) }

  /** The victim scan from packet i on. */
  function VictimFrom(q: seq<Item>, victim: nat, i: nat): (v: nat)
    requires victim < i <= |q|
    ensures v < |q|
    decreases |q| - i
  {
    if i == |q| then victim else VictimFrom(q, if Lesser(q[i], q[victim]) then i else victim, i + 1)
  }

  /** The victim has the lowest priority, and among those the oldest order. */
  lemma {:induction false} VictimIsLeast(q: seq<Item>, victim: nat, i: nat)
    requires victim < i <= |q| && forall j :: 0 <= j < i ==> !Lesser(q[j], q[victim])
    ensures forall j :: 0 <= j < |q| ==> !Lesser(q[j], q[VictimFrom(q, victim, i)])
    decreases |q| - i
  {
    if i < |q| {
      VictimIsLeast(q, if Lesser(q[i], q[victim]) then i else victim, i + 1);
    }
  }

  datatype Decision = Coalesce(at: nat) | Append | Evict(victim: nat) | Reject

  function Decide(q: seq<Item>, item: Item): (d: Decision)
    ensures d.Coalesce? ==> d.at < |q|
    ensures d.Evict? ==> d.victim < |q|
    ensures d.Append? ==> |q| != CAPACITY
  {
    var i := FindMatch(q, item);
    if Supersedes(item.kind) && i < |q| then Coalesce(i)
    else if |q| != CAPACITY then Append
    else
      var v := VictimFrom(q, 0, 1);
      if q[v].priority > item.priority || (q[v].priority == item.priority && item.priority == PERIODIC) then Reject
      else Evict(v)
  }

  /** The superseding packet keeps the place and the age, and a STATUS the bits, of the one it replaces. */
  function Merged(queued: Item, item: Item): Item {
    item.(order := queued.order, enqueuedUs := queued.enqueuedUs,
          marks := if item.kind == STATUS then Join(item.marks, queued.marks) else item.marks)
  }

  /** Element i removed by moving the last one into its place. */
  function Without<T>(q: seq<T>, i: nat): (r: seq<T>)
    requires i < |q|
    ensures |r| == |q| - 1
  {
    q[i := q[|q| - 1]][..|q| - 1]
  }

  lemma WithoutAt<T>(q: seq<T>, i: nat)
    requires i < |q|
    ensures forall j :: 0 <= j < |q| - 1 ==> Without(q, i)[j] == (if j == i then q[|q| - 1] else q[j])
    ensures forall j :: 0 <= j < |q| && j != i ==> q[j] in Without(q, i)
  {
    var r := Without(q, i);
    forall j | 0 <= j < |q| && j != i
      ensures q[j] in r
    {
      assert q[j] == r[if j == |q| - 1 then i else j];
    }
  }

  /** The queue after a decision, for an added and a merged element. */
  function Placed<T>(q: seq<T>, d: Decision, added: T, merged: T): seq<T>
    requires d.Coalesce? ==> d.at < |q|
    requires d.Evict? ==> d.victim < |q|
  {
    match d
    case Coalesce(at) => q[at := merged]
    case Append => q + [added]
    case Evict(victim) => Without(q, victim) + [added]
    case Reject => q
  }

  datatype Queue = Queue(items: seq<Item>, next: nat)

  /** The critical section of enqueue_control_packet. */
  function Enqueue(q: Queue, item: Item): Queue {
    var d := Decide(q.items, item);
    Queue(
      Placed(q.items, d, item.(order := q.next), if d.Coalesce? then Merged(q.items[d.at], item) else item),
      if d.Append? || d.Evict? then q.next + 1 else q.next)
  }

  // --------------------------------------------------------------- dequeuing

  predicate Overdue(item: Item, now: int) { now - item.enqueuedUs >= MAX_WAIT_US }

  /** The scan prefers a to the packet b selected so far. */
  predicate Preferred(a: Item, b: Item, now: int) {
    || (Overdue(a, now) && !Overdue(b, now))
    || (Overdue(a, now) && Overdue(b, now) && a.order < b.order)
    || (!Overdue(a, now) && !Overdue(b, now)
        && (a.priority > b.priority || (a.priority == b.priority && a.order < b.order)))
  }

  function SelectFrom(q: seq<Item>, now: int, selected: nat, i: nat): (s: nat)
    requires selected < i <= |q|
    ensures s < |q|
    decreases |q| - i
  {
    if i == |q| then selected else SelectFrom(q, now, if Preferred(q[i], q[selected], now) then i else selected, i + 1)
  }

  function Select(q: seq<Item>, now: int): (s: nat)
    requires q != []
    ensures s < |q|
  {
    SelectFrom(q, now, 0, 1)
  }

  /** The oldest overdue packet if there is one, otherwise the oldest of the highest priority. */
  ghost predicate IsDue(q: seq<Item>, now: int, s: nat) {
    && s < |q|
    && if exists j :: 0 <= j < |q| && Overdue(q[j], now) then
         Overdue(q[s], now) && forall j :: 0 <= j < |q| && Overdue(q[j], now) ==> q[s].order <= q[j].order
       else
         forall j :: 0 <= j < |q| ==>
           q[j].priority < q[s].priority || (q[j].priority == q[s].priority && q[s].order <= q[j].order)
  }

  lemma {:induction false} SelectFromBest(q: seq<Item>, now: int, selected: nat, i: nat)
    requires selected < i <= |q| && forall j :: 0 <= j < i ==> !Preferred(q[j], q[selected], now)
    ensures forall j :: 0 <= j < |q| ==> !Preferred(q[j], q[SelectFrom(q, now, selected, i)], now)
    decreases |q| - i
  {
    if i < |q| {
      SelectFromBest(q, now, if Preferred(q[i], q[selected], now) then i else selected, i + 1);
    }
  }

  lemma SelectIsDue(q: seq<Item>, now: int)
    requires q != []
    ensures IsDue(q, now, Select(q, now))
  {
    SelectFromBest(q, now, 0, 1);
    var s := Select(q, now);
    assert forall j :: 0 <= j < |q| ==> !Preferred(q[j], q[s], now);
  }

  /** The critical section of dequeue_control_packet on a queue that is not empty. */
  function Dequeue(q: Queue, now: int): (Queue, Item)
    requires q.items != []
  {
    var s := Select(q.items, now);
    (Queue(Without(q.items, s), q.next), q.items[s])
  }
}
