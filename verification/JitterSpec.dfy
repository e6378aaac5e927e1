/**
  What the playout jitter buffer promises, stated over unbounded sequence numbers.

  A sequenced store is a window of packets ahead of `next`, the unwrapped number of the
  frame to play next. 16-bit numbers, the slot array and the history bitmap appear only in
  module PacketStore, which is proved to behave exactly as the functions below.
  */
module JitterSpec {
  import opened Common

  const CAPACITY := 16
  const MAX_PACKET_SIZE := 64
  const PREFILL_PACKETS := 3
  const PREFILL_MS := 60
  const FRAME_MS := 20
  const LATE_GRACE_MS := 40
  const EMPTY_MISSING_LIMIT := 5

  datatype Mode = Sequenced | ArrivalOrder | UnknownMode

  datatype Packet = Packet(data: seq<Byte>, sequence: Word, mode: Mode, active: bool, receivedUs: nat)

  datatype PushResult =
    | PushOk | InvalidArgument | InvalidLength | Duplicate | Late | ModeMismatch | Future | Full

  datatype PopResult = Played(packet: Packet) | Missing | DtxIdle | NotDue

  datatype Clock = Clock(prefillDeadline: nat, started: bool, nextDeadline: nat)

  /** A sequenced store. `floor`, `delivered` and `accepted` record the past. */
  datatype Play = Play(
    next: int,
    window: map<int, Packet>,
    emptyMissing: nat,
    uncertain: bool,
    dtxIdle: bool,
    clock: Clock,
    floor: int,
    delivered: seq<(int, Packet)>,
    accepted: map<int, Packet>)

  datatype Store =
    | Empty
    | InOrder(play: Play)
    | Arrival(queue: seq<Packet>, idle: bool, clock: Clock)

  // ------------------------------------------------------------------ push

  /** The number congruent to `s` that lies nearest to `next`, at most 0x8000 behind it. */
  function Unwrap(next: int, s: Word): (u: int)
    ensures u % 0x1_0000 == s
    ensures next - 0x8000 <= u < next + 0x8000
  {
    next + (s - next + 0x8000) % 0x1_0000 - 0x8000
  }

  ghost predicate IsDelivered(d: seq<(int, Packet)>, u: int) {
    exists i :: 0 <= i < |d| && d[i].0 == u
  }

  /** Frames played since the last time the start of the window moved back. */
  ghost predicate Remembered(floor: int, delivered: seq<(int, Packet)>, u: int) {
    floor <= u && IsDelivered(delivered, u)
  }

  /** After a silent gap `next` is only a guess, and an older packet may correct it. */
  predicate CanRewind(p: Play, u: int) {
    p.uncertain && p.window == map[] && p.next - u <= p.emptyMissing
  }

  /** Before playout an older packet may become the first frame, if the window still spans all. */
  predicate CanMoveStart(p: Play, u: int) {
    !p.clock.started && p.next - u < 0x8000 && forall v :: v in p.window ==> v - u < CAPACITY
  }

  function Accept(p: Play, u: int, k: Packet): Play {
    p.(window := p.window[u := k], accepted := p.accepted[u := k])
  }

  /** Where a packet numbered u may be filed: the store with its start moved back if it must be. */
  ghost function Landed(p: Play, u: int): (Play, PushResult) {
    if u >= p.next then (p, if u - p.next >= CAPACITY then Future else PushOk)
    else if CanRewind(p, u) then (p.(next := u, floor := u, uncertain := false), PushOk)
    else if CanMoveStart(p, u) then (p.(next := u, floor := u), PushOk)
    else (p, if p.next - u <= CAPACITY && Remembered(p.floor, p.delivered, u) then Duplicate else Late)
  }

  /** A packet at or ahead of the guessed number ends the uncertainty, and with it the idle state. */
  function Settle(p: Play): Play {
    if p.uncertain then p.(uncertain := false, dtxIdle := false) else p
  }

  ghost function PushInOrder(p: Play, k: Packet): (Play, PushResult) {
    var u := Unwrap(p.next, k.sequence);
    var (q, r) := Landed(p, u);
    if r != PushOk then (p, r)
    else if u in q.window then (p, Duplicate)
    else (Accept(if p.next <= u then Settle(q) else q, u, k), PushOk)
  }

  function FirstClock(now: nat): Clock { Clock(now + PREFILL_MS, false, 0) }

  function FirstPlay(k: Packet, now: nat): Play {
    var u := k.sequence as int;
    Play(u, map[u := k], 0, false, false, FirstClock(now), u, [], map[u := k])
  }

  ghost function Push(s: Store, k: Packet, now: nat): (Store, PushResult) {
    if k.mode.UnknownMode? then (s, InvalidArgument)
    else if |k.data| == 0 || |k.data| > MAX_PACKET_SIZE then (s, InvalidLength)
    else match s
      case Empty =>
        (if k.mode.Sequenced? then InOrder(FirstPlay(k, now)) else Arrival([k], false, FirstClock(now)), PushOk)
      case InOrder(p) =>
        if !k.mode.Sequenced? then (s, ModeMismatch)
        else
          var (p', r) := PushInOrder(p, k);
          (InOrder(p'), r)
      case Arrival(queue, idle, clock) =>
        if !k.mode.ArrivalOrder? then (s, ModeMismatch)
        else if |queue| == CAPACITY then (s, Full)
        else (Arrival(queue + [k], idle, clock), PushOk)
  }

  // ------------------------------------------------------------------- pop

  /** The prefill gate: three packets, or the deadline set by the first one. */
  function Start(c: Clock, depth: nat, now: nat): Clock {
    if c.started || (depth < PREFILL_PACKETS && now < c.prefillDeadline) then c
    else c.(started := true, nextDeadline := now)
  }

  predicate Due(c: Clock, ready: bool, now: nat) {
    c.started && (ready || now >= c.nextDeadline + LATE_GRACE_MS)
  }

  function Tick(c: Clock): Clock { c.(nextDeadline := c.nextDeadline + FRAME_MS) }

  function PopInOrder(p: Play): (Play, PopResult) {
    if p.next in p.window then
      var k := p.window[p.next];
      (p.(next := p.next + 1, window := p.window - {p.next}, dtxIdle := !k.active,
          emptyMissing := 0, uncertain := false, delivered := p.delivered + [(p.next, k)]), Played(k))
    else if p.window == map[] then
      if p.dtxIdle then (p, DtxIdle)
      else if p.emptyMissing + 1 >= EMPTY_MISSING_LIMIT then
        (p.(next := p.next + 1, emptyMissing := p.emptyMissing + 1, dtxIdle := true, uncertain := true), Missing)
      else
        (p.(next := p.next + 1, emptyMissing := p.emptyMissing + 1), Missing)
    else
      (p.(next := p.next + 1, emptyMissing := 0, uncertain := false), Missing)
  }

  function ClockOf(s: Store): Clock
    requires !s.Empty?
  {
    if s.InOrder? then s.play.clock else s.clock
  }

  function WithClock(s: Store, c: Clock): Store
    requires !s.Empty?
  {
    if s.InOrder? then InOrder(s.play.(clock := c)) else s.(clock := c)
  }

  function Depth(s: Store): nat {
    match s
    case Empty => 0
    case InOrder(p) => |p.window|
    case Arrival(queue, _, _) => |queue|
  }

  /** The frame that is due is at hand. */
  predicate Ready(s: Store) {
    match s
    case Empty => false
    case InOrder(p) => p.next in p.window
    case Arrival(queue, _, _) => queue != []
  }

  /** A pop that is past the gate and due. */
  function PopDue(s: Store): (Store, PopResult)
    requires !s.Empty?
  {
    match s
    case InOrder(p) =>
      var (p', r) := PopInOrder(p);
      (InOrder(p'), r)
    case Arrival(queue, idle, clock) =>
      if queue == [] then (s, if idle then DtxIdle else Missing)
      else (Arrival(queue[1..], !queue[0].active, clock), Played(queue[0]))
  }

  function Pop(s: Store, now: nat): (Store, PopResult) {
    if s.Empty? then (s, NotDue)
    else
      var c := Start(ClockOf(s), Depth(s), now);
      if !Due(c, Ready(s), now) then (WithClock(s, c), NotDue)
      else PopDue(WithClock(s, Tick(c)))
  }

  // ------------------------------------------------------------- invariant

  ghost predicate Ascending(d: seq<(int, Packet)>) {
    forall i, j :: 0 <= i < j < |d| ==> d[i].0 < d[j].0
  }

  ghost predicate WindowOk(p: Play) {
    forall u :: u in p.window ==> p.next <= u < p.next + CAPACITY && p.window[u].sequence == u % 0x1_0000
  }

  /** Everything accepted is waiting or was delivered, unchanged. */
  ghost predicate Conserved(p: Play) {
    && (forall u :: u in p.accepted <==> u in p.window || IsDelivered(p.delivered, u))
    && (forall u :: u in p.window ==> p.accepted[u] == p.window[u])
    && (forall i :: 0 <= i < |p.delivered| ==>
          p.delivered[i].0 in p.accepted && p.accepted[p.delivered[i].0] == p.delivered[i].1)
  }

  ghost predicate Inv(p: Play) {
    && WindowOk(p)
    && Conserved(p)
    && Ascending(p.delivered)
    && (forall i :: 0 <= i < |p.delivered| ==> p.delivered[i].0 < p.next)
    && (p.window == map[] ==> forall i :: 0 <= i < |p.delivered| ==> p.delivered[i].0 + p.emptyMissing < p.next)
    && (!p.clock.started ==> p.delivered == [] && p.emptyMissing == 0 && !p.uncertain)
    && p.emptyMissing <= EMPTY_MISSING_LIMIT
    && (p.emptyMissing == EMPTY_MISSING_LIMIT && p.window == map[] ==> p.dtxIdle)
    && (p.uncertain ==> p.emptyMissing == EMPTY_MISSING_LIMIT && p.window == map[])
    && p.floor <= p.next
  }

  ghost predicate StoreInv(s: Store) {
    match s
    case Empty => true
    case InOrder(p) => Inv(p)
    case Arrival(queue, _, _) => |queue| <= CAPACITY
  }
}
