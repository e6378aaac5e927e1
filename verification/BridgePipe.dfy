/**
  The ESP side of the SPI bridge and the duplicate filter of the nRF, as values: one function for each critical
  section, mutex hold or interrupt body.

  A frame carries the unbounded count of frames encoded before it; the wire carries only its low eight bits.
  */
module BridgePipe {
  import opened Common
  import opened Rings

  const ACK_TIMEOUT_US := 50000
  const MAX_AGE_US := 120000
  const AUDIO: Byte := 0x01
  const AUDIO_V2: Byte := 0x06

  datatype Frame = Frame(index: nat, kind: Byte, payload: seq<Byte>)

  /** The sequence byte on the wire. */
  function SeqOf(f: Frame): Byte { f.index % 256 }

  datatype Entry = Entry(frame: Frame, queuedAt: int)

  /** The audio ring with its two semaphores, the frame awaiting its ACK, the DMA buffer and the control slot. */
  datatype Pipe = Pipe(
    ring: seq<Entry>, head: nat, tail: nat, free: nat, used: nat,
    waiting: bool, valid: bool, inflight: Frame, waitStart: int,
    txIndex: nat, dma: Option<Frame>, control: Option<Frame>)

  /** xSemaphoreGive on a semaphore of fifteen: a surplus give is lost. */
  function Given(count: nat): nat { Min(ROOM, count + 1) }

  predicate Shaped(p: Pipe) { |p.ring| == SLOTS && p.head < SLOTS && p.tail < SLOTS }

  // ---------------------------------------------------------------- producer

  /** send_audio_packet under the mutex, with a free slot in hand. */
  function Publish(p: Pipe, kind: Byte, payload: seq<Byte>, now: int): Pipe
    requires Shaped(p)
  {
    p.(ring := p.ring[p.head := Entry(Frame(p.txIndex, kind, payload), now)], txIndex := p.txIndex + 1,
       head := (p.head + 1) % SLOTS, used := Given(p.used))
  }

  /** bridge_tx_queue_control. */
  function QueueControl(p: Pipe, kind: Byte, payload: seq<Byte>): Pipe {
    p.(control := Some(Frame(p.txIndex, kind, payload)), txIndex := p.txIndex + 1)
  }

  // ------------------------------------------------------ acknowledgements

  /** The frame in flight is let go; its slot is to be given back. */
  function LetGo(p: Pipe): Pipe { p.(waiting := false, valid := false) }

  /** The ACK timeout of bridge_tx_prepare_dma. */
  predicate TimedOut(p: Pipe, now: int) { p.waiting && now - p.waitStart > ACK_TIMEOUT_US }

  // ---------------------------------------------------------------- consumer

  /** Time in the queue as the code computes it, in 32 bits. */
  function WaitUs(e: Entry, now: int): int {
    if e.queuedAt > 0 && now > e.queuedAt then (now - e.queuedAt) % 0x1_0000_0000 else 0
  }

  /** The oldest entry leaves the ring. */
  function Popped(p: Pipe): Pipe
    requires Shaped(p) && p.used > 0
  {
    p.(used := p.used - 1, tail := (p.tail + 1) % SLOTS)
  }

  /** One turn of the dequeue loop of bridge_tx_prepare_dma: the oldest entry is sent, or dropped as stale. */
  function SendNext(p: Pipe, now: int, meshReady: bool): Pipe
    requires Shaped(p) && p.used > 0
  {
    var e := p.ring[p.tail];
    var rest := Popped(p);
    if WaitUs(e, now) > MAX_AGE_US || !meshReady then rest.(free := Given(rest.free))
    else rest.(dma := Some(e.frame), inflight := e.frame, waitStart := now, valid := true, waiting := true)
  }

  /** What one turn of the dequeue loop finds: the mutex, the clock and whether the mesh is ready. */
  datatype Turn = Turn(mutexFree: bool, now: int, meshReady: bool)

  /** The whole dequeue loop: entries are dropped until one is sent; an idle frame goes out when none is. */
  function Dequeued(p: Pipe, turns: seq<Turn>): Pipe
    requires Shaped(p) && |turns| >= p.used
    decreases p.used
  {
    if p.used == 0 || !turns[0].mutexFree then p.(dma := None)
    else
      var next := SendNext(p, turns[0].now, turns[0].meshReady);
      if next.waiting then next else Dequeued(next, turns[1..])
  }

  /** The frame in flight let go and its slot given back. */
  function Released(p: Pipe): Pipe { LetGo(p).(free := Given(p.free)) }

  /** bridge_tx_prepare_dma: timeout, then control if its mutex is free, then resend, then the ring. */
  function Prepared(p: Pipe, now: int, controlMutex: bool, turns: seq<Turn>): Pipe
    requires Shaped(p) && |turns| >= p.used
  {
    var q := if TimedOut(p, now) then Released(p) else p;
    if q.control.Some? && controlMutex then q.(dma := q.control, control := None)
    else if q.waiting && q.valid then q.(dma := Some(q.inflight))
    else Dequeued(q, turns)
  }

  /** The purge loop. */
  function Drained(p: Pipe): Pipe
    requires Shaped(p)
    decreases p.used
  {
    if p.used == 0 then p else Drained(Popped(p).(free := Given(p.free)))
  }

  /** drain_audio_ring_locked. */
  function Purged(p: Pipe): Pipe
    requires Shaped(p)
  {
    var d := Drained(p);
    LetGo(d).(head := d.tail, free := if p.waiting then Given(d.free) else d.free)
  }

  // ---------------------------------------------------------------- receiver

  predicate IsAudio(f: Frame) { f.kind == AUDIO || f.kind == AUDIO_V2 }

  /** parse_rx takes an audio frame for one it has already accepted. */
  predicate LooksRepeated(last: Option<Byte>, f: Frame) { last == Some(SeqOf(f)) }

  /** What parse_rx does with a decoded frame: whether it is handed on, acknowledged, and the sequence remembered. */
  function Receive(last: Option<Byte>, f: Frame, takes: bool): (Option<Byte>, bool, bool) {
    if !IsAudio(f) then (last, false, false)
    else if LooksRepeated(last, f) then (last, false, true)
    else if takes then (Some(SeqOf(f)), true, true)
    else (last, false, false)
  }
}
