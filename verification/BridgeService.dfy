/**
  What a transfer is prepared with, in times: control first, then the frame awaiting its ACK, then the oldest entry
  that is young enough; and that a frame sent this way is accepted.
  */
module BridgeService {
  import opened Common
  import opened Rings
  import opened BridgePipe
  import opened BridgeLink

  // ---------------------------------------------------------------- transfers

  /** No timeout, no control frame that can be sent, and nothing awaiting its ACK: the ring has its turn. */
  predicate RingsTurn(p: Pipe, controlMutex: bool) { !p.waiting && !(p.control.Some? && controlMutex) }

  /** The oldest entry is at most 120 ms old, or carries no time. */
  predicate Fresh(e: Entry, now: int) { e.queuedAt <= 0 || now <= e.queuedAt + 120000 }

  /** It is older than that, by less than the 2^32 us after which the code's difference wraps. */
  predicate Stale(e: Entry, now: int) { 0 < e.queuedAt && e.queuedAt + 120000 < now < e.queuedAt + 0x1_0000_0000 }

  /** A fresh oldest entry goes out when the mesh is ready: it is in the DMA buffer and awaits its ACK from then on. */
  lemma FreshFrameIsSent(p: Pipe, now: int, controlMutex: bool, turns: seq<Turn>)
    requires Shaped(p) && |turns| >= p.used > 0 && RingsTurn(p, controlMutex)
    requires turns[0].mutexFree && turns[0].meshReady && Fresh(p.ring[p.tail], turns[0].now)
    ensures var f := p.ring[p.tail].frame;
      Prepared(p, now, controlMutex, turns) ==
        p.(used := p.used - 1, tail := (p.tail + 1) % 16, dma := Some(f), inflight := f, valid := true, waiting := true,
           waitStart := turns[0].now)
  {
  }

  /** A stale one, or any while the mesh is not ready, is dropped; its slot is free again and the next has its turn. */
  lemma StaleFrameIsDropped(p: Pipe, now: int, controlMutex: bool, turns: seq<Turn>)
    requires Shaped(p) && |turns| >= p.used > 0 && RingsTurn(p, controlMutex) && p.free < 15
    requires turns[0].mutexFree && (!turns[0].meshReady || Stale(p.ring[p.tail], turns[0].now))
    ensures var rest := p.(used := p.used - 1, tail := (p.tail + 1) % 16, free := p.free + 1);
      Prepared(p, now, controlMutex, turns) == Prepared(rest, now, controlMutex, turns[1..])
  {
  }

  /** With the ring empty or its mutex taken an idle frame goes out. */
  lemma NothingToSend(p: Pipe, now: int, controlMutex: bool, turns: seq<Turn>)
    requires Shaped(p) && |turns| >= p.used && RingsTurn(p, controlMutex)
    requires p.used == 0 || !turns[0].mutexFree
    ensures Prepared(p, now, controlMutex, turns) == p.(dma := None)
  {
  }

  /** The entries before it have grown stale, each in its turn; the first fresh one is the frame that goes out. */
  lemma {:induction false} FirstFreshIsSent(p: Pipe, now: int, controlMutex: bool, turns: seq<Turn>, k: nat)
    requires Shaped(p) && |turns| >= p.used > k && RingsTurn(p, controlMutex) && p.free + p.used <= 15
    requires forall j :: 0 <= j <= k ==> turns[j].mutexFree && turns[j].meshReady
    requires forall j :: 0 <= j < k ==> Stale(p.ring[Ring16(p.tail, j)], turns[j].now)
    requires Fresh(p.ring[Ring16(p.tail, k)], turns[k].now)
    ensures var q := Prepared(p, now, controlMutex, turns);
      && q.dma == Some(p.ring[Ring16(p.tail, k)].frame) && q.inflight == p.ring[Ring16(p.tail, k)].frame
      && q.waiting && q.valid && q.waitStart == turns[k].now && q.used == p.used - k - 1 && q.free == p.free + k
    decreases k
  {
    Ring16Step(p.tail, 0);
    if k == 0 {
      FreshFrameIsSent(p, now, controlMutex, turns);
    } else {
      StaleFrameIsDropped(p, now, controlMutex, turns);
      var rest := p.(used := p.used - 1, tail := (p.tail + 1) % 16, free := p.free + 1);
      forall j | 0 <= j < k
        ensures rest.ring[Ring16(rest.tail, j)] == p.ring[Ring16(p.tail, j + 1)]
      {
        Ring16Step(p.tail, j);
      }
      FirstFreshIsSent(rest, now, controlMutex, turns[1..], k - 1);
    }
  }

  /** A control frame goes before everything else and leaves the frame awaiting its ACK alone. */
  lemma ControlGoesFirst(p: Pipe, now: int, turns: seq<Turn>)
    requires Shaped(p) && |turns| >= p.used && p.control.Some? && (p.waiting ==> now <= p.waitStart + 50000)
    ensures Prepared(p, now, true, turns) == p.(dma := p.control, control := None)
  {
  }

  /** A frame awaiting its ACK is sent again, and nothing else changes, until 50 ms have passed. */
  lemma UnackedIsResent(p: Pipe, now: int, controlMutex: bool, turns: seq<Turn>)
    requires Shaped(p) && |turns| >= p.used && p.waiting && p.valid && now <= p.waitStart + 50000
    requires !(p.control.Some? && controlMutex)
    ensures Prepared(p, now, controlMutex, turns) == p.(dma := Some(p.inflight))
  {
  }

  /** After that it is let go, its slot is free again, and the transfer is prepared as if it had been acknowledged. */
  lemma UnackedIsGivenUp(p: Pipe, now: int, controlMutex: bool, turns: seq<Turn>)
    requires Shaped(p) && |turns| >= p.used && p.waiting && now > p.waitStart + 50000 && p.free < 15
    ensures Prepared(p, now, controlMutex, turns)
              == Prepared(p.(waiting := false, valid := false, free := p.free + 1), now, controlMutex, turns)
  {
  }

  // ---------------------------------------------------------------- receiver

  /** A new audio frame that the mesh takes is handed on, acknowledged and remembered; one it refuses is not. */
  lemma NewFrameAccepted(last: Option<Byte>, f: Frame, takes: bool)
    requires f.kind == 0x01 || f.kind == 0x06
    requires last != Some(f.index % 256)
    ensures Receive(last, f, takes) == if takes then (Some(f.index % 256), true, true) else (last, false, false)
  {
  }

  /** A repeated one is acknowledged again and not handed on; other frames concern neither. */
  lemma OtherFramesKept(last: Option<Byte>, f: Frame, takes: bool)
    requires last == Some(f.index % 256) || (f.kind != 0x01 && f.kind != 0x06)
    ensures Receive(last, f, takes) == (last, false, f.kind == 0x01 || f.kind == 0x06)
  {
  }

  // ------------------------------------------------------------------- runs

  /**
    From any state whose ring is empty and idle: a frame is enqueued, sent at most 120 ms later, transferred, accepted
    and acknowledged, and the bridge is idle again.
    */
  lemma FrameGoesThrough(s: System, kind: Byte, payload: seq<Byte>, queuedAt: nat, now: int)
    returns (steps: seq<Step>, t: System)
    requires Inv(s) && Quiet(s) && (kind == 0x01 || kind == 0x06)
    requires queuedAt <= now <= queuedAt + 120000 && s.last != Some(s.pipe.txIndex % 256)
    ensures Goes(s, steps, t) && Quiet(t)
    ensures t.accepted == s.accepted + [Frame(s.pipe.txIndex, kind, payload)]
  {
    var send, s1 := SendAudioRun(s, kind, payload, queuedAt, now);
    var accept;
    accept, t := AcceptRun(s1);
    GoesThen(s, send, s1, accept, t);
    steps := send + accept;
  }
}
