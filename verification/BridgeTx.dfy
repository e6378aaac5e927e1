/**
  The SPI transmit path of the ESP and the receive path of the nRF, updated in place.
  */
module BridgeTx {
  import opened Common
  import opened Rings
  import opened BridgePipe
  import opened BridgeLink

  const MAX_PAYLOAD := 251

  datatype Err = Ok | InvalidState | InvalidSize | Timeout

  class Bridge {
    const ring: array<Entry>
    var head: nat
    var tail: nat
    var free: nat
    var used: nat
    var waiting: bool
    var valid: bool
    var inflight: Frame
    var waitStart: int
    var txIndex: nat
    var dma: Option<Frame>
    var control: Option<Frame>

    ghost predicate Valid()
      reads this`head, this`tail
    {
      ring.Length == SLOTS && head < SLOTS && tail < SLOTS
    }

    ghost function View(): Pipe
      reads this, ring
    {
      Pipe(ring[..], head, tail, free, used, waiting, valid, inflight, waitStart, txIndex, dma, control)
    }

    /** The state set up by uart_bridge_init. */
    constructor (blank: Frame)
      ensures Valid() && View() == Initial(blank).pipe && fresh(ring)
    {
      ring := new Entry[SLOTS](_ => Entry(blank, 0));
      head, tail, free, used, waiting, valid := 0, 0, ROOM, 0, false, false;
      inflight, waitStart, txIndex, dma, control := blank, 0, 0, None, None;
    }

    /** xSemaphoreGive(audio_slots_free). */
    method GiveFree()
      modifies this`free
      ensures free == Given(old(free))
    {
      if free < ROOM {
        free := free + 1;
      } else {
        free := ROOM;
      }
    }

    /** The mutex hold of send_audio_packet. */
    method WriteEntry(kind: Byte, payload: seq<Byte>, now: int)
      requires Valid()
      modifies this`head, this`used, this`txIndex, ring
      ensures Valid() && View() == Publish(old(View()), kind, payload, now)
    {
      ring[head] := Entry(Frame(txIndex, kind, payload), now);
      txIndex := txIndex + 1;
      head := (head + 1) % SLOTS;
      used := if used < ROOM then used + 1 else ROOM;
    }

    /** send_audio_packet: every refusal leaves the pipe as it was. */
    method SendAudioPacket(kind: Byte, payload: seq<Byte>, meshReady: bool, mutexFree: bool, now: int)
      returns (result: Err)
      requires Valid() && free <= ROOM
      modifies this`head, this`used, this`txIndex, this`free, ring
      ensures Valid()
      ensures result == (if !meshReady then InvalidState else if |payload| > MAX_PAYLOAD then InvalidSize
                         else if old(free) == 0 || !mutexFree then Timeout else Ok)
      ensures result != Ok ==> View() == old(View())
      ensures result == Ok ==> View() == Publish(old(View()).(free := old(free) - 1), kind, payload, now)
    {
      if !meshReady {
        return InvalidState;
      }
      if |payload| > MAX_PAYLOAD {
        return InvalidSize;
      }
      if free == 0 {
        return Timeout;
      }
      free := free - 1;
      if !mutexFree {
        GiveFree();
        return Timeout;
      }
      WriteEntry(kind, payload, now);
      result := Ok;
    }

    /** bridge_tx_queue_control: a newer control frame replaces an unsent one. */
    method QueueControlFrame(kind: Byte, payload: seq<Byte>, mutexFree: bool) returns (result: Err)
      modifies this`txIndex, this`control
      ensures result == (if |payload| > MAX_PAYLOAD then InvalidSize else if !mutexFree then Timeout else Ok)
      ensures View() == if result == Ok then QueueControl(old(View()), kind, payload) else old(View())
    {
      if |payload| > MAX_PAYLOAD {
        return InvalidSize;
      }
      if !mutexFree {
        return Timeout;
      }
      control := Some(Frame(txIndex, kind, payload));
      txIndex := txIndex + 1;
      result := Ok;
    }

    /** bridge_tx_ack_isr: a pulse nobody waits for changes nothing. */
    method AckIsr()
      modifies this`waiting, this`valid, this`free
      ensures View() == if old(waiting) then Released(old(View())) else old(View())
    {
      if waiting {
        waiting, valid := false, false;
        GiveFree();
      }
    }

    /** drain_audio_ring_locked. */
    method DrainAudioRing()
      requires Valid()
      modifies this`head, this`tail, this`free, this`used, this`waiting, this`valid
      ensures Valid() && View() == Purged(old(View()))
    {
      DrainQueue();
      head := tail;
      var release := waiting;
      waiting, valid := false, false;
      if release {
        GiveFree();
      }
    }

    method DrainQueue()
      requires Valid()
      modifies this`tail, this`free, this`used
      ensures Valid() && View() == Drained(old(View()))
    {
      while used > 0
        invariant Valid() && Drained(View()) == Drained(old(View()))
      {
        used := used - 1;
        tail := (tail + 1) % SLOTS;
        GiveFree();
      }
    }

    /** One turn of the dequeue loop. */
    method DequeueOne(now: int, meshReady: bool)
      requires Valid() && used > 0
      modifies this`tail, this`free, this`used, this`waiting, this`valid, this`inflight, this`waitStart, this`dma
      ensures Valid() && View() == SendNext(old(View()), now, meshReady) && used == old(used) - 1
    {
      used := used - 1;
      var entry := ring[tail];
      tail := (tail + 1) % SLOTS;
      var waitUs := if entry.queuedAt > 0 && now > entry.queuedAt then (now - entry.queuedAt) % 0x1_0000_0000 else 0;
      if waitUs > MAX_AGE_US {
        GiveFree();
        return;
      }
      if !meshReady {
        GiveFree();
        return;
      }
      dma := Some(entry.frame);
      inflight := entry.frame;
      waitStart := now;
      valid, waiting := true, true;
    }

    /** The dequeue loop: one turn for each entry at most. */
    method DequeueLoop(turns: seq<Turn>)
      requires Valid() && !waiting && |turns| >= used
      modifies this`tail, this`free, this`used, this`waiting, this`valid, this`inflight, this`waitStart, this`dma
      ensures Valid() && View() == Dequeued(old(View()), turns)
    {
      var i: nat := 0;
      while used > 0 && turns[i].mutexFree
        invariant Valid() && !waiting && i <= |turns| && |turns| - i >= used
        invariant Dequeued(View(), turns[i..]) == Dequeued(old(View()), turns)
        decreases used
      {
        assert turns[i..][1..] == turns[i + 1..];
        DequeueOne(turns[i].now, turns[i].meshReady);
        if waiting {
          return;
        }
        i := i + 1;
      }
      dma := None;
    }

    /** bridge_tx_prepare_dma. */
    method PrepareDma(now: int, controlMutex: bool, turns: seq<Turn>)
      requires Valid() && (waiting ==> valid) && |turns| >= used
      modifies this`tail, this`free, this`used, this`waiting, this`valid, this`inflight, this`waitStart, this`dma
      modifies this`control
      ensures Valid() && View() == Prepared(old(View()), now, controlMutex, turns)
    {
      if waiting && now - waitStart > ACK_TIMEOUT_US {
        waiting, valid := false, false;
        GiveFree();
      }
      if control.Some? && controlMutex {
        dma := control;
        control := None;
        return;
      }
      if waiting && valid {
        dma := Some(inflight);
        return;
      }
      DequeueLoop(turns);
    }
  }

  /** The receive side of the nRF: parse_rx for a buffer that decoded to a frame. */
  class Receiver {
    var lastSeq: Byte
    var lastValid: bool
    var accepted: nat
    var rejected: nat
    var repeated: nat

    ghost function Last(): Option<Byte>
      reads this`lastSeq, this`lastValid
    {
      if lastValid then Some(lastSeq) else None
    }

    constructor ()
      ensures Last() == None && accepted == rejected == repeated == 0
    {
      lastSeq, lastValid, accepted, rejected, repeated := 0, false, 0, 0, 0;
    }

    method ParseRx(f: Frame, takes: bool) returns (handed: bool, acked: bool)
      modifies this
      ensures (Last(), handed, acked) == Receive(old(Last()), f, takes)
      ensures accepted == old(accepted) + (if handed then 1 else 0)
      ensures repeated == old(repeated) + (if acked && !handed then 1 else 0)
      ensures rejected == old(rejected) + (if IsAudio(f) && !acked then 1 else 0)
    {
      handed, acked := false, false;
      if IsAudio(f) {
        if lastValid && SeqOf(f) == lastSeq {
          repeated := repeated + 1;
          acked := true;
        } else if takes {
          accepted := accepted + 1;
          lastSeq, lastValid := SeqOf(f), true;
          handed, acked := true, true;
        } else {
          rejected := rejected + 1;
        }
      }
    }
  }

  // -------------------------------------------- the operations as protocol runs

  /** A successful send is a run of the protocol: take a slot, then enqueue. */
  lemma SendIsARun(s: System, kind: Byte, payload: seq<Byte>, now: int) returns (steps: seq<Step>, t: System)
    requires Inv(s) && s.pipe.free > 0 && (kind == AUDIO || kind == AUDIO_V2)
    ensures Goes(s, steps, t) && t.pipe == Publish(s.pipe.(free := s.pipe.free - 1), kind, payload, now)
  {
    GoesStep(s, TakeSlot);
    var taken, put := Next(s, TakeSlot), Enqueue(kind, payload, now);
    GoesStep(taken, put);
    t := Next(taken, put);
    GoesFirst(s, TakeSlot, [put], t);
    steps := [TakeSlot] + [put];
  }

  /** The ACK interrupt, and likewise the timeout, lets the frame go and gives its slot back. */
  lemma ReleaseIsARun(s: System, first: Step) returns (steps: seq<Step>)
    requires Inv(s) && s.pipe.waiting && Enabled(s, first) && (first.AckInterrupt? || first.AckTimeout?)
    ensures Goes(s, steps, s.(pipe := Released(s.pipe)))
  {
    GoesStep(s, first);
    var gone := Next(s, first);
    GoesStep(gone, ReturnSlot);
    GoesFirst(s, first, [ReturnSlot], Next(gone, ReturnSlot));
    steps := [first] + [ReturnSlot];
  }

  /** The dequeue loop is a run. */
  lemma {:induction false} DequeueIsARun(s: System, turns: seq<Turn>) returns (steps: seq<Step>, t: System)
    requires Inv(s) && !s.pipe.waiting && |turns| >= s.pipe.used
    ensures Goes(s, steps, t) && t.pipe == Dequeued(s.pipe, turns)
    decreases s.pipe.used
  {
    if s.pipe.used == 0 || !turns[0].mutexFree {
      steps, t := [PrepareIdle], Next(s, PrepareIdle);
      GoesStep(s, PrepareIdle);
    } else {
      var step := PrepareNext(turns[0].now, turns[0].meshReady);
      GoesStep(s, step);
      var next := Next(s, step);
      if next.pipe.waiting {
        steps, t := [step], next;
      } else {
        var rest;
        rest, t := DequeueIsARun(next, turns[1..]);
        steps := [step] + rest;
        GoesFirst(s, step, rest, t);
      }
    }
  }

  /** So is the preparation of a transfer once no timeout is pending. */
  lemma ChooseIsARun(s: System, now: int, controlMutex: bool, turns: seq<Turn>)
    returns (steps: seq<Step>, t: System)
    requires Inv(s) && !TimedOut(s.pipe, now) && |turns| >= s.pipe.used
    ensures Goes(s, steps, t) && t.pipe == Prepared(s.pipe, now, controlMutex, turns)
  {
    if s.pipe.control.Some? && controlMutex {
      steps, t := [PrepareControl], Next(s, PrepareControl);
      GoesStep(s, PrepareControl);
    } else if s.pipe.waiting && s.pipe.valid {
      steps, t := [PrepareResend], Next(s, PrepareResend);
      GoesStep(s, PrepareResend);
    } else {
      steps, t := DequeueIsARun(s, turns);
    }
  }

  /** Every preparation of a transfer is a run of the protocol, so what is proved of runs holds of it. */
  lemma PrepareIsARun(s: System, now: int, controlMutex: bool, turns: seq<Turn>)
    returns (steps: seq<Step>, t: System)
    requires Inv(s) && |turns| >= s.pipe.used
    ensures Goes(s, steps, t) && t.pipe == Prepared(s.pipe, now, controlMutex, turns)
  {
    if TimedOut(s.pipe, now) {
      var release := ReleaseIsARun(s, AckTimeout(now));
      var back := s.(pipe := Released(s.pipe));
      var rest;
      rest, t := ChooseIsARun(back, now, controlMutex, turns);
      GoesThen(s, release, back, rest, t);
      steps := release + rest;
    } else {
      steps, t := ChooseIsARun(s, now, controlMutex, turns);
    }
  }
}
