/**
  The bridge as a whole: any number of producers, the SPI task, the ACK interrupt, the timeout and the purge in any
  interleaving, over a channel that loses transfers and ACK pulses, to the duplicate filter on the other side.
  */
module BridgeLink {
  import opened Common
  import opened Rings
  import opened BridgePipe

  /**
    `holding` producers have taken a free slot and not yet used it; `returning` slots have been let go and not yet
    been given back. The queue, the enqueued and accepted frames and `high` are history.
    */
  datatype System = System(
    pipe: Pipe, holding: nat, returning: nat, last: Option<Byte>,
    queue: seq<Entry>, enqueued: seq<Frame>, accepted: seq<Frame>, high: int)

  datatype Step =
    | TakeSlot
    | Enqueue(kind: Byte, payload: seq<Byte>, now: int)
    | GiveUp
    | ReturnSlot
    | PostControl(kind: Byte, payload: seq<Byte>)
    | AckInterrupt
    | AckTimeout(now: int)
    | PrepareControl
    | PrepareResend
    | PrepareNext(now: int, meshReady: bool)
    | PrepareIdle
    | Purge
    | Transfer(takes: bool)

  predicate Enabled(s: System, step: Step) {
    match step
    case TakeSlot => s.pipe.free > 0
    case Enqueue(kind, payload, now) => s.holding > 0 && (kind == AUDIO || kind == AUDIO_V2)
    case GiveUp => s.holding > 0
    case ReturnSlot => s.returning > 0
    case PostControl(kind, payload) => kind != AUDIO && kind != AUDIO_V2
    case AckTimeout(now) => TimedOut(s.pipe, now)
    case PrepareControl => s.pipe.control.Some?
    case PrepareResend => s.pipe.waiting && s.pipe.valid
    case PrepareNext(now, meshReady) => !(s.pipe.waiting && s.pipe.valid) && s.pipe.used > 0
    case _ => true
  }

  function Next(s: System, step: Step): System
    requires Shaped(s.pipe) && Enabled(s, step)
  {
    var p := s.pipe;
    match step
    case TakeSlot => s.(pipe := p.(free := p.free - 1), holding := s.holding + 1)
    case Enqueue(kind, payload, now) =>
      var e := Entry(Frame(p.txIndex, kind, payload), now);
      s.(pipe := Publish(p, kind, payload, now), holding := s.holding - 1,
         queue := s.queue + [e], enqueued := s.enqueued + [e.frame])
    case GiveUp => s.(holding := s.holding - 1, returning := s.returning + 1)
    case ReturnSlot => s.(pipe := p.(free := Given(p.free)), returning := s.returning - 1)
    case PostControl(kind, payload) => s.(pipe := QueueControl(p, kind, payload))
    case AckInterrupt => if p.waiting then s.(pipe := LetGo(p), returning := s.returning + 1) else s
    case AckTimeout(now) => s.(pipe := LetGo(p), returning := s.returning + 1)
    case PrepareControl => s.(pipe := p.(dma := p.control, control := None))
    case PrepareResend => s.(pipe := p.(dma := Some(p.inflight)))
    case PrepareNext(now, meshReady) =>
      var after := SendNext(p, now, meshReady);
      s.(pipe := after, queue := if s.queue == [] then [] else s.queue[1..],
         high := if after.waiting then after.inflight.index else s.high)
    case PrepareIdle => s.(pipe := p.(dma := None))
    case Purge => s.(pipe := Purged(p), queue := [])
    case Transfer(takes) =>
      if p.dma.None? then s
      else
        var (last, handed, acked) := Receive(s.last, p.dma.value, takes);
        s.(last := last, accepted := if handed then s.accepted + [p.dma.value] else s.accepted)
  }

  // --------------------------------------------------------------- invariant

  predicate Increasing(frames: seq<Frame>) {
    forall i, j :: 0 <= i < j < |frames| ==> frames[i].index < frames[j].index
  }

  /** The last frame's index, or -1. */
  function LastIndex(frames: seq<Frame>): int { if frames == [] then -1 else frames[|frames| - 1].index }

  /** Fifteen slots in all; the ring holds what the used semaphore counts. */
  ghost predicate Conserved(s: System) {
    && RingIs(s.pipe.ring, s.pipe.head, s.pipe.tail, s.queue)
    && s.pipe.used == |s.queue|
    && s.pipe.free + s.pipe.used + (if s.pipe.waiting then 1 else 0) + s.holding + s.returning == ROOM
  }

  ghost predicate EnqueuedOk(s: System) {
    Increasing(s.enqueued) && forall f :: f in s.enqueued ==> f.index < s.pipe.txIndex && IsAudio(f)
  }

  /** What the ring still holds comes after everything that has been handed to the SPI task. */
  ghost predicate QueueOrdered(s: System) {
    && (forall k :: 0 <= k < |s.queue| ==> s.high < s.queue[k].frame.index && s.queue[k].frame in s.enqueued)
    && (forall j, k :: 0 <= j < k < |s.queue| ==> s.queue[j].frame.index < s.queue[k].frame.index)
  }

  /** An audio frame in the DMA buffer or in flight is the last one handed over. */
  ghost predicate Newest(s: System, f: Frame) { IsAudio(f) && f.index == s.high && f in s.enqueued }

  ghost predicate HandedOver(s: System) {
    && (s.pipe.waiting ==> s.pipe.valid)
    && (s.pipe.valid ==> Newest(s, s.pipe.inflight))
    && (s.pipe.dma.Some? && IsAudio(s.pipe.dma.value) ==> Newest(s, s.pipe.dma.value))
    && (s.pipe.control.Some? ==> !IsAudio(s.pipe.control.value))
  }

  ghost predicate AcceptedOk(s: System) {
    && Increasing(s.accepted) && LastIndex(s.accepted) <= s.high
    && (forall i :: 0 <= i < |s.accepted| ==> s.accepted[i] in s.enqueued)
    && s.last == (if s.accepted == [] then None else Some(SeqOf(s.accepted[|s.accepted| - 1])))
  }

  ghost predicate Inv(s: System) {
    && Shaped(s.pipe) && Conserved(s) && s.high < s.pipe.txIndex
    && EnqueuedOk(s) && QueueOrdered(s) && HandedOver(s) && AcceptedOk(s)
  }

  // ------------------------------------------------------------ conservation

  lemma EnqueueConserves(s: System, step: Step)
    requires Shaped(s.pipe) && Conserved(s) && step.Enqueue? && Enabled(s, step)
    ensures Conserved(Next(s, step))
  {
    RingPush(s.pipe.ring, s.pipe.head, s.pipe.tail, s.queue,
             Entry(Frame(s.pipe.txIndex, step.kind, step.payload), step.now));
  }

  lemma PrepareNextConserves(s: System, step: Step)
    requires Shaped(s.pipe) && Conserved(s) && step.PrepareNext? && Enabled(s, step)
    requires s.pipe.waiting ==> s.pipe.valid
    ensures Conserved(Next(s, step)) && s.pipe.ring[s.pipe.tail] == s.queue[0]
  {
    RingPop(s.pipe.ring, s.pipe.head, s.pipe.tail, s.queue);
  }

  /** The purge loop gives back every queued slot and catches up with the head. */
  lemma {:induction false} DrainedEmpties(p: Pipe, queue: seq<Entry>)
    requires Shaped(p) && RingIs(p.ring, p.head, p.tail, queue) && p.used == |queue| && p.free + p.used <= ROOM
    ensures var d := Drained(p);
      d == p.(used := 0, free := p.free + p.used, tail := p.head)
    decreases p.used
  {
    if p.used == 0 {
      Ring16Step(p.tail, 0);
    } else {
      RingPop(p.ring, p.head, p.tail, queue);
      DrainedEmpties(Popped(p).(free := Given(p.free)), queue[1..]);
    }
  }

  lemma PurgeConserves(s: System)
    requires Shaped(s.pipe) && Conserved(s)
    ensures Conserved(Next(s, Purge))
    ensures var after := Next(s, Purge).pipe;
      after == LetGo(s.pipe).(used := 0, tail := s.pipe.head,
                              free := s.pipe.free + s.pipe.used + if s.pipe.waiting then 1 else 0)
  {
    DrainedEmpties(s.pipe, s.queue);
    Ring16Step(s.pipe.head, 0);
  }

  lemma NextConserves(s: System, step: Step)
    requires Shaped(s.pipe) && Conserved(s) && Enabled(s, step) && (s.pipe.waiting ==> s.pipe.valid)
    ensures Conserved(Next(s, step))
  {
    match step {
      case Enqueue(_, _, _) => EnqueueConserves(s, step);
      case PrepareNext(_, _) => PrepareNextConserves(s, step);
      case Purge => PurgeConserves(s);
      case _ =>
    }
  }

  // ------------------------------------------------------------------- order

  lemma EnqueueExtends(s: System, step: Step)
    requires Inv(s) && step.Enqueue? && Enabled(s, step)
    ensures EnqueuedOk(Next(s, step)) && forall f :: f in s.enqueued ==> f in Next(s, step).enqueued
  {
  }

  lemma EnqueueQueues(s: System, step: Step)
    requires Inv(s) && step.Enqueue? && Enabled(s, step)
    ensures QueueOrdered(Next(s, step))
  {
    EnqueueExtends(s, step);
    var after := Next(s, step);
    assert after.queue[|s.queue|].frame == after.enqueued[|s.enqueued|];
    assert forall k :: 0 <= k < |s.queue| ==> after.queue[k] == s.queue[k] && s.queue[k].frame in s.enqueued;
  }

  lemma EnqueueOrdered(s: System, step: Step)
    requires Inv(s) && step.Enqueue? && Enabled(s, step)
    ensures Inv(Next(s, step))
  {
    EnqueueConserves(s, step);
    EnqueueExtends(s, step);
    EnqueueQueues(s, step);
  }

  lemma PrepareNextOrdered(s: System, step: Step)
    requires Inv(s) && step.PrepareNext? && Enabled(s, step)
    ensures Inv(Next(s, step))
  {
    PrepareNextConserves(s, step);
    var after := Next(s, step);
    assert s.queue[0].frame in s.enqueued;
    assert forall k :: 0 <= k < |after.queue| ==> after.queue[k] == s.queue[k + 1];
  }

  lemma TransferOrdered(s: System, step: Step)
    requires Inv(s) && step.Transfer?
    ensures Inv(Next(s, step))
  {
    var after := Next(s, step);
    if after.accepted != s.accepted {
      var f := s.pipe.dma.value;
      assert Newest(s, f);
      assert after.accepted[|s.accepted|] == f;
      assert forall i :: 0 <= i < |s.accepted| ==> after.accepted[i] == s.accepted[i];
      assert s.accepted != [] ==> s.accepted[|s.accepted| - 1].index != f.index;
    }
  }

  lemma NextKeepsInv(s: System, step: Step)
    requires Inv(s) && Enabled(s, step)
    ensures Inv(Next(s, step))
  {
    if step.Enqueue? {
      EnqueueOrdered(s, step);
    } else if step.PrepareNext? {
      PrepareNextOrdered(s, step);
    } else if step.Transfer? {
      TransferOrdered(s, step);
    } else {
      NextConserves(s, step);
      if step.Purge? {
        PurgeConserves(s);
      }
    }
  }

  // -------------------------------------------------------------------- runs

  ghost predicate RunOk(s: System, steps: seq<Step>)
    requires Inv(s)
    decreases |steps|
  {
    steps != [] ==>
      && Enabled(s, steps[0])
      && (NextKeepsInv(s, steps[0]); RunOk(Next(s, steps[0]), steps[1..]))
  }

  ghost function Run(s: System, steps: seq<Step>): (after: System)
    requires Inv(s) && RunOk(s, steps)
    ensures Inv(after)
    decreases |steps|
  {
    if steps == [] then s
    else
      NextKeepsInv(s, steps[0]);
      Run(Next(s, steps[0]), steps[1..])
  }

  /** The bridge after its initialisation, whatever the ring memory holds. */
  function Initial(blank: Frame): System {
    System(
      Pipe(seq(SLOTS, _ => Entry(blank, 0)), 0, 0, ROOM, 0, false, false, blank, 0, 0, None, None),
      0, 0, None, [], [], [], -1)
  }

  lemma InitialInv(blank: Frame)
    ensures Inv(Initial(blank))
  {
  }

  /** The steps are a run of the bridge from its initialisation. */
  ghost predicate Possible(blank: Frame, steps: seq<Step>) {
    InitialInv(blank);
    RunOk(Initial(blank), steps)
  }

  /** Where they lead. */
  ghost function Reached(blank: Frame, steps: seq<Step>): (s: System)
    requires Possible(blank, steps)
    ensures Inv(s)
  {
    InitialInv(blank);
    Run(Initial(blank), steps)
  }

  /** a is b with some elements left out. */
  predicate Subsequence(a: seq<Frame>, b: seq<Frame>)
    decreases |b|
  {
    if a == [] then true
    else if b == [] then false
    else if a[|a| - 1] == b[|b| - 1] then Subsequence(a[..|a| - 1], b[..|b| - 1])
    else Subsequence(a, b[..|b| - 1])
  }

  lemma {:induction false} IncreasingIsSubsequence(a: seq<Frame>, b: seq<Frame>)
    requires Increasing(a) && Increasing(b) && forall i :: 0 <= i < |a| ==> a[i] in b
    ensures Subsequence(a, b)
    decreases |b|
  {
    if a != [] {
      assert a[|a| - 1] in b;
      var last := b[|b| - 1];
      forall i | 0 <= i < |a| && a[i] != last
        ensures a[i] in b[..|b| - 1]
      {
        var k :| 0 <= k < |b| && b[k] == a[i];
        assert b[..|b| - 1][k] == a[i];
      }
      if a[|a| - 1] == last {
        IncreasingIsSubsequence(a[..|a| - 1], b[..|b| - 1]);
      } else {
        var top :| 0 <= top < |b| && b[top] == a[|a| - 1];
        forall i | 0 <= i < |a|
          ensures a[i] != last
        {
          assert a[i].index <= a[|a| - 1].index < last.index;
        }
        IncreasingIsSubsequence(a, b[..|b| - 1]);
      }
    }
  }

  /**
    Whatever is interleaved, lost, resent, timed out or purged: the audio frames accepted by the receiver are the
    enqueued ones in their order, with some left out and none repeated.
    */
  lemma AcceptedInOrder(blank: Frame, steps: seq<Step>)
    requires Possible(blank, steps)
    ensures var s := Reached(blank, steps);
      && Subsequence(s.accepted, s.enqueued) && Increasing(s.accepted) && Increasing(s.enqueued)
      && forall f :: f in s.accepted ==> f in s.enqueued
  {
    var s := Reached(blank, steps);
    IncreasingIsSubsequence(s.accepted, s.enqueued);
  }

  /** No slot is lost in any run, and the ring holds exactly the queued entries. */
  lemma SlotsConserved(blank: Frame, steps: seq<Step>)
    requires Possible(blank, steps)
    ensures var s := Reached(blank, steps);
      && s.pipe.free + s.pipe.used + (if s.pipe.waiting then 1 else 0) + s.holding + s.returning == ROOM
      && (if s.pipe.head >= s.pipe.tail then s.pipe.head - s.pipe.tail
          else SLOTS - s.pipe.tail + s.pipe.head) == s.pipe.used
      && forall k :: 0 <= k < |s.queue| ==> s.pipe.ring[Ring16(s.pipe.tail, k)] == s.queue[k]
  {
    var s := Reached(blank, steps);
    RingCount(s.pipe.ring, s.pipe.head, s.pipe.tail, s.queue);
  }

  /**
    A transferred audio frame is taken for a repeat exactly when its number agrees in the low eight bits with the
    last accepted one: it was accepted before, or a multiple of 256 frames have gone by and it is lost.
    */
  lemma RepeatOrAlias(s: System)
    requires Inv(s) && s.pipe.dma.Some? && IsAudio(s.pipe.dma.value)
    ensures var f := s.pipe.dma.value;
      LooksRepeated(s.last, f) <==>
        s.accepted != [] && (f.index - s.accepted[|s.accepted| - 1].index) % 256 == 0
    ensures var f := s.pipe.dma.value;
      s.accepted != [] ==> s.accepted[|s.accepted| - 1].index <= f.index
    ensures var f := s.pipe.dma.value;
      s.accepted != [] && s.accepted[|s.accepted| - 1].index == f.index ==> s.accepted[|s.accepted| - 1] == f
  {
  }

  // ------------------------------------------------------------ an alias

  /** The steps lead from s to t. */
  ghost predicate Goes(s: System, steps: seq<Step>, t: System) {
    Inv(s) && RunOk(s, steps) && Run(s, steps) == t
  }

  lemma GoesStep(s: System, step: Step)
    requires Inv(s) && Enabled(s, step)
    ensures Goes(s, [step], Next(s, step)) && Inv(Next(s, step))
  {
    NextKeepsInv(s, step);
    assert [step][1..] == [];
  }

  lemma GoesFirst(s: System, step: Step, rest: seq<Step>, u: System)
    requires Inv(s) && Enabled(s, step) && Goes(Next(s, step), rest, u)
    ensures Goes(s, [step] + rest, u)
  {
    assert ([step] + rest)[1..] == rest;
  }

  /** A run that has a first step goes on from where that leads. */
  lemma GoesRest(s: System, steps: seq<Step>, t: System)
    requires Goes(s, steps, t) && steps != []
    ensures Enabled(s, steps[0]) && Goes(Next(s, steps[0]), steps[1..], t)
  {
    NextKeepsInv(s, steps[0]);
  }

  lemma FirstOfSum(first: seq<Step>, second: seq<Step>)
    requires first != []
    ensures [first[0]] + (first[1..] + second) == first + second
  {
  }

  lemma {:induction false} GoesThen(s: System, first: seq<Step>, t: System, second: seq<Step>, u: System)
    requires Goes(s, first, t) && Goes(t, second, u)
    ensures Goes(s, first + second, u)
    decreases |first|
  {
    if first == [] {
      assert first + second == second;
    } else {
      var step, rest := first[0], first[1..];
      GoesRest(s, first, t);
      GoesThen(Next(s, step), rest, t, second, u);
      GoesFirst(s, step, rest + second, u);
      FirstOfSum(first, second);
    }
  }

  /** Nothing is queued, in flight or in anybody's hands. */
  predicate Quiet(s: System) { s.pipe.used == 0 && !s.pipe.waiting && s.holding == 0 && s.returning == 0 }

  /** An audio frame is put into the empty ring. */
  lemma QueueAudioRun(s: System, kind: Byte, payload: seq<Byte>, queuedAt: nat) returns (steps: seq<Step>, t: System)
    requires Inv(s) && Quiet(s) && (kind == AUDIO || kind == AUDIO_V2)
    ensures Goes(s, steps, t) && Inv(t)
    ensures var f := Frame(s.pipe.txIndex, kind, payload);
      && t.queue == [Entry(f, queuedAt)] && f in t.enqueued && t.pipe.used == 1 && t.pipe.txIndex == s.pipe.txIndex + 1
      && !t.pipe.waiting && t.holding == 0 && t.returning == 0 && t.last == s.last && t.accepted == s.accepted
  {
    var put := Enqueue(kind, payload, queuedAt);
    GoesStep(s, TakeSlot);
    var s1 := Next(s, TakeSlot);
    GoesStep(s1, put);
    t := Next(s1, put);
    assert t.enqueued[|s1.enqueued|] == Frame(s.pipe.txIndex, kind, payload);
    assert s1.queue == [];
    GoesFirst(s, TakeSlot, [put], t);
    steps := [TakeSlot] + [put];
  }

  /** It goes through the empty ring into the DMA buffer, if that takes no more than 120 ms. */
  lemma SendAudioRun(s: System, kind: Byte, payload: seq<Byte>, queuedAt: nat, now: int)
    returns (steps: seq<Step>, t: System)
    requires Inv(s) && Quiet(s) && (kind == AUDIO || kind == AUDIO_V2) && queuedAt <= now <= queuedAt + 120000
    ensures Goes(s, steps, t)
    ensures var f := Frame(s.pipe.txIndex, kind, payload);
      && t.pipe.dma == Some(f) && t.pipe.waiting && t.pipe.used == 0 && t.pipe.txIndex == s.pipe.txIndex + 1
      && t.holding == 0 && t.returning == 0 && t.last == s.last && t.accepted == s.accepted && f in t.enqueued
  {
    var prepare := PrepareNext(now, true);
    var put, queued := QueueAudioRun(s, kind, payload, queuedAt);
    PrepareNextConserves(queued, prepare);
    GoesStep(queued, prepare);
    t := Next(queued, prepare);
    GoesThen(s, put, queued, [prepare], t);
    steps := put + [prepare];
  }

  /** It is accepted, and its ACK releases its slot. */
  lemma AcceptRun(s: System) returns (steps: seq<Step>, t: System)
    requires Inv(s) && s.pipe.dma.Some? && IsAudio(s.pipe.dma.value) && !LooksRepeated(s.last, s.pipe.dma.value)
    requires s.pipe.waiting && s.pipe.used == 0 && s.holding == 0 && s.returning == 0
    ensures Goes(s, steps, t) && Quiet(t) && t.pipe.txIndex == s.pipe.txIndex
    ensures t.last == Some(SeqOf(s.pipe.dma.value)) && t.accepted == s.accepted + [s.pipe.dma.value]
  {
    GoesStep(s, Transfer(true));
    var s1 := Next(s, Transfer(true));
    GoesStep(s1, AckInterrupt);
    var s2 := Next(s1, AckInterrupt);
    GoesStep(s2, ReturnSlot);
    t := Next(s2, ReturnSlot);
    GoesFirst(s1, AckInterrupt, [ReturnSlot], t);
    GoesFirst(s, Transfer(true), [AckInterrupt] + [ReturnSlot], t);
    steps := [Transfer(true)] + ([AckInterrupt] + [ReturnSlot]);
  }

  /** A control frame is posted, goes out, and takes a sequence number. */
  lemma ControlRun(s: System) returns (steps: seq<Step>, t: System)
    requires Inv(s) && Quiet(s)
    ensures Goes(s, steps, t) && Quiet(t)
    ensures t.pipe.txIndex == s.pipe.txIndex + 1 && t.last == s.last && t.accepted == s.accepted
  {
    var post := PostControl(0, []);
    GoesStep(s, post);
    var s1 := Next(s, post);
    GoesStep(s1, PrepareControl);
    var s2 := Next(s1, PrepareControl);
    GoesStep(s2, Transfer(true));
    t := Next(s2, Transfer(true));
    GoesFirst(s1, PrepareControl, [Transfer(true)], t);
    GoesFirst(s, post, [PrepareControl] + [Transfer(true)], t);
    steps := [post] + ([PrepareControl] + [Transfer(true)]);
  }

  lemma {:induction false} ControlsRun(s: System, n: nat) returns (steps: seq<Step>, t: System)
    requires Inv(s) && Quiet(s)
    ensures Goes(s, steps, t) && Quiet(t)
    ensures t.pipe.txIndex == s.pipe.txIndex + n && t.last == s.last && t.accepted == s.accepted
    decreases n
  {
    if n == 0 {
      steps, t := [], s;
    } else {
      var front, middle := ControlsRun(s, n - 1);
      var last;
      last, t := ControlRun(middle);
      GoesThen(s, front, middle, last, t);
      steps := front + last;
    }
  }

  lemma RepeatIgnored(s: System, takes: bool)
    requires s.pipe.dma.Some? && IsAudio(s.pipe.dma.value) && LooksRepeated(s.last, s.pipe.dma.value)
    requires Shaped(s.pipe)
    ensures Receive(s.last, s.pipe.dma.value, takes) == (s.last, false, true) && Next(s, Transfer(takes)) == s
  {
  }

  /** An accepted audio frame and then n control frames. */
  lemma AcceptedThenControls(s: System, payload: seq<Byte>, n: nat) returns (steps: seq<Step>, t: System)
    requires Inv(s) && Quiet(s) && s.last == None
    ensures Goes(s, steps, t) && Quiet(t) && t.pipe.txIndex == s.pipe.txIndex + 1 + n
    ensures var f := Frame(s.pipe.txIndex, AUDIO, payload);
      t.last == Some(SeqOf(f)) && t.accepted == s.accepted + [f]
  {
    var send, s1 := SendAudioRun(s, AUDIO, payload, 0, 0);
    var accept, s2 := AcceptRun(s1);
    var controls;
    controls, t := ControlsRun(s2, n);
    GoesThen(s1, accept, s2, controls, t);
    GoesThen(s, send, s1, accept + controls, t);
    steps := send + (accept + controls);
  }

  /**
    Aliasing is reached: after an accepted audio frame and 255 control frames the next audio frame is taken for a
    repeat of the first. However often it is transferred it is acknowledged and never accepted.
    */
  lemma AliasedFrameIsLost(blank: Frame, first: seq<Byte>, second: seq<Byte>) returns (steps: seq<Step>)
    ensures Possible(blank, steps)
    ensures var s, f := Reached(blank, steps), Frame(256, AUDIO, second);
      && s.pipe.dma == Some(f) && f in s.enqueued && s.accepted == [Frame(0, AUDIO, first)]
      && LooksRepeated(s.last, f)
      && forall takes :: Receive(s.last, f, takes) == (s.last, false, true) && Next(s, Transfer(takes)) == s
  {
    InitialInv(blank);
    var s := Initial(blank);
    var begin, middle := AcceptedThenControls(s, first, 255);
    var again, s4 := SendAudioRun(middle, AUDIO, second, 0, 0);
    GoesThen(s, begin, middle, again, s4);
    steps := begin + again;
    forall takes
      ensures Receive(s4.last, s4.pipe.dma.value, takes) == (s4.last, false, true) && Next(s4, Transfer(takes)) == s4
    {
      RepeatIgnored(s4, takes);
    }
  }
}
