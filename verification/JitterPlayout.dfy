/**
  When the jitter buffer hands a packet out, when it counts a miss and when it idles, what it refuses, and how long
  a waiting packet can take: the promises that a store which plays nothing would break.
  */
module JitterPlayout {
  import opened Common
  import opened JitterSpec
  import opened JitterRuns

  // -------------------------------------------------------------------- gate

  /** A store that has not started opens exactly with its third packet or at its deadline. */
  lemma GateOpens(s: Store, now: nat)
    requires !s.Empty? && !ClockOf(s).started
    ensures if Depth(s) < 3 && now < ClockOf(s).prefillDeadline then Pop(s, now) == (s, NotDue)
            else Pop(s, now) == Pop(WithClock(s, ClockOf(s).(started := true, nextDeadline := now)), now)
  {
  }

  /** The first packet sets that deadline 60 ms ahead; nothing comes out of an empty store. */
  lemma FirstPushOpensGate(k: Packet, now: nat)
    requires !k.mode.UnknownMode? && 0 < |k.data| <= MAX_PACKET_SIZE
    ensures Pop(Empty, now) == (Empty, NotDue)
    ensures var (s, r) := Push(Empty, k, now);
      && r.PushOk?
      && var c, u := Clock(now + 60, false, 0), k.sequence as int;
         s == if k.mode.Sequenced? then InOrder(Play(u, map[u := k], 0, false, false, c, u, [], map[u := k]))
              else Arrival([k], false, c)
  {
  }

  // --------------------------------------------------------------------- pop

  /** A started store with the next packet at hand plays it at any time, and moves on by one frame. */
  lemma ReadyPlays(p: Play, now: nat)
    requires p.clock.started && p.next in p.window
    ensures var (s, r), k := Pop(InOrder(p), now), p.window[p.next];
      && r == Played(k) && s.InOrder?
      && s.play.next == p.next + 1 && s.play.window == p.window - {p.next}
      && s.play.clock == p.clock.(nextDeadline := p.clock.nextDeadline + 20)
      && s.play.dtxIdle == !k.active && s.play.emptyMissing == 0 && !s.play.uncertain
      && s.play.floor == p.floor && s.play.accepted == p.accepted && s.play.delivered == p.delivered + [(p.next, k)]
  {
  }

  /** Without it nothing happens before the deadline and its grace of 40 ms. */
  lemma EarlyWaits(p: Play, now: nat)
    requires p.clock.started && p.next !in p.window && now < p.clock.nextDeadline + 40
    ensures Pop(InOrder(p), now) == (InOrder(p), NotDue)
  {
  }

  /** From then on the frame is given up: as a miss, or, for an idle store with nothing waiting, silently. */
  lemma LateMisses(p: Play, now: nat)
    requires p.clock.started && p.next !in p.window && now >= p.clock.nextDeadline + 40
    ensures var (s, r) := Pop(InOrder(p), now);
      && s.InOrder? && s.play.clock == p.clock.(nextDeadline := p.clock.nextDeadline + 20)
      && s.play.window == p.window && s.play.delivered == p.delivered && s.play.accepted == p.accepted
      && (r == DtxIdle <==> p.dtxIdle && p.window == map[]) && (r == DtxIdle ==> s.play == p.(clock := s.play.clock))
      && (r != DtxIdle ==> r == Missing && s.play.next == p.next + 1)
      && (p.window != map[] ==> s.play.emptyMissing == 0 && !s.play.uncertain && s.play.dtxIdle == p.dtxIdle)
      && (p.window == map[] && r == Missing ==>
            && s.play.emptyMissing == p.emptyMissing + 1
            && if p.emptyMissing < 4 then s.play.uncertain == p.uncertain && !s.play.dtxIdle
               else s.play.uncertain && s.play.dtxIdle)
  {
  }

  /** A queue in arrival order plays its head whenever it has one, and otherwise waits for the grace likewise. */
  lemma ArrivalPlays(s: Store, now: nat)
    requires s.Arrival? && s.clock.started
    ensures var (t, r) := Pop(s, now);
      var later := s.clock.(nextDeadline := s.clock.nextDeadline + 20);
      if s.queue != [] then r == Played(s.queue[0]) && t == Arrival(s.queue[1..], !s.queue[0].active, later)
      else if now < s.clock.nextDeadline + 40 then (t, r) == (s, NotDue)
      else t == s.(clock := later) && r == if s.idle then DtxIdle else Missing
  {
  }

  // ------------------------------------------------------------------- runs

  /** The store after pops at these times, oldest first. */
  function PopAll(s: Store, times: seq<nat>): Store
    decreases |times|
  {
    if times == [] then s else PopAll(Pop(s, times[0]).0, times[1..])
  }

  /** Each pop comes when its frame is overdue: 40 ms after a deadline that advances by 20 ms a frame. */
  predicate AllOverdue(c: Clock, times: seq<nat>) {
    forall i :: 0 <= i < |times| ==> times[i] >= c.nextDeadline + 20 * i + 40
  }

  /** The number to play moves on with every overdue pop of a store that is not empty. */
  lemma OverduePopAdvances(p: Play, now: nat)
    requires Inv(p) && p.clock.started && p.window != map[] && now >= p.clock.nextDeadline + 40
    ensures var s := Pop(InOrder(p), now).0;
      && s.InOrder? && Inv(s.play) && s.play.next == p.next + 1 && s.play.window == p.window - {p.next}
      && s.play.clock == p.clock.(nextDeadline := p.clock.nextDeadline + 20)
  {
    ApplyKeepsInv(InOrder(p), PopOp(now));
    if p.next in p.window {
      ReadyPlays(p, now);
    } else {
      LateMisses(p, now);
    }
  }

  /** The times after the first one, for the clock after its pop. */
  lemma LaterOverdue(c: Clock, times: seq<nat>, n: nat)
    requires 0 < n < |times| && AllOverdue(c, times[..n])
    ensures times[0] >= c.nextDeadline + 40 && times[..n][0] == times[0] && times[..n][1..] == times[1..][..n - 1]
    ensures AllOverdue(c.(nextDeadline := c.nextDeadline + 20), times[1..][..n - 1])
  {
    var before, later := times[..n], times[1..][..n - 1];
    assert before[0] == times[0];
    assert forall i :: 0 <= i < n - 1 ==> later[i] == before[i + 1];
  }

  /**
    A waiting packet plays on the pop its distance says, whatever is missing before it: its turn comes at the latest
    with the overdue pop of its own frame.
    */
  lemma {:induction false} WaitingPacketPops(p: Play, u: int, times: seq<nat>)
    requires Inv(p) && p.clock.started && u in p.window
    requires |times| == u - p.next + 1 && AllOverdue(p.clock, times[..u - p.next])
    ensures |times| <= CAPACITY
    ensures Pop(PopAll(InOrder(p), times[..u - p.next]), times[u - p.next]).1 == Played(p.window[u])
    decreases u - p.next
  {
    if u == p.next {
      ReadyPlays(p, times[0]);
    } else {
      LaterOverdue(p.clock, times, u - p.next);
      OverduePopAdvances(p, times[0]);
      WaitingPacketPops(Pop(InOrder(p), times[0]).0.play, u, times[1..]);
    }
  }

  // -------------------------------------------------------------------- idle

  /** How many misses an empty store still counts before it idles. */
  function MissesLeft(p: Play): int { if p.dtxIdle then 0 else 5 - p.emptyMissing }

  /**
    Nothing more comes: the store counts misses until five in a row have been counted, and idles from then on; after
    an inactive frame it idles at once.
    */
  lemma {:induction false} EmptyStoreIdles(p: Play, times: seq<nat>)
    requires Inv(p) && p.clock.started && p.window == map[] && times != [] && AllOverdue(p.clock, times)
    ensures Pop(PopAll(InOrder(p), times[..|times| - 1]), times[|times| - 1]).1
              == if |times| <= MissesLeft(p) then Missing else DtxIdle
    decreases |times|
  {
    LateMisses(p, times[0]);
    if |times| > 1 {
      var s, later := Pop(InOrder(p), times[0]).0, times[1..];
      ApplyKeepsInv(InOrder(p), PopOp(times[0]));
      assert later[..|later| - 1] == times[..|times| - 1][1..];
      assert forall i :: 0 <= i < |later| ==> later[i] == times[i + 1];
      EmptyStoreIdles(s.play, later);
    }
  }

  /** So after the last packet: five misses and then idle, or idle at once if the packet was inactive. */
  lemma SilenceAfterLast(p: Play, now: nat, times: seq<nat>)
    requires Inv(p) && p.clock.started && p.window.Keys == {p.next}
    requires times != [] && AllOverdue(p.clock.(nextDeadline := p.clock.nextDeadline + 20), times)
    ensures var s, last := Pop(InOrder(p), now).0, p.window[p.next];
      Pop(PopAll(s, times[..|times| - 1]), times[|times| - 1]).1
        == if last.active && |times| <= 5 then Missing else DtxIdle
  {
    ReadyPlays(p, now);
    ApplyKeepsInv(InOrder(p), PopOp(now));
    var s := Pop(InOrder(p), now).0;
    assert s.play.window.Keys == {};
    EmptyStoreIdles(s.play, times);
  }

  lemma MissesCount(p: Play, times: seq<nat>)
    requires Inv(p) && p.clock.started && p.window == map[] && !p.dtxIdle && !p.uncertain
    requires p.emptyMissing + |times| <= 5 && AllOverdue(p.clock, times)
    ensures var s := PopAll(InOrder(p), times);
      && s.InOrder? && Inv(s.play) && s.play.window == map[] && s.play.clock.started
      && s.play.next == p.next + |times| && s.play.emptyMissing == p.emptyMissing + |times|
      && (times != [] && p.emptyMissing + |times| == 5 ==> s.play.uncertain)
    decreases |times|
  {
    if times != [] {
      LateMisses(p, times[0]);
      ApplyKeepsInv(InOrder(p), PopOp(times[0]));
      assert forall i :: 0 <= i < |times| - 1 ==> times[1..][i] == times[i + 1];
      var q := Pop(InOrder(p), times[0]).0.play;
      if |times| > 1 {
        MissesCount(q, times[1..]);
      }
    }
  }

  lemma UnwrapIs(next: int, u: int, s: Word)
    requires next - 0x8000 <= u < next + 0x8000 && s == u % 0x1_0000
    ensures Unwrap(next, s) == u
  {
  }

  lemma MissedIsTaken(p: Play, u: int, k: Packet, now: nat)
    requires Inv(p) && p.clock.started && p.uncertain && p.next - 5 <= u < p.next
    requires k.mode.Sequenced? && 0 < |k.data| <= 64 && k.sequence == u % 0x1_0000
    ensures var (s, r) := Push(InOrder(p), k, now);
      r.PushOk? && s.InOrder? && s.play.window == map[u := k] && s.play.next == u && s.play.clock == p.clock
  {
    UnwrapIs(p.next, u, k.sequence);
    BehindVerdict(p, k);
    PushRefusals(InOrder(p), k, now);
  }

  /**
    Five misses in a row may have gone wrong: a packet with one of the missed numbers that comes after all is taken, is
    the next to play, and plays at once.
    */
  lemma GapIsCorrected(p: Play, times: seq<nat>, k: Packet, now: nat)
    requires Inv(p) && p.clock.started && p.window == map[] && !p.dtxIdle && !p.uncertain && p.emptyMissing == 0
    requires |times| == 5 && AllOverdue(p.clock, times)
    requires k.mode.Sequenced? && 0 < |k.data| <= 64
    requires exists u :: p.next <= u < p.next + 5 && k.sequence == u % 0x1_0000
    ensures var (s, r) := Push(PopAll(InOrder(p), times), k, now);
      && r.PushOk? && s.InOrder? && s.play.window == map[s.play.next := k] && p.next <= s.play.next < p.next + 5
      && Pop(s, now).1 == Played(k)
  {
    MissesCount(p, times);
    var q := PopAll(InOrder(p), times).play;
    var u :| p.next <= u < p.next + 5 && k.sequence == u % 0x1_0000;
    MissedIsTaken(q, u, k, now);
    ReadyPlays(Push(InOrder(q), k, now).0.play, now);
  }

  // ------------------------------------------------------------------ pushes

  /** Arguments are refused in this order, and the mode of the first packet holds for all. */
  lemma PushRefusals(s: Store, k: Packet, now: nat)
    requires StoreInv(s)
    ensures var (t, r) := Push(s, k, now);
      && (r.InvalidArgument? <==> k.mode.UnknownMode?)
      && (r.InvalidLength? <==> !k.mode.UnknownMode? && (|k.data| == 0 || |k.data| > 64))
      && (r.ModeMismatch? <==> !r.InvalidArgument? && !r.InvalidLength?
                               && ((s.InOrder? && !k.mode.Sequenced?) || (s.Arrival? && !k.mode.ArrivalOrder?)))
      && (r.Full? <==> s.Arrival? && k.mode.ArrivalOrder? && 0 < |k.data| <= 64 && |s.queue| == 16)
      && (!r.PushOk? ==> t == s)
      && (s.Arrival? && r.PushOk? ==> t == s.(queue := s.queue + [k]))
      && (s.InOrder? && k.mode.Sequenced? && 0 < |k.data| <= 64 ==>
            (t, r) == (InOrder(PushInOrder(s.play, k).0), PushInOrder(s.play, k).1))
  {
    if s.InOrder? {
      PushKeepsInv(s.play, k);
    }
  }

  /** A packet ahead of playout is taken unless it is sixteen or more frames ahead or already waits. */
  lemma AheadVerdict(p: Play, k: Packet)
    requires Inv(p) && Unwrap(p.next, k.sequence) >= p.next
    ensures var u, (q, r) := Unwrap(p.next, k.sequence), PushInOrder(p, k);
      && r == (if u >= p.next + 16 then Future else if u in p.accepted then Duplicate else PushOk)
      && (r.PushOk? ==>
            q == p.(window := p.window[u := k], accepted := p.accepted[u := k], uncertain := false,
                    dtxIdle := p.dtxIdle && !p.uncertain))
  {
  }

  /** Played since the start of the window last moved, and among the last sixteen numbers. */
  ghost predicate JustPlayed(p: Play, u: int) {
    p.floor <= u && p.next - 16 <= u && exists i :: 0 <= i < |p.delivered| && p.delivered[i].0 == u
  }

  /**
    A packet behind playout is taken in two cases only, and becomes the next to play: before playout, when all that
    waits stays within sixteen frames of it; and after a silent gap, when it is one of the five frames just missed
    and nothing waits.
    */
  lemma BehindVerdict(p: Play, k: Packet)
    requires Inv(p) && Unwrap(p.next, k.sequence) < p.next
    ensures var u, (q, r) := Unwrap(p.next, k.sequence), PushInOrder(p, k);
      var early := !p.clock.started && p.next - u < 0x8000 && forall v :: v in p.window ==> v < u + 16;
      var correcting := p.uncertain && p.window == map[] && p.next - u <= 5;
      && (r.PushOk? <==> early || correcting)
      && (r.PushOk? ==>
            q == p.(next := u, floor := u, window := p.window[u := k], accepted := p.accepted[u := k],
                    uncertain := false))
      && (!r.PushOk? ==> r == (if JustPlayed(p, u) then Duplicate else Late))
  {
    var u := Unwrap(p.next, k.sequence);
    if CanMoveStart(p, u) && !CanRewind(p, u) {
      assert u !in p.window;
    }
  }

  // ------------------------------------------------------------ arrival order

  /** The packets that the pushes of a run have accepted. */
  ghost function Taken(s: Store, ops: seq<Op>): seq<Packet> {
    if ops == [] then []
    else
      var before, op := Taken(s, ops[..|ops| - 1]), ops[|ops| - 1];
      if op.PushOp? && Push(Run(s, ops[..|ops| - 1]), op.packet, op.now).1.PushOk? then before + [op.packet] else before
  }

  /** An empty store has taken nothing. */
  lemma {:induction false} EmptyTookNothing(ops: seq<Op>)
    requires Run(Empty, ops).Empty?
    ensures Taken(Empty, ops) == []
  {
    if ops != [] {
      assert Run(Empty, ops[..|ops| - 1]).Empty?;
      EmptyTookNothing(ops[..|ops| - 1]);
    }
  }

  /** In arrival order what was accepted is what was handed out followed by what waits, in the order it came. */
  lemma {:induction false} ArrivalPlaysAll(ops: seq<Op>)
    requires Run(Empty, ops).Arrival?
    ensures Outputs(Empty, ops) + Run(Empty, ops).queue == Taken(Empty, ops)
  {
    var front, op := ops[..|ops| - 1], ops[|ops| - 1];
    var s := Run(Empty, front);
    if s.Empty? {
      EmptyTookNothing(front);
      EmptyRunsAreSilent(front);
    } else {
      assert s.Arrival?;
      ArrivalPlaysAll(front);
      if op.PopOp? && Pop(s, op.now).1.Played? {
        assert s.queue == [s.queue[0]] + s.queue[1..];
      }
    }
  }
}
