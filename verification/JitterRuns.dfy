/** Whole runs of the jitter buffer: order, conservation and delay, without a reset. */
module JitterRuns {
  import opened Common
  import opened JitterSpec

  datatype Op = PushOp(packet: Packet, now: nat) | PopOp(now: nat)

  ghost function Apply(s: Store, op: Op): Store {
    match op
    case PushOp(k, now) => Push(s, k, now).0
    case PopOp(now) => Pop(s, now).0
  }

  ghost function Run(s: Store, ops: seq<Op>): Store {
    if ops == [] then s else Apply(Run(s, ops[..|ops| - 1]), ops[|ops| - 1])
  }

  /** The packets the pops of a run hand to the decoder. */
  ghost function Outputs(s: Store, ops: seq<Op>): seq<Packet> {
    if ops == [] then []
    else
      var before := Outputs(s, ops[..|ops| - 1]);
      match ops[|ops| - 1]
      case PushOp(_, _) => before
      case PopOp(now) =>
        match Pop(Run(s, ops[..|ops| - 1]), now).1
        case Played(k) => before + [k]
        case _ => before
  }

  // ------------------------------------------------------------ one step

  /** What a push does to a sequenced store: never over an accepted number, never behind a delivery. */
  lemma PushKeepsInv(p: Play, k: Packet)
    requires Inv(p)
    ensures var (p', r) := PushInOrder(p, k);
      && Inv(p') && p'.delivered == p.delivered
      && (!r.PushOk? ==> p' == p)
      && (r.PushOk? ==>
            var u := Unwrap(p.next, k.sequence);
            && u !in p.accepted
            && p'.accepted == p.accepted[u := k]
            && p'.next <= u
            && forall i :: 0 <= i < |p.delivered| ==> p.delivered[i].0 < p'.next)
  {
    var (p', r) := PushInOrder(p, k);
    var u := Unwrap(p.next, k.sequence);
    if r.PushOk? {
      if u < p.next && !CanRewind(p, u) {
        assert CanMoveStart(p, u);
        assert u !in p.window;
      }
      assert u !in p.window;
      assert !IsDelivered(p.delivered, u);
      assert u !in p.accepted;
      assert u in p'.window;
      assert Conserved(p');
    }
  }

  lemma PlayKeepsInv(p: Play)
    requires Inv(p) && p.clock.started && p.next in p.window
    ensures Inv(PopInOrder(p).0)
  {
    var p', k := PopInOrder(p).0, p.window[p.next];
    assert p'.delivered[|p.delivered|] == (p.next, k);
    assert forall i :: 0 <= i < |p.delivered| ==> p'.delivered[i] == p.delivered[i];
    forall u
      ensures u in p'.accepted <==> u in p'.window || IsDelivered(p'.delivered, u)
    {
      if IsDelivered(p.delivered, u) {
        var i :| 0 <= i < |p.delivered| && p.delivered[i].0 == u;
        assert p'.delivered[i].0 == u;
      }
    }
    assert Conserved(p');
  }

  lemma MissKeepsInv(p: Play)
    requires Inv(p) && p.clock.started && p.next !in p.window
    ensures Inv(PopInOrder(p).0)
  {
    var p' := PopInOrder(p).0;
    assert p'.window == p.window && Conserved(p');
  }

  /** Another clock changes nothing else; a started one fits every store. */
  lemma ClockKeepsPlay(p: Play, c: Clock)
    requires Inv(p) && c.started
    ensures Inv(p.(clock := c))
  {
    assert Conserved(p.(clock := c));
  }

  /** What a pop does: the packet handed out is the next one in unwrapped order. */
  lemma PopKeepsInv(p: Play, c: Clock)
    requires Inv(p)
    requires c.started
    ensures var (p', r) := PopInOrder(p.(clock := c));
      && Inv(p')
      && p'.accepted == p.accepted
      && p'.delivered == (if r.Played? then p.delivered + [(p.next, r.packet)] else p.delivered)
      && (r.Played? ==> p.next in p.accepted && p.accepted[p.next] == r.packet)
  {
    var q := p.(clock := c);
    ClockKeepsPlay(p, c);
    if p.next in p.window {
      PlayKeepsInv(q);
    } else {
      MissKeepsInv(q);
    }
  }

  lemma ApplyKeepsInv(s: Store, op: Op)
    requires StoreInv(s)
    ensures StoreInv(Apply(s, op))
  {
    match s
    case Empty =>
      if op.PushOp? && Apply(s, op).InOrder? {
        var p := Apply(s, op).play;
        assert p.window.Keys == {p.next};
        assert Inv(p);
      }
    case Arrival(_, _, _) =>
    case InOrder(p) =>
      match op
      case PushOp(k, _) => PushKeepsInv(p, k);
      case PopOp(now) =>
        var c := Start(p.clock, |p.window|, now);
        if Due(c, p.next in p.window, now) {
          PopKeepsInv(p, Tick(c));
        } else {
          assert Conserved(p.(clock := c));
        }
  }

  // ------------------------------------------------------------ all runs

  lemma {:induction false} RunKeepsInv(ops: seq<Op>)
    ensures StoreInv(Run(Empty, ops))
  {
    if ops != [] {
      RunKeepsInv(ops[..|ops| - 1]);
      ApplyKeepsInv(Run(Empty, ops[..|ops| - 1]), ops[|ops| - 1]);
    }
  }

  ghost function Packets(d: seq<(int, Packet)>): (r: seq<Packet>)
    ensures |r| == |d|
    ensures forall i :: 0 <= i < |d| ==> r[i] == d[i].1
  {
    seq(|d|, i requires 0 <= i < |d| => d[i].1)
  }

  /** What one operation hands out is what it appends to the delivered list. */
  lemma OpDelivers(s: Store, op: Op)
    requires StoreInv(s) && s.InOrder?
    ensures Apply(s, op).InOrder?
    ensures var before, after := s.play.delivered, Apply(s, op).play.delivered;
      if op.PopOp? && Pop(s, op.now).1.Played? then
        |after| == |before| + 1 && after[..|before|] == before && after[|before|].1 == Pop(s, op.now).1.packet
      else after == before
  {
    match op
    case PushOp(k, _) => PushKeepsInv(s.play, k);
    case PopOp(now) =>
      var c := Start(s.play.clock, |s.play.window|, now);
      if Due(c, s.play.next in s.play.window, now) {
        PopKeepsInv(s.play, Tick(c));
      }
  }

  lemma PacketsGrow(before: seq<(int, Packet)>, after: seq<(int, Packet)>)
    requires |after| == |before| + 1 && after[..|before|] == before
    ensures Packets(after) == Packets(before) + [after[|before|].1]
  {
    assert forall i :: 0 <= i < |before| ==> after[i] == before[i];
  }

  /** The delivered list kept in the state is exactly what the pops handed out. */
  lemma {:induction false} OutputsAreDelivered(ops: seq<Op>)
    requires Run(Empty, ops).InOrder?
    ensures Outputs(Empty, ops) == Packets(Run(Empty, ops).play.delivered)
  {
    var ops' := ops[..|ops| - 1];
    var s, op := Run(Empty, ops'), ops[|ops| - 1];
    RunKeepsInv(ops');
    if s.InOrder? {
      OutputsAreDelivered(ops');
      OpDelivers(s, op);
      if op.PopOp? && Pop(s, op.now).1.Played? {
        PacketsGrow(s.play.delivered, Run(Empty, ops).play.delivered);
      }
    } else {
      EmptyRunsAreSilent(ops');
    }
  }

  lemma {:induction false} EmptyRunsAreSilent(ops: seq<Op>)
    requires Run(Empty, ops).Empty?
    ensures Outputs(Empty, ops) == []
  {
    if ops != [] {
      var s := Run(Empty, ops[..|ops| - 1]);
      assert s.Empty?;
      EmptyRunsAreSilent(ops[..|ops| - 1]);
    }
  }

  /**
    Over every run the frames handed to the decoder have strictly increasing unwrapped
    numbers, each is the packet accepted under that number, and every accepted packet is
    either among them or still waiting at or ahead of `next`: nothing plays twice, out of
    order, altered, or is lost after acceptance.
    */
  lemma {:induction false} PlaysInOrderOnce(ops: seq<Op>) returns (numbers: seq<int>)
    requires Run(Empty, ops).InOrder?
    ensures var p := Run(Empty, ops).play;
      var out := Outputs(Empty, ops);
      && |numbers| == |out|
      && (forall i, j :: 0 <= i < j < |numbers| ==> numbers[i] < numbers[j])
      && (forall i :: 0 <= i < |out| ==>
            && numbers[i] in p.accepted && p.accepted[numbers[i]] == out[i]
            && out[i].sequence == numbers[i] % 0x1_0000)
      && (forall u :: u in p.accepted <==> u in p.window || u in numbers)
      && (forall u :: u in p.window ==> p.next <= u && u !in numbers)
  {
    RunKeepsInv(ops);
    OutputsAreDelivered(ops);
    var p := Run(Empty, ops).play;
    numbers := seq(|p.delivered|, i requires 0 <= i < |p.delivered| => p.delivered[i].0);
    AcceptedNumbersMatch(ops);
    assert forall i :: 0 <= i < |numbers| ==> numbers[i] == p.delivered[i].0;
    forall u
      ensures IsDelivered(p.delivered, u) <==> u in numbers
    {
      if IsDelivered(p.delivered, u) {
        var i :| 0 <= i < |p.delivered| && p.delivered[i].0 == u;
        assert numbers[i] == u;
      }
    }
  }

  /** Accepted packets carry the number they were filed under. */
  lemma {:induction false} AcceptedNumbersMatch(ops: seq<Op>)
    requires Run(Empty, ops).InOrder?
    ensures var p := Run(Empty, ops).play;
      forall u :: u in p.accepted ==> p.accepted[u].sequence == u % 0x1_0000
  {
    var ops' := ops[..|ops| - 1];
    var s := Run(Empty, ops');
    RunKeepsInv(ops');
    if s.InOrder? {
      AcceptedNumbersMatch(ops');
      match ops[|ops| - 1]
      case PushOp(k, _) => PushKeepsInv(s.play, k);
      case PopOp(now) =>
        var c := Start(s.play.clock, |s.play.window|, now);
        if Due(c, s.play.next in s.play.window, now) {
          PopKeepsInv(s.play, Tick(c));
        }
    }
  }

  /** The rewind after a silent gap stays ahead of everything delivered and is the only move back in playout. */
  lemma RewindStaysAhead(p: Play, k: Packet)
    requires Inv(p) && p.clock.started
    ensures var (p', r) := PushInOrder(p, k);
      p'.next < p.next ==>
        && r.PushOk? && p.window == map[] && p.next - p'.next <= EMPTY_MISSING_LIMIT
        && p'.next == Unwrap(p.next, k.sequence)
        && forall i :: 0 <= i < |p.delivered| ==> p.delivered[i].0 < p'.next
  {
  }

  // ------------------------------------------------------------- delay

  /** State after n pops that are all past their deadline and see no push. */
  function Drain(p: Play, n: nat): Play
    decreases n
  {
    if n == 0 then p else Drain(PopInOrder(p).0, n - 1)
  }

  /** A waiting packet plays on exactly the (u - next + 1)-th due pop. */
  lemma {:induction false} WaitingPacketPlays(p: Play, u: int)
    requires Inv(p) && p.clock.started && u in p.window
    ensures u - p.next + 1 <= CAPACITY
    ensures var before := Drain(p, u - p.next);
      && before.next == u && u in before.window
      && PopInOrder(before).1 == Played(p.window[u])
    decreases u - p.next
  {
    if u > p.next {
      PopKeepsInv(p, p.clock);
      var q := PopInOrder(p).0;
      assert p.(clock := p.clock) == p;
      WaitingPacketPlays(q, u);
    }
  }
}
