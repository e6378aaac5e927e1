/**
  The operations of the transport are runs of the step system of ControlRuns, so nothing heard is lost through them.
  */
module ControlLink {
  import opened Common
  import opened ControlSpec
  import opened ControlRuns
  import opened ControlQueue

  lemma ThenRun(s: System, step: Step, rest: seq<Step>)
    requires Inv(s) && Enabled(s, step) && Inv(Next(s, step)) && RunOk(Next(s, step), rest)
    ensures RunOk(s, [step] + rest) && Run(s, [step] + rest) == Run(Next(s, step), rest)
  {
  }

  lemma GiveBackRun(s: System, hand: nat)
    requires Inv(s) && Enabled(s, GiveBack(hand))
    ensures RunOk(s, [GiveBack(hand)]) && Run(s, [GiveBack(hand)]) == Next(s, GiveBack(hand))
  {
  }

  lemma JoinEmpty(marks: Marks)
    ensures Join(NO_MARKS, marks) == marks && Join(marks, NO_MARKS) == marks
  {
  }

  /** send_status takes the bitmaps, offers them, and returns what the queue refused or gave up for them. */
  lemma SendStatusIsARun(s: System, item: Item) returns (steps: seq<Step>)
    requires Inv(s) && IsStatus(item) && item.marks == s.live.marks
    ensures RunOk(s, steps)
    ensures var after, d := Run(s, steps), Decide(s.queue.items, item);
      && after.queue == Enqueue(s.queue, item) && after.flight == s.flight
      && after.live.marks == (if d.Reject? then s.live.marks
                              else if d.Evict? then BitsOf(s.queue.items[d.victim]) else NO_MARKS)
  {
    var hand, d := |s.hands|, Decide(s.queue.items, item);
    var offer := Offer(hand, item);
    NextKeepsInv(s, Snapshot);
    var taken := Next(s, Snapshot);
    NextKeepsInv(taken, offer);
    var offered := Next(taken, offer);
    var rest: seq<Step> := [];
    if d.Reject? {
      JoinEmpty(s.live.marks);
      GiveBackRun(offered, hand);
      rest := [GiveBack(hand)];
    } else if d.Evict? && s.queue.items[d.victim].kind == STATUS {
      assert ItemFaithful(s.notes, s.queue.items[d.victim], s.queued[d.victim]);
      JoinEmpty(s.queue.items[d.victim].marks);
      GiveBackRun(offered, hand + 1);
      rest := [GiveBack(hand + 1)];
    }
    ThenRun(taken, offer, rest);
    ThenRun(s, Snapshot, [offer] + rest);
    steps := [Snapshot] + ([offer] + rest);
  }

  /** The control slot takes the packet that is due and launches it; if it is refused its bits are live again. */
  lemma SendNextIsARun(s: System, nowUs: int, sent: bool) returns (steps: seq<Step>)
    requires Inv(s) && s.queue.items != [] && s.flight.None?
    ensures RunOk(s, steps)
    ensures var after, (rest, item) := Run(s, steps), Dequeue(s.queue, nowUs);
      && after.queue == rest
      && (if sent then after.flight.Some? && after.flight.value.marks == BitsOf(item) && after.live == s.live
          else after.flight.None? && after.live.marks == Join(s.live.marks, BitsOf(item)))
  {
    var hand, take := |s.hands|, TakeNext(nowUs);
    var i := Select(s.queue.items, nowUs);
    assert ItemFaithful(s.notes, s.queue.items[i], s.queued[i]);
    NextKeepsInv(s, take);
    var taken := Next(s, take);
    var rest: seq<Step>;
    if sent {
      rest := LaunchRun(taken, hand);
    } else {
      GiveBackRun(taken, hand);
      rest := [GiveBack(hand)];
    }
    ThenRun(s, take, rest);
    steps := [take] + rest;
  }

  lemma LaunchRun(s: System, hand: nat) returns (steps: seq<Step>)
    requires Inv(s) && Holds(s, hand, false) && s.flight.None?
    ensures RunOk(s, steps)
    ensures Run(s, steps) == s.(flight := Some(s.hands[hand].holder), hands := s.hands[hand := IDLE])
  {
    NextKeepsInv(s, Launch(hand));
    var launched := Next(s, Launch(hand));
    NextKeepsInv(launched, Launched(hand));
    assert [Launched(hand)][1..] == [];
    ThenRun(launched, Launched(hand), []);
    assert [Launched(hand)] + [] == [Launched(hand)];
    ThenRun(s, Launch(hand), [Launched(hand)]);
    steps := [Launch(hand)] + [Launched(hand)];
  }
}
