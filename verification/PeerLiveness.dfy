/**
  Which peers the timeout sweep spares and which it removes, over runs of a node.
  */
module PeerLiveness {
  import opened Common
  import opened SlotMaps
  import opened Membership
  import opened PeerSpec
  import opened PeerRuns

  /** A member with this id is in the table and was heard at t or later. */
  ghost predicate HeardSince(n: Node, id: Byte, t: int) {
    exists i :: 0 <= i < |n.rows| && n.rows[i].active && n.rows[i].nodeId == id && n.rows[i].lastSeen >= t
  }

  /** Every member with this address has this id and was last heard at t or before. */
  ghost predicate SilentSince(n: Node, a: Address, id: Byte, t: int) {
    forall i :: 0 <= i < |n.rows| && n.rows[i].active && n.rows[i].address == a ==>
      n.rows[i].nodeId == id && n.rows[i].lastSeen <= t
  }

  /** What a packet of a member does: its time is noted, and a coordinator announces it once. */
  lemma HeardNotes(n: Node, i: nat, now: int)
    requires Inv(n) && i < |n.rows| && n.rows[i].active
    ensures var m := Heard(n, n.rows[i].nodeId, now);
      && m.rows == n.rows[i := n.rows[i].(lastSeen := now, announced := true)] && m.grants == n.grants
      && m.me.(peerCount := 0) == n.me.(peerCount := 0)
      && m.me.peerCount as int == n.me.peerCount + (if n.rows[i].announced then 0 else 1)
  {
    FindIdUnique(n.rows, i);
    if !n.rows[i].announced {
      AnnounceKeepsInv(n, i, now);
    }
  }

  /** A packet from an id that is in no row changes nothing. */
  lemma StrangerIgnored(n: Node, id: Byte, now: int)
    requires forall i :: 0 <= i < |n.rows| && n.rows[i].active ==> n.rows[i].nodeId != id
    ensures Heard(n, id, now) == n
  {
  }

  // ------------------------------------------------------------------- spared

  /** The step does not end the membership of `id` itself, and happens between t and 3 s later. */
  predicate Within3s(step: Step, id: Byte, t: int) {
    match step
    case HearPeer(_, now) => t <= now
    case HearJoin(_, _, _, now) => t <= now
    case HearLeave(sender, _) => sender != id
    case CheckTimeouts(now) => now <= t + 3000
    case _ => true
  }

  lemma SweepSpares(n: Node, id: Byte, t: int, now: int)
    requires HeardSince(n, id, t) && now <= t + 3000
    ensures HeardSince(TimedOut(n, now, 0), id, t)
  {
    TimedOutRows(n, now, 0);
    var i :| 0 <= i < |n.rows| && n.rows[i].active && n.rows[i].nodeId == id && n.rows[i].lastSeen >= t;
    assert TimedOut(n, now, 0).rows[i] == n.rows[i];
  }

  lemma HeardSpares(n: Node, other: Byte, id: Byte, t: int, now: int)
    requires HeardSince(n, id, t) && t <= now
    ensures HeardSince(Heard(n, other, now), id, t)
  {
    var i :| 0 <= i < |n.rows| && n.rows[i].active && n.rows[i].nodeId == id && n.rows[i].lastSeen >= t;
    var after := Heard(n, other, now).rows[i];
    assert after.active && after.nodeId == id && after.lastSeen >= t;
  }

  lemma JoinSpares(n: Node, a: Address, id: Byte, t: int, now: int)
    requires HeardSince(n, id, t) && t <= now
    ensures HeardSince(Joined(n, a, now).0, id, t)
  {
    var i :| 0 <= i < |n.rows| && n.rows[i].active && n.rows[i].nodeId == id && n.rows[i].lastSeen >= t;
    var after := Joined(n, a, now).0.rows[i];
    assert after.active && after.nodeId == id && after.lastSeen >= t;
  }

  lemma LeaveSpares(n: Node, sender: Byte, identity: Identity, id: Byte, t: int)
    requires Inv(n) && HeardSince(n, id, t) && sender != id
    ensures HeardSince(Left(n, sender, identity), id, t)
  {
    LeftRemoves(n, sender, identity);
    var i :| 0 <= i < |n.rows| && n.rows[i].active && n.rows[i].nodeId == id && n.rows[i].lastSeen >= t;
    assert Left(n, sender, identity).rows[i] == n.rows[i];
  }

  lemma StepSpares(n: Node, step: Step, id: Byte, t: int)
    requires Inv(n) && StepOk(step) && Within3s(step, id, t)
    requires HeardSince(n, id, t) && n.me.role == Take(n, step).me.role == Coordinator
    ensures HeardSince(Take(n, step), id, t)
  {
    match step
    case HearPeer(other, now) => HeardSpares(n, other, id, t, now);
    case HearJoin(_, _, requester, now) => JoinSpares(n, requester, id, t, now);
    case HearLeave(sender, identity) => LeaveSpares(n, sender, identity, id, t);
    case CheckTimeouts(now) => SweepSpares(n, id, t, now);
    case HearEvent(e) => LeadershipChanges(n.me, e);
    case _ =>
      assert Take(n, step).rows == n.rows || step.Stop?;
  }

  /** The node coordinates all through a run. */
  ghost predicate Coordinates(n: Node, steps: seq<Step>)
    requires |n.rows| == MAX_NODES && forall k :: 0 <= k < |steps| ==> StepOk(steps[k])
    decreases |steps|
  {
    Run(n, steps).me.role == Coordinator && (steps != [] ==> Coordinates(n, steps[..|steps| - 1]))
  }

  /**
    A member of a coordinator's table that is heard at t is still in the table after any steps up to 3 s later, but for
    its own LEAVE and the end of the session.
    */
  lemma {:induction false} HeardPeerStays(n: Node, i: nat, t: int, steps: seq<Step>)
    requires Inv(n) && i < |n.rows| && n.rows[i].active && forall k :: 0 <= k < |steps| ==> StepOk(steps[k])
    requires forall k :: 0 <= k < |steps| ==> Within3s(steps[k], n.rows[i].nodeId, t)
    requires |Heard(n, n.rows[i].nodeId, t).rows| == MAX_NODES && Coordinates(Heard(n, n.rows[i].nodeId, t), steps)
    ensures HeardSince(Run(Heard(n, n.rows[i].nodeId, t), steps), n.rows[i].nodeId, t)
    decreases |steps|
  {
    var id := n.rows[i].nodeId;
    var m := Heard(n, id, t);
    HeardKeepsInv(n, id, t);
    if steps == [] {
      HeardNotes(n, i, t);
      assert m.rows[i].lastSeen == t;
    } else {
      var front := steps[..|steps| - 1];
      HeardPeerStays(n, i, t, front);
      RunKeepsInv(m, front);
      StepSpares(Run(m, front), steps[|steps| - 1], id, t);
    }
  }

  // ------------------------------------------------------------------ removed

  /** The step brings no packet from the member with this id and address. */
  predicate NothingFrom(step: Step, a: Address, id: Byte) {
    match step
    case HearPeer(other, _) => other != id
    case HearJoin(_, _, requester, _) => requester != a
    case _ => true
  }

  lemma HeardStaysSilent(n: Node, other: Byte, a: Address, id: Byte, t: int, now: int)
    requires SilentSince(n, a, id, t) && other != id
    ensures SilentSince(Heard(n, other, now), a, id, t) && Heard(n, other, now).me.address == n.me.address
  {
  }

  lemma JoinStaysSilent(n: Node, requester: Address, a: Address, id: Byte, t: int, now: int)
    requires SilentSince(n, a, id, t) && requester != a
    ensures SilentSince(Joined(n, requester, now).0, a, id, t) && Joined(n, requester, now).0.me == n.me
  {
  }

  lemma StepStaysSilent(n: Node, step: Step, a: Address, id: Byte, t: int)
    requires Inv(n) && StepOk(step) && NothingFrom(step, a, id) && a != n.me.address
    requires SilentSince(n, a, id, t)
    ensures SilentSince(Take(n, step), a, id, t) && Take(n, step).me.address == n.me.address
  {
    match step
    case HearPeer(other, now) => HeardStaysSilent(n, other, a, id, t, now);
    case HearJoin(_, _, requester, now) => JoinStaysSilent(n, requester, a, id, t, now);
    case HearLeave(sender, identity) => LeftRemoves(n, sender, identity);
    case CheckTimeouts(now) =>
      TimedOutRows(n, now, 0);
      TimedOutAddress(n, now, 0);
    case HearEvent(e) => LeadershipChanges(n.me, e);
    case _ =>
  }

  lemma {:induction false} TimedOutAddress(n: Node, now: int, i: nat)
    requires i <= |n.rows|
    ensures TimedOut(n, now, i).me.(peerCount := 0) == n.me.(peerCount := 0)
    decreases |n.rows| - i
  {
    if i < |n.rows| {
      TimedOutAddress(if Silent(n, n.rows[i], now) then Removed(n, i) else n, now, i + 1);
    }
  }

  lemma {:induction false} RunStaysSilent(n: Node, a: Address, id: Byte, t: int, steps: seq<Step>)
    requires Inv(n) && SilentSince(n, a, id, t) && a != n.me.address
    requires forall k :: 0 <= k < |steps| ==> StepOk(steps[k]) && NothingFrom(steps[k], a, id)
    ensures SilentSince(Run(n, steps), a, id, t) && Run(n, steps).me.address == n.me.address
    decreases |steps|
  {
    if steps != [] {
      var front := steps[..|steps| - 1];
      RunStaysSilent(n, a, id, t, front);
      RunKeepsInv(n, front);
      StepStaysSilent(Run(n, front), steps[|steps| - 1], a, id, t);
    }
  }

  /** A member that nothing was heard from since t is gone after any sweep more than 3 s later. */
  lemma SilentPeerGoes(n: Node, i: nat, t: int, steps: seq<Step>, now: int)
    requires Inv(n) && 0 < i < |n.rows| && n.rows[i].active && n.rows[i].lastSeen <= t && now > t + 3000
    requires forall k :: 0 <= k < |steps| ==>
               StepOk(steps[k]) && NothingFrom(steps[k], n.rows[i].address, n.rows[i].nodeId)
    ensures var after := TimedOut(Run(n, steps), now, 0);
      forall j :: 0 <= j < |after.rows| && after.rows[j].active ==> after.rows[j].address != n.rows[i].address
  {
    var a, id := n.rows[i].address, n.rows[i].nodeId;
    assert a != n.rows[0].address && id != n.rows[0].nodeId;
    RunStaysSilent(n, a, id, t, steps);
    RunKeepsInv(n, steps);
    var m := Run(n, steps);
    TimedOutRows(m, now, 0);
    forall j | 0 <= j < |m.rows| && m.rows[j].active && m.rows[j].address == a
      ensures Silent(m, m.rows[j], now)
    {
      assert m.rows[j].nodeId == id && m.me.nodeId == 1 && m.me.coordinatorId == 1;
    }
  }

  /** The sweep never takes the node's own row nor its coordinator's. */
  lemma SweepKeepsOwn(n: Node, now: int, j: nat)
    requires Inv(n) && j < |n.rows| && (n.rows[j].nodeId == n.me.nodeId || n.rows[j].nodeId == n.me.coordinatorId)
    ensures |TimedOut(n, now, 0).rows| == |n.rows| && TimedOut(n, now, 0).rows[j] == n.rows[j]
  {
    TimedOutRows(n, now, 0);
  }

  // ----------------------------------------------------------------- requests

  /** Only a coordinator answers a JOIN, only from a node that has no id yet, and only one of the right size. */
  lemma JoinRequests(n: Node, source: Byte, sized: bool, requester: Address, now: int)
    requires Inv(n)
    ensures Take(n, HearJoin(source, sized, requester, now)) ==
              if n.me.role == Coordinator && source == 0 && sized then Joined(n, requester, now).0 else n
    ensures Take(n, HearPeer(source, now)) == Heard(n, source, now)
    ensures forall grants: seq<Byte> :: |grants| == 2 ==> Take(n, ChangeGrants(grants)) == n.(grants := grants)
  {
  }

  // ----------------------------------------------------------------- sessions

  /** A scan that heard nobody makes the node coordinator 1 in slot 0, alone in its table. */
  lemma ScanMakesCoordinator(n: Node, now: int)
    requires Inv(n) && n.me.state == Scanning
    ensures var m := ScanExpired(n, now);
      && m.me == Snapshot(Active, Coordinator, 1, 0, 1, 0, n.me.known, n.me.address) && m.grants == n.grants
      && m.rows[0] == Row(true, true, 1, 0, n.me.address, now)
      && forall i :: 1 <= i < |m.rows| ==> m.rows[i] == n.rows[i] && !m.rows[i].active
  {
  }

  /** A node that gives up its session, by a stop or for want of its coordinator, keeps nothing of it. */
  lemma SessionEnds(n: Node, step: Step)
    requires Inv(n) && (step.Stop? || (step.CoordinatorLost? && n.me.role == Participant))
    ensures var m := Take(n, step);
      && m.me == Snapshot(if step.Stop? then Idle else Scanning, NoRole, 0, -1, 0, 0, n.me.known, n.me.address)
      && m.grants == [0, 0] && forall i :: 0 <= i < |m.rows| ==> !m.rows[i].active
  {
  }

  /** Other transitions between idle, scanning and joining move only the state, or forget the coordinator to join. */
  lemma SearchContinues(n: Node, step: Step)
    requires Inv(n) && (step.Start? || step.JoinRetriesSpent? || (step.CoordinatorLost? && n.me.role != Participant))
    ensures var m := Take(n, step);
      if step.Start? && n.me.state == Idle then m == n.(me := n.me.(state := Scanning))
      else if step.JoinRetriesSpent? && n.me.state == Joining then
        m == n.(me := Snapshot(Scanning, NoRole, 0, -1, 0, n.me.peerCount, n.me.known, n.me.address))
      else m == n
  {
  }
}
