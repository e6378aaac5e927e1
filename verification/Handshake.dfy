/**
  How a node becomes a member: it hears a SYNC, asks to join, is acknowledged, is heard, and adopts the slot map; and
  which events it ignores on the way.
  */
module Handshake {
  import opened Common
  import opened SlotMaps
  import opened Membership
  import opened PeerSpec
  import opened PeerRuns
  import opened CoordinatorMaps

  // ------------------------------------------------------ packets of a coordinator

  /** The SYNC that a coordinator sends. */
  function SyncOf(n: Node): Event { Sync(n.me.nodeId, true, n.me.address) }

  /** mesh_protocol_tx_send_join_ack. */
  function AckOf(n: Node, id: Byte, slot: Byte, target: Address): Event {
    JoinAck(n.me.nodeId, true, id, slot, n.me.nodeId, target)
  }

  /** What process_join sends for a request that it grants: id and slot of the requester's row. */
  ghost predicate Acknowledges(n: Node, address: Address, now: int, after: Node, ack: Event) {
    && Inv(n) && n.me.role == Coordinator && Joined(n, address, now).0 == after && Joined(n, address, now).1 != 0
    && exists i :: 0 <= i < |after.rows| && after.rows[i].active && after.rows[i].address == address
         && 0 <= after.rows[i].slotIndex < 256
         && ack == AckOf(after, Joined(n, address, now).1, after.rows[i].slotIndex, address)
  }

  // ------------------------------------------------------------------- discovery

  /** An address that can lead: of one to six bytes, and neither all zeros nor all ones. */
  predicate CanLead(a: Address) { 1 <= |a| <= 6 && !Uniform(a, 0) && !Uniform(a, 255) }

  /** A SYNC that means anything to a node comes from a valid id, with another address that can lead. */
  predicate Meant(s: Snapshot, e: Event) {
    && e.Sync? && e.payloadValid && 1 <= e.senderId <= 8 && CanLead(e.coordinatorAddress)
    && |e.coordinatorAddress| == |s.address| && e.coordinatorAddress != s.address
  }

  /** A scanning node joins whoever it hears first, and changes nothing else. */
  lemma ScannerDiscovers(s: Snapshot, e: Event)
    requires s.state == Scanning && e.Sync?
    ensures var r := Reduce(s, e);
      if Meant(s, e) then r.next == s.(state := Joining, coordinatorId := e.senderId) && r.action == DiscoverCoordinator
      else r.next == s && r.action == Ignore
  {
  }

  /** A participant follows the SYNC of its own coordinator and of no other; a SYNC changes nothing in it. */
  lemma ParticipantFollows(s: Snapshot, e: Event)
    requires s.state == Active && s.role == Participant && e.Sync?
    ensures Reduce(s, e).next == s
    ensures Reduce(s, e).action == if Meant(s, e) && e.senderId == s.coordinatorId then AcceptSync else Ignore
  {
  }

  /** A deposed coordinator gives everything up and joins the winner; any other SYNC leaves it as it is. */
  lemma DeposedJoinsWinner(s: Snapshot, e: Event)
    requires Leads(s) && e.Sync? && 1 <= |s.address| <= 6
    ensures var r := Reduce(s, e);
      if Meant(s, e) && Lower(e.coordinatorAddress, s.address) then
        r.next == Snapshot(Joining, NoRole, 0, -1, e.senderId, 0, false, s.address) && r.action == DemoteCoordinator
      else r.next == s && (r.localWin <==> Meant(s, e)) && r.action == if Meant(s, e) then KeepCoordinator else Ignore
  {
  }

  /** Idle and joining nodes ignore every SYNC. */
  lemma OthersIgnoreSync(s: Snapshot, e: Event)
    requires (s.state == Idle || s.state == Joining) && e.Sync?
    ensures Reduce(s, e).next == s && Reduce(s, e).action == Ignore
  {
  }

  // -------------------------------------------------------------------- joining

  /** Only a joining node adopts an acknowledgement, and only one for its own address from the node it joins. */
  lemma AckIgnored(s: Snapshot, e: Event)
    requires e.JoinAck?
    requires s.state != Joining || !e.payloadValid || e.target != s.address || e.senderId != e.coordinatorId
             || (s.coordinatorId != 0 && e.senderId != s.coordinatorId)
    ensures Reduce(s, e).next == s && Reduce(s, e).action == Ignore
  {
  }

  /** A well-formed one makes it the participant that it names, under its sender. */
  lemma AckAdopted(s: Snapshot, e: Event)
    requires e.JoinAck? && s.state == Joining && e.payloadValid && e.target == s.address
    requires e.senderId == e.coordinatorId && (s.coordinatorId == 0 || s.coordinatorId == e.senderId)
    ensures var r := Reduce(s, e);
      if && 1 <= e.assignedId <= 8 && 1 <= e.senderId <= 8 && e.assignedId != e.senderId && 1 <= e.slot < 8
         && 1 <= |s.address| <= 6 then
        && r.next == Snapshot(Active, Participant, e.assignedId, e.slot, e.senderId, 1, false, s.address)
        && r.action == ActivateParticipant
      else r.next == s && r.action == Ignore
  {
  }

  /**
    The acknowledgement of a granted request makes the requester a participant under the coordinator, with the id and
    the slot of its row; that row is not the coordinator's own.
    */
  lemma HandshakeCompletes(n: Node, peer: Snapshot, now: int, after: Node, ack: Event)
    requires Acknowledges(n, peer.address, now, after, ack)
    requires peer.state == Joining && LengthValid(peer.address) && peer.address != n.me.address
    requires peer.coordinatorId == 0 || peer.coordinatorId == n.me.nodeId
    ensures Inv(after) && after.me == n.me && after.grants == n.grants
    ensures var i, r := FindAddress(after.rows, peer.address), Reduce(peer, ack);
      && 0 < i < |after.rows| && after.rows[i].active && r.action == ActivateParticipant
      && r.next == Snapshot(Active, Participant, after.rows[i].nodeId, after.rows[i].slotIndex, n.me.nodeId, 1, false,
                            peer.address)
  {
    JoinIsRecorded(n, peer.address, now);
    JoinedKeepsInv(n, peer.address, now);
    var i := FindAddress(after.rows, peer.address);
    assert after.rows[i].nodeId != after.rows[0].nodeId;
    AckAdopted(peer, ack);
  }

  /** To any other node it means nothing. */
  lemma AckConcernsTarget(n: Node, address: Address, now: int, after: Node, ack: Event, other: Snapshot)
    requires Acknowledges(n, address, now, after, ack) && other.address != address
    ensures Reduce(other, ack).next == other && Reduce(other, ack).action == Ignore
  {
  }

  // ------------------------------------------------------------------ slot maps

  /** A map is adopted only by a participant, from its own coordinator, and only if it is consistent. */
  lemma MapIgnored(s: Snapshot, sender: Byte, valid: bool, m: SlotMap)
    requires WireSized(m)
    requires s.state != Active || s.role != Participant || sender != s.coordinatorId || !valid
             || !MapOk(m, s.nodeId, s.coordinatorId)
    ensures Reduce(s, SlotMapEvent(sender, valid, m)).next == s
    ensures Reduce(s, SlotMapEvent(sender, valid, m)).action == Ignore
  {
  }

  /** An adopted map names its coordinator first, the node in a later slot, and each member once. */
  lemma MapAdopted(n: Node, sender: Byte, valid: bool, m: SlotMap)
    requires WireSized(m) && Reduce(n.me, SlotMapEvent(sender, valid, m)).action == ApplySlotMap
    ensures valid && sender == n.me.coordinatorId && n.me.state == Active && n.me.role == Participant
    ensures 1 <= m.slotCount <= 8 && m.slotIds[0] == sender && n.me.nodeId != sender && m.speakerCount <= 2
    ensures forall s, t :: 0 <= s < t < m.slotCount && m.slotIds[s] != 0 ==> m.slotIds[s] != m.slotIds[t]
    ensures forall s :: 0 <= s < m.slotCount ==> m.slotIds[s] <= 8
    ensures var after := Reduced(n, SlotMapEvent(sender, valid, m)).me;
      && 1 <= after.slotIndex < m.slotCount && m.slotIds[after.slotIndex] == n.me.nodeId && after.known
      && after.peerCount as int == CountNamed(m.slotIds[..m.slotCount]) - 1
  {
    var members := Members(m);
    var k :| 0 <= k < |members[1..]| && members[1..][k] == n.me.nodeId;
    assert members[k + 1] == n.me.nodeId && members[0] == sender;
  }

  /** The grants are then those it names, distinct members all of them. */
  lemma GrantsAdopted(n: Node, sender: Byte, valid: bool, m: SlotMap)
    requires WireSized(m) && Reduce(n.me, SlotMapEvent(sender, valid, m)).action == ApplySlotMap
    ensures m.speakerCount <= 2 && m.slotCount <= 8
    ensures var grants := Reduced(n, SlotMapEvent(sender, valid, m)).grants;
      && |grants| == 2 && (forall k :: 0 <= k < 2 ==> grants[k] == if k < m.speakerCount then m.speakerIds[k] else 0)
      && (forall k :: 0 <= k < m.speakerCount ==> grants[k] != 0 && grants[k] in m.slotIds[..m.slotCount])
      && (m.speakerCount == 2 ==> grants[0] != grants[1])
  {
    var speakers := Speakers(m);
    assert forall k :: 0 <= k < m.speakerCount ==> speakers[k] == m.speakerIds[k] && speakers[k] in Members(m);
  }

  /** Row i is heard for the first time. */
  lemma FirstHeard(n: Node, i: nat, t: int)
    requires Inv(n) && n.me.role == Coordinator && 0 < i < |n.rows| && n.rows[i].active
    ensures var m := Heard(n, n.rows[i].nodeId, t);
      && Participates(m, i) && m.me.(peerCount := 0) == n.me.(peerCount := 0) && m.grants == n.grants
      && m.rows[i].nodeId == n.rows[i].nodeId && m.rows[i].slotIndex == n.rows[i].slotIndex
  {
    FindIdUnique(n.rows, i);
    HeardKeepsInv(n, n.rows[i].nodeId, t);
  }

  lemma CompactGrants(grants: seq<Byte>, rows: seq<Row>)
    requires |grants| == MAX_SPEAKERS && GrantsOk(rows, grants)
    ensures GrantsIn(SlotMap(MAX_NODES, NO_SLOTS, CountNamed(grants), grants)) == grants
  {
    assert grants == [grants[0], grants[1]] && grants[..1] == [grants[0]];
    assert CountNamed(grants[..1]) == if grants[0] != 0 then 1 else 0;
  }

  /** The map that a coordinator sends, as it meets the node in row i. */
  lemma MemberAdopts(m: Node, i: nat, joined: Node)
    requires Participates(m, i) && joined.me.state == Active && joined.me.role == Participant
    requires joined.me.nodeId == m.rows[i].nodeId && joined.me.coordinatorId == m.me.nodeId
    ensures var member := Reduced(joined, SlotMapEvent(m.me.nodeId, true, SentMap(m)));
      if GrantsOk(m.rows, m.grants) then
        && member.me.nodeId == m.rows[i].nodeId && member.me.slotIndex == m.rows[i].slotIndex
        && member.me.peerCount == m.me.peerCount && member.me.known && member.grants == m.grants
      else member == joined
  {
    PeersAgree(m, i, joined.me);
    if GrantsOk(m.rows, m.grants) {
      CompactGrants(m.grants, m.rows);
    }
  }

  /** The node is a participant after SYNC and acknowledgement. */
  lemma ScannerJoins(n: Node, p: Node, now: int, after: Node, ack: Event)
    requires Inv(p) && p.me.state == Scanning && p.me.role == NoRole && Acknowledges(n, p.me.address, now, after, ack)
    requires CanLead(n.me.address) && |n.me.address| == |p.me.address| && n.me.address != p.me.address
    ensures var i, joined := FindAddress(after.rows, p.me.address), Reduced(Reduced(p, SyncOf(n)), ack);
      && Inv(after) && after.me == n.me && 0 < i < |after.rows| && after.rows[i].active
      && joined.me.state == Active && joined.me.role == Participant
      && joined.me.nodeId == after.rows[i].nodeId && joined.me.coordinatorId == n.me.nodeId
  {
    ScannerDiscovers(p.me, SyncOf(n));
    HandshakeCompletes(n, Reduced(p, SyncOf(n)).me, now, after, ack);
  }

  /**
    The whole way in: a scanning node hears a coordinator's SYNC, its request is granted and acknowledged, the
    coordinator hears it and sends its map. The node adopts the map exactly if the grants are compact, distinct and
    announced, and then agrees with the coordinator on its slot, on the number of peers and on the grants.
    */
  lemma ScannerBecomesMember(n: Node, p: Node, now: int, after: Node, ack: Event, t: int)
    requires Inv(p) && p.me.state == Scanning && p.me.role == NoRole && Acknowledges(n, p.me.address, now, after, ack)
    requires CanLead(n.me.address) && |n.me.address| == |p.me.address| && n.me.address != p.me.address
    ensures var i := FindAddress(after.rows, p.me.address);
      && 0 < i < |after.rows|
      && var m := Heard(after, after.rows[i].nodeId, t);
         && Participates(m, i)
         && var joined := Reduced(Reduced(p, SyncOf(n)), ack);
            var member := Reduced(joined, SlotMapEvent(m.me.nodeId, true, SentMap(m)));
            if GrantsOk(m.rows, m.grants) then
              && member.me.nodeId == m.rows[i].nodeId && member.me.slotIndex == m.rows[i].slotIndex
              && member.me.peerCount == m.me.peerCount && member.me.known && member.grants == m.grants
            else member == joined
  {
    ScannerJoins(n, p, now, after, ack);
    var i := FindAddress(after.rows, p.me.address);
    FirstHeard(after, i, t);
    MemberAdopts(Heard(after, after.rows[i].nodeId, t), i, Reduced(Reduced(p, SyncOf(n)), ack));
  }

  // --------------------------------------------------------------------- leaves

  /** A LEAVE is honoured exactly if it is no echo of the node's own and names an active peer by id, and by address. */
  lemma LeaveVerdict(s: Snapshot, e: Event)
    requires e.Leave?
    ensures var r := Reduce(s, e);
      && !r.localWin && (r.action == Ignore <==> r.action != RemovePeer) && (r.action == Ignore ==> r.next == s)
      && (r.action == RemovePeer <==>
            && 1 <= e.senderId <= 8 && e.senderId != s.nodeId && e.payloadValid
            && e.peer.present && e.peer.active && e.peer.nodeId == e.senderId
            && (e.identity.Legacy?
                || (e.identity.ByAddress? && 1 <= |e.peer.address| <= 6 && e.identity.sender == e.peer.address)))
  {
  }

  /** A LEAVE that removes a row is reported if the peer was announced, and asks a coordinator for a map. */
  lemma LeaveEffects(n: Node, sender: Byte, identity: Identity)
    requires Inv(n)
    ensures var r, i := Reduce(n.me, LeaveEvent(n, sender, identity)), FindId(n.rows, sender);
      var gone := Left(n, sender, identity) != n;
      && (r.action == RemovePeer <==> gone) && (gone ==> i < |n.rows| && r.affected == sender)
      && (r.peerLeft <==> gone && n.rows[i].announced) && (r.publishSlotMap <==> gone && n.me.role == Coordinator)
  {
    LeftRemoves(n, sender, identity);
  }
}
