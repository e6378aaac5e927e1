/**
  The membership code of the radio processor: the identity fields and the peer table, updated in place.
  */
module PeerTable {
  import opened Common
  import opened SlotMaps
  import opened Membership
  import opened PeerSpec
  import opened PeerRuns

  /** The node's id followed by those of the active rows. */
  function TakenIds(own: Byte, rows: seq<Row>): seq<Byte> {
    if rows == [] then [own]
    else
      var ids, r := TakenIds(own, rows[..|rows| - 1]), rows[|rows| - 1];
      if r.active then ids + [r.nodeId] else ids
  }

  lemma {:induction false} TakenIdsAreTaken(n: Node, id: Byte)
    ensures id in TakenIds(n.me.nodeId, n.rows) <==> Taken(n, id)
    decreases |n.rows|
  {
    if n.rows != [] {
      var front := n.(rows := n.rows[..|n.rows| - 1]);
      TakenIdsAreTaken(front, id);
      if Taken(n, id) && id != n.me.nodeId {
        var i :| 0 <= i < |n.rows| && HasId(n.rows[i], id);
        assert i < |front.rows| ==> HasId(front.rows[i], id);
      }
      if Taken(front, id) && id != n.me.nodeId {
        var i :| 0 <= i < |front.rows| && HasId(front.rows[i], id);
        assert HasId(n.rows[i], id);
      }
      assert HasId(n.rows[|n.rows| - 1], id) ==> Taken(n, id);
    }
  }

  /** The first id the bitmap leaves free is the lowest free id. */
  lemma FirstFreeIsLowest(n: Node, occupied: bv8, id: Byte)
    requires occupied == BitmapOf(TakenIds(n.me.nodeId, n.rows))
    requires id <= MAX_NODES && (id != 0 ==> !Has(occupied, id))
    requires forall j: Byte :: 0 < j < (if id != 0 then id else MAX_NODES + 1) ==> Has(occupied, j)
    ensures id == LowestFree(n, 1)
  {
    var ids, free := TakenIds(n.me.nodeId, n.rows), LowestFree(n, 1);
    BitmapMarks(ids, id);
    TakenIdsAreTaken(n, id);
    BitmapMarks(ids, free);
    TakenIdsAreTaken(n, free);
  }

  class MemberTable {
    var me: Snapshot
    var grants: seq<Byte>
    const rows: array<Row>

    ghost predicate Valid()
      reads this, rows
    {
      rows.Length == MAX_NODES && Inv(View())
    }

    ghost function View(): Node
      reads this, rows
    {
      Node(me, rows[..], grants)
    }

    /** A node starts idle and alone. */
    constructor (address: Address)
      ensures Valid() && fresh(rows)
      ensures me == Snapshot(Idle, NoRole, 0, -1, 0, 0, false, address) && grants == NO_GRANTS
    {
      grants := NO_GRANTS;
      me := Snapshot(Idle, NoRole, 0, -1, 0, 0, false, address);
      rows := new Row[MAX_NODES](_ => EMPTY_ROW);
    }

    // -------------------------------------------------------------- searches

    method SearchId(id: Byte) returns (i: nat)
      ensures i == FindId(rows[..], id)
    {
      i := 0;
      while i < rows.Length
        invariant i <= rows.Length && forall j :: 0 <= j < i ==> !HasId(rows[j], id)
      {
        if HasId(rows[i], id) {
          return;
        }
        i := i + 1;
      }
    }

    method SearchAddress(address: Address) returns (i: nat)
      ensures i == FindAddress(rows[..], address)
    {
      i := 0;
      while i < rows.Length
        invariant i <= rows.Length && forall j :: 0 <= j < i ==> !HasAddress(rows[j], address)
      {
        if HasAddress(rows[i], address) {
          return;
        }
        i := i + 1;
      }
    }

    method SearchFree() returns (i: nat)
      ensures i == FindFree(rows[..])
    {
      i := 0;
      while i < rows.Length
        invariant i <= rows.Length && forall j :: 0 <= j < i ==> rows[j].active
      {
        if !rows[i].active {
          return;
        }
        i := i + 1;
      }
    }

    method OccupiedIds() returns (occupied: bv8)
      ensures occupied == BitmapOf(TakenIds(me.nodeId, rows[..]))
    {
      occupied := NodeBit(me.nodeId);
      assert [me.nodeId] == [] + [me.nodeId];
      BitmapNext([], me.nodeId);
      for i := 0 to rows.Length
        invariant occupied == BitmapOf(TakenIds(me.nodeId, rows[..i]))
      {
        assert rows[..i + 1][..i] == rows[..i];
        if rows[i].active {
          BitmapNext(TakenIds(me.nodeId, rows[..i]), rows[i].nodeId);
          occupied := occupied | NodeBit(rows[i].nodeId);
        }
      }
      assert rows[..rows.Length] == rows[..];
    }

    // ------------------------------------------------------------- operations

    /** mesh_protocol_update_peer_last_seen; `announced` asks for a status, an event and a slot map. */
    method UpdatePeerLastSeen(id: Byte, now: int) returns (announced: bool)
      requires Valid()
      modifies this`me, rows
      ensures Valid() && View() == Heard(old(View()), id, now)
      ensures announced <==> me.peerCount != old(me.peerCount)
    {
      HeardKeepsInv(View(), id, now);
      announced := RefreshPeer(id, now);
    }

    method RefreshPeer(id: Byte, now: int) returns (announced: bool)
      modifies this`me, rows
      ensures View() == Heard(old(View()), id, now)
      ensures announced <==> me.peerCount != old(me.peerCount)
    {
      var i := SearchId(id);
      announced := false;
      if i < rows.Length {
        rows[i] := rows[i].(lastSeen := now);
        if !rows[i].announced && me.role == Coordinator {
          rows[i] := rows[i].(announced := true);
          me := me.(peerCount := (me.peerCount + 1) % 256);
          announced := true;
        }
      }
    }

    /** The row loop of process_join for an unknown requester. */
    method RecordPeer(id: Byte, address: Address, now: int)
      requires id != 0
      modifies rows
      ensures var row := FindFree(old(rows[..]));
        rows[..] == if row == rows.Length then old(rows[..])
                    else old(rows[..])[row := Row(true, false, id, SlotForNodeId(id), address, now)]
      ensures FindFree(old(rows[..])) < rows.Length ==>
                exists i ::
                  0 <= i < rows.Length && HasAddress(rows[i], address) && rows[i].slotIndex == SlotForNodeId(id)
    {
      var row := SearchFree();
      if row < rows.Length {
        rows[row] := Row(true, false, id, SlotForNodeId(id), address, now);
        assert HasAddress(rows[row], address);
      }
    }

    /** process_join: the id and slot acknowledged, or id 0 when the request is not answered. */
    method ProcessJoin(source: Byte, sized: bool, requester: Address, now: int) returns (id: Byte, slot: int)
      requires Valid()
      modifies rows
      ensures Valid()
      ensures old(me.role) != Coordinator || source != 0 || !sized ==> id == 0 && View() == old(View())
      ensures !(old(me.role) != Coordinator || source != 0 || !sized) ==>
                (View(), id) == Joined(old(View()), requester, now)
      ensures id != 0 ==>
                exists i :: 0 <= i < rows.Length && HasAddress(rows[i], requester) && rows[i].slotIndex == slot
    {
      if me.role != Coordinator || source != 0 || !sized {
        return 0, -1;
      }
      JoinedKeepsInv(View(), requester, now);
      FreeIdHasFreeRow(View());
      id, slot := AnswerJoin(requester, now);
    }

    method AnswerJoin(requester: Address, now: int) returns (id: Byte, slot: int)
      requires LowestFree(View(), 1) != 0 <==> FindFree(rows[..]) < rows.Length
      modifies rows
      ensures (View(), id) == Joined(old(View()), requester, now)
      ensures id != 0 ==>
                exists i :: 0 <= i < rows.Length && HasAddress(rows[i], requester) && rows[i].slotIndex == slot
    {
      var known := SearchAddress(requester);
      if known < rows.Length {
        id, slot := rows[known].nodeId, rows[known].slotIndex;
        rows[known] := rows[known].(lastSeen := now);
      } else {
        var occupied := OccupiedIds();
        id := FirstFreeNodeId(occupied);
        FirstFreeIsLowest(View(), occupied, id);
        slot := SlotForNodeId(id);
        if id != 0 {
          RecordPeer(id, requester, now);
        }
      }
    }

    /** process_leave; `publish` asks for a slot map. */
    method ProcessLeave(sender: Byte, identity: Identity) returns (publish: bool)
      requires Valid()
      modifies this`me, rows
      ensures Valid() && View() == Left(old(View()), sender, identity)
      ensures publish <==> me.role == Coordinator && View() != old(View())
    {
      LeftKeepsInv(View(), sender, identity);
      LeaveAsks(View(), sender, identity);
      publish := ReleasePeer(sender, identity);
    }

    method ReleasePeer(sender: Byte, identity: Identity) returns (publish: bool)
      modifies this`me, rows
      ensures View() == Left(old(View()), sender, identity)
      ensures publish == Reduce(old(me), LeaveEvent(old(View()), sender, identity)).publishSlotMap
    {
      var i := SearchId(sender);
      var peer := if i < rows.Length then Peer(true, true, rows[i].announced, rows[i].nodeId, rows[i].address)
        else Peer(false, false, false, 0, []);
      var transition := Reduce(me, Leave(sender, !identity.InvalidIdentity?, identity, peer));
      if sender == me.nodeId {
        return false;
      }
      if transition.action == RemovePeer && i < rows.Length {
        rows[i] := rows[i].(active := false);
        me := transition.next;
      }
      publish := transition.publishSlotMap;
    }

    method RemoveRow(i: nat)
      requires i < rows.Length
      modifies this`me, rows
      ensures View() == Removed(old(View()), i)
    {
      if rows[i].announced && me.peerCount > 0 {
        me := me.(peerCount := me.peerCount - 1);
      }
      rows[i] := rows[i].(active := false);
    }

    /** check_peer_timeouts; `changed` asks a coordinator for a slot map. */
    method CheckPeerTimeouts(now: int) returns (changed: bool)
      requires Valid()
      modifies this`me, rows
      ensures Valid() && View() == TimedOut(old(View()), now, 0)
      ensures changed <==> exists j :: 0 <= j < rows.Length && Silent(old(View()), old(rows[j]), now)
    {
      TimedOutKeepsInv(View(), now, 0);
      changed := SweepRows(now);
    }

    method SweepRows(now: int) returns (changed: bool)
      modifies this`me, rows
      ensures View() == TimedOut(old(View()), now, 0)
      ensures changed <==> exists j :: 0 <= j < rows.Length && Silent(old(View()), old(rows[j]), now)
    {
      changed := false;
      ghost var was := View();
      for i := 0 to rows.Length
        invariant TimedOut(View(), now, i) == TimedOut(was, now, 0)
        invariant me.nodeId == was.me.nodeId && me.coordinatorId == was.me.coordinatorId
        invariant forall j :: i <= j < rows.Length ==> rows[j] == was.rows[j]
        invariant changed <==> exists j :: 0 <= j < i && Silent(was, was.rows[j], now)
      {
        var r := rows[i];
        assert Silent(View(), r, now) == Silent(was, was.rows[i], now);
        if r.active && r.nodeId != me.nodeId && r.nodeId != me.coordinatorId && now - r.lastSeen > NODE_TIMEOUT_MS {
          RemoveRow(i);
          changed := true;
        }
      }
    }

    /** scan_work_handler. */
    method ScanWorkHandler(now: int)
      requires Valid()
      modifies this`me, rows
      ensures Valid() && View() == ScanExpired(old(View()), now)
    {
      ScanExpiredKeepsInv(View(), now);
      if me.state != Scanning {
        return;
      }
      me := me.(role := Coordinator, nodeId := 1, slotIndex := 0, coordinatorId := 1, state := Active);
      rows[0] := Row(true, true, 1, 0, me.address, now);
      me := me.(peerCount := 0);
    }

    /** The part of reset_session_data that concerns membership and grants. */
    method ResetSession()
      requires rows.Length == MAX_NODES
      modifies this`me, this`grants, rows
      ensures View() == Cleared(old(View()))
    {
      forall i | 0 <= i < rows.Length {
        rows[i] := EMPTY_ROW;
      }
      grants := NO_GRANTS;
      me := me.(peerCount := 0);
    }

    /** mesh_protocol_audio_apply_slot_map_speakers. */
    method ApplySlotMapSpeakers(m: SlotMap)
      requires WireSized(m)
      modifies this`grants
      ensures grants == GrantsIn(m)
    {
      grants := NO_GRANTS;
      for i := 0 to Min(m.speakerCount, MAX_SPEAKERS)
        invariant |grants| == MAX_SPEAKERS
        invariant forall k :: 0 <= k < MAX_SPEAKERS ==> grants[k] == (if k < i then m.speakerIds[k] else 0)
      {
        grants := grants[i := m.speakerIds[i]];
      }
    }

    /** process_sync, process_join_ack and process_slot_map: the reducer decides, the node follows. */
    method ProcessEvent(e: Event) returns (action: Action)
      requires Valid() && WellSized(e) && !e.Leave?
      modifies this`me, this`grants, rows
      ensures Valid() && View() == Reduced(old(View()), e) && action == Reduce(old(me), e).action
    {
      ReducedKeepsInv(View(), e);
      action := AdoptVerdict(e);
    }

    method AdoptVerdict(e: Event) returns (action: Action)
      requires rows.Length == MAX_NODES && WellSized(e)
      modifies this`me, this`grants, rows
      ensures View() == Reduced(old(View()), e) && action == Reduce(old(me), e).action
    {
      var transition := Reduce(me, e);
      action := transition.action;
      if action == DemoteCoordinator {
        me := transition.next;
        ResetSession();
      } else if action == DiscoverCoordinator || action == ActivateParticipant {
        me := transition.next;
      } else if action == ApplySlotMap {
        me := transition.next;
        ApplySlotMapSpeakers(e.slotMap);
      }
    }

    /** join_work_handler once its attempts are spent. */
    method JoinTimeout()
      requires Valid()
      modifies this`me
      ensures Valid() && View() == Take(old(View()), JoinRetriesSpent)
    {
      if me.state == Joining {
        me := Rescanning(me, Scanning);
      }
    }

    /** handle_coordinator_timeout once the SYNC timeout has passed. */
    method HandleCoordinatorTimeout()
      requires Valid()
      modifies this`me, this`grants, rows
      ensures Valid() && View() == Take(old(View()), Step.CoordinatorLost)
    {
      if me.role == Participant {
        ResetSession();
        me := Rescanning(me, Scanning);
      }
    }

    /** mesh_protocol_start; false when the node is already running. */
    method StartMesh() returns (started: bool)
      requires Valid()
      modifies this`me
      ensures Valid() && View() == Take(old(View()), Step.Start)
      ensures started <==> old(me.state) == Idle
    {
      started := me.state == Idle;
      if started {
        me := me.(state := Scanning);
      }
    }

    /** mesh_protocol_stop. */
    method StopMesh()
      requires Valid()
      modifies this`me, this`grants, rows
      ensures Valid() && View() == Take(old(View()), Step.Stop)
    {
      me := me.(state := Idle);
      ResetSession();
      me := Rescanning(me, Idle);
    }
  }
}
