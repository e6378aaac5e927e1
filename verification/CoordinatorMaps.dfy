/**
  The slot map a coordinator builds from its peer table and its speaker grants, and when its members accept it.
  */
module CoordinatorMaps {
  import opened Common
  import opened SlotMaps
  import opened Membership
  import opened PeerSpec
  import opened PeerRuns

  const NO_SLOTS: seq<Byte> := [0, 0, 0, 0, 0, 0, 0, 0]

  /** The slots filled by the announced rows, a later row winning. */
  function PlaceRows(rows: seq<Row>): (slots: seq<Byte>)
    ensures |slots| == MAX_NODES
  {
    if rows == [] then NO_SLOTS
    else
      var slots, r := PlaceRows(rows[..|rows| - 1]), rows[|rows| - 1];
      if r.active && r.announced && 0 <= r.slotIndex < MAX_NODES then slots[r.slotIndex := r.nodeId] else slots
  }

  function BuiltMap(rows: seq<Row>, grants: seq<Byte>): SlotMap
    requires |grants| == MAX_SPEAKERS
  {
    SlotMap(MAX_NODES, PlaceRows(rows), CountNamed(grants), grants)
  }

  /** mesh_protocol_tx_send_slot_map, up to the queueing of the payload. */
  method BuildSlotMap(rows: array<Row>, grants: seq<Byte>) returns (m: SlotMap)
    requires rows.Length == MAX_NODES && |grants| == MAX_SPEAKERS
    ensures m == BuiltMap(rows[..], grants)
  {
    var slotIds := NO_SLOTS;
    for i := 0 to rows.Length
      invariant slotIds == PlaceRows(rows[..i])
    {
      assert rows[..i + 1][..i] == rows[..i];
      if rows[i].active && rows[i].announced && 0 <= rows[i].slotIndex < MAX_NODES {
        slotIds := slotIds[rows[i].slotIndex := rows[i].nodeId];
      }
    }
    var count: Byte := 0;
    for i := 0 to MAX_SPEAKERS
      invariant count == CountNamed(grants[..i])
    {
      assert grants[..i + 1][..i] == grants[..i];
      if grants[i] != 0 {
        count := count + 1;
      }
    }
    assert grants[..MAX_SPEAKERS] == grants && rows[..rows.Length] == rows[..];
    m := SlotMap(MAX_NODES, slotIds, count, grants);
  }

  lemma AnnouncedNext(rows: seq<Row>, r: Row)
    ensures Announced(rows + [r]) == if r.active && r.announced then Announced(rows) + {r.nodeId} else Announced(rows)
  {
    var all := rows + [r];
    forall x
      ensures x in Announced(all) <==> x in Announced(rows) || (r.active && r.announced && x == r.nodeId)
    {
      if x in Announced(all) {
        var i :| 0 <= i < |all| && all[i].active && all[i].announced && all[i].nodeId == x;
        assert i < |rows| ==> rows[i] == all[i];
      }
      if x in Announced(rows) {
        var i :| 0 <= i < |rows| && rows[i].active && rows[i].announced && rows[i].nodeId == x;
        assert rows[i] == all[i];
      }
      assert all[|rows|] == r;
    }
  }

  /** In a consistent table slot s belongs to node s + 1, and is filled exactly if that node is announced. */
  lemma {:induction false} PlacedAt(rows: seq<Row>, s: nat)
    requires RowsOk(rows) && s < MAX_NODES
    ensures PlaceRows(rows)[s] == if s + 1 in Announced(rows) then s + 1 else 0
  {
    if rows == [] {
      assert forall x :: x in Announced(rows) ==> false;
    } else {
      var front, r := rows[..|rows| - 1], rows[|rows| - 1];
      assert rows == front + [r];
      PlacedAt(front, s);
      AnnouncedNext(front, r);
    }
  }

  /** The named entries of a list without repetition are as many as their set. */
  lemma {:induction false} CountNamedSet(ids: seq<Byte>, named: set<Byte>)
    requires SlotsOk(ids) && forall id: Byte :: id in named <==> id != 0 && id in ids
    ensures CountNamed(ids) == |named|
  {
    if ids == [] {
      assert forall id :: id in named ==> false;
    } else {
      var front, last := ids[..|ids| - 1], ids[|ids| - 1];
      assert ids == front + [last];
      CountNamedSet(front, if last == 0 then named else named - {last});
    }
  }

  /** The grants fill their places from the front and name distinct announced members. */
  ghost predicate GrantsOk(rows: seq<Row>, grants: seq<Byte>)
    requires |grants| == MAX_SPEAKERS
  {
    && (grants[0] == 0 ==> grants[1] == 0)
    && (grants[0] != 0 ==> grants[0] in Announced(rows) && grants[0] != grants[1])
    && (grants[1] != 0 ==> grants[1] in Announced(rows))
  }

  lemma SpeakersVerdict(rows: seq<Row>, grants: seq<Byte>, members: seq<Byte>)
    requires RowsOk(rows) && |grants| == MAX_SPEAKERS
    requires forall id: Byte :: id != 0 ==> (id in members <==> id in Announced(rows))
    ensures SpeakersOk(grants[..CountNamed(grants)], members) <==> GrantsOk(rows, grants)
  {
    assert CountNamed(grants[..1]) == if grants[0] != 0 then 1 else 0;
    var speakers := grants[..CountNamed(grants)];
    if grants[0] == 0 && grants[1] != 0 {
      assert !NodeIdValid(speakers[0]);
    }
    if grants[0] != 0 && grants[1] != 0 {
      assert speakers == [grants[0], grants[1]];
    }
  }

  lemma BuiltMembers(rows: seq<Row>, id: Byte)
    requires RowsOk(rows) && id != 0
    ensures id in PlaceRows(rows) <==> id in Announced(rows)
  {
    var slots := PlaceRows(rows);
    if id in slots {
      var s :| 0 <= s < |slots| && slots[s] == id;
      PlacedAt(rows, s);
    }
    if id in Announced(rows) {
      PlacedAt(rows, id - 1);
      assert slots[id - 1] == id;
    }
  }

  /** The map mesh_protocol_tx_send_slot_map sends. */
  function SentMap(n: Node): SlotMap
    requires |n.grants| == MAX_SPEAKERS
  {
    BuiltMap(n.rows, n.grants)
  }

  /** Row i holds an announced participant of coordinator n. */
  ghost predicate Participates(n: Node, i: nat) {
    && Inv(n) && n.me.role == Coordinator && 0 < i < |n.rows| && n.rows[i].active && n.rows[i].announced
  }

  /** In its slots the map names exactly the announced members, each once and in its own slot. */
  lemma BuiltSlots(rows: seq<Row>)
    requires RowsOk(rows)
    ensures SlotsOk(PlaceRows(rows)) && CountNamed(PlaceRows(rows)) == |Announced(rows)|
    ensures forall x: Byte :: x != 0 ==> (x in PlaceRows(rows) <==> x in Announced(rows))
  {
    var slots := PlaceRows(rows);
    forall s | 0 <= s < MAX_NODES
      ensures slots[s] == if s + 1 in Announced(rows) then s + 1 else 0
    {
      PlacedAt(rows, s);
    }
    forall x: Byte | x != 0
      ensures x in slots <==> x in Announced(rows)
    {
      BuiltMembers(rows, x);
    }
    CountNamedSet(slots, Announced(rows));
  }

  /** A participant finds itself in its own slot, behind the coordinator's. */
  lemma OwnSlot(n: Node, i: nat)
    requires Participates(n, i)
    ensures var slots, id := PlaceRows(n.rows), n.rows[i].nodeId;
      LastSlot(slots, id) == n.rows[i].slotIndex && slots[0] == n.me.nodeId && id in slots[1..] && NodeIdValid(id)
    ensures |Announced(n.rows)| == n.me.peerCount + 1
  {
    var slots, id := PlaceRows(n.rows), n.rows[i].nodeId;
    assert id in Announced(n.rows) && n.rows[0].nodeId in Announced(n.rows);
    assert n.rows[0].nodeId != id;
    PlacedAt(n.rows, 0);
    PlacedAt(n.rows, id - 1);
    var last := LastSlot(slots, id);
    PlacedAt(n.rows, last);
    assert slots[1..][id - 2] == id;
  }

  /**
    The map a coordinator sends is accepted by each of its announced participants if and only if its grants are
    compact, distinct and announced; the participant then finds its own slot and as many peers as the coordinator
    counts.
    */
  lemma BuiltMapVerdict(n: Node, i: nat)
    requires Participates(n, i)
    ensures MapOk(SentMap(n), n.rows[i].nodeId, n.me.nodeId) <==> GrantsOk(n.rows, n.grants)
    ensures LastSlot(PlaceRows(n.rows), n.rows[i].nodeId) == n.rows[i].slotIndex
    ensures CountNamed(PlaceRows(n.rows)) == n.me.peerCount + 1
  {
    BuiltSlots(n.rows);
    OwnSlot(n, i);
    SpeakersVerdict(n.rows, n.grants, PlaceRows(n.rows));
    assert Members(SentMap(n)) == PlaceRows(n.rows);
  }

  /** So the two sides agree: an active participant adopts exactly such maps, and then counts the same peers. */
  lemma PeersAgree(n: Node, i: nat, peer: Snapshot)
    requires Participates(n, i)
    requires peer.state == Active && peer.role == Participant
    requires peer.nodeId == n.rows[i].nodeId && peer.coordinatorId == n.me.nodeId
    ensures var r := Reduce(peer, SlotMapEvent(n.me.nodeId, true, SentMap(n)));
      && (r.action == ApplySlotMap <==> GrantsOk(n.rows, n.grants))
      && (GrantsOk(n.rows, n.grants) ==>
            r.next.slotIndex == n.rows[i].slotIndex && r.next.peerCount == n.me.peerCount && r.next.known)
  {
    BuiltMapVerdict(n, i);
    assert Members(SentMap(n)) == PlaceRows(n.rows);
  }

  lemma AbsentGrant(rows: seq<Row>, grants: seq<Byte>, id: Byte)
    requires |grants| == MAX_SPEAKERS && id != 0 && id in grants && id !in Announced(rows)
    ensures !GrantsOk(rows, grants)
  {
  }

  /**
    A LEAVE keeps the grants, so when a granted peer leaves, the map sent for its LEAVE is refused by every remaining
    participant.
    */
  lemma DepartedSpeakerSpoilsMap(n: Node, gone: nat, identity: Identity, i: nat)
    requires Participates(n, i) && i != gone
    requires 0 < gone < |n.rows| && n.rows[gone].active && n.rows[gone].nodeId in n.grants
    requires identity.Legacy? || (identity == ByAddress(n.rows[gone].address) && LengthValid(n.rows[gone].address))
    ensures var after := Left(n, n.rows[gone].nodeId, identity);
      && after == Removed(n, gone) && after.grants == n.grants && Participates(after, i)
      && !MapOk(SentMap(after), after.rows[i].nodeId, after.me.nodeId)
  {
    FindIdUnique(n.rows, gone);
    assert n.rows[gone].nodeId != n.rows[0].nodeId;
    LeftRemoves(n, n.rows[gone].nodeId, identity);
    RemovedSpoilsMap(n, gone, i);
  }

  lemma RemovedSpoilsMap(n: Node, gone: nat, i: nat)
    requires Participates(n, i) && i != gone
    requires 0 < gone < |n.rows| && n.rows[gone].active && n.rows[gone].nodeId in n.grants
    ensures var after := Removed(n, gone);
      Participates(after, i) && !MapOk(SentMap(after), after.rows[i].nodeId, after.me.nodeId)
  {
    RemovedKeepsInv(n, gone);
    var after := Removed(n, gone);
    assert after.rows[i] == n.rows[i];
    BuiltMapVerdict(after, i);
    AbsentGrant(after.rows, n.grants, n.rows[gone].nodeId);
  }

  // ---------------------------------------------------------------- speakers

  /** Node id is talking. */
  predicate Talking(since: seq<int>, id: Byte)
    requires |since| == MAX_NODES + 1
  {
    NodeIdValid(id) && since[id] > 0
  }

  /** The chosen ids are distinct talkers. */
  ghost predicate Chosen(picked: seq<Byte>, since: seq<int>)
    requires |since| == MAX_NODES + 1
  {
    && (forall k :: 0 <= k < |picked| ==> Talking(since, picked[k]))
    && (forall j, k :: 0 <= j < k < |picked| ==> picked[j] != picked[k])
  }

  /** The longest-talking node not yet chosen, the lowest id among equals; 0 when there is none. */
  method LongestTalker(picked: seq<Byte>, since: seq<int>) returns (best: Byte)
    requires |since| == MAX_NODES + 1
    ensures best == 0 ==> forall id: Byte :: Talking(since, id) ==> id in picked
    ensures best != 0 ==> Talking(since, best) && best !in picked
    ensures best != 0 ==> forall id: Byte :: Talking(since, id) && id !in picked ==>
              since[best] < since[id] || (since[best] == since[id] && best <= id)
  {
    best := 0;
    for node := 1 to MAX_NODES + 1
      invariant best == 0 ==> forall id: Byte :: id < node && Talking(since, id) ==> id in picked
      invariant best != 0 ==> best < node && Talking(since, best) && best !in picked
      invariant best != 0 ==> forall id: Byte :: id < node && Talking(since, id) && id !in picked ==>
                  since[best] < since[id] || (since[best] == since[id] && best <= id)
    {
      if since[node] > 0 && node !in picked {
        if best == 0 || since[node] < since[best] {
          best := node;
        }
      }
    }
  }

  /**
    mesh_core_select_speakers: talkers that already hold a grant keep it, in order; the remaining places go to those
    who have been talking longest; a place stays empty only when nobody is left.
    */
  method SelectSpeakers(previous: seq<Byte>, since: seq<int>) returns (picked: seq<Byte>)
    requires |since| == MAX_NODES + 1
    ensures |picked| <= |previous| && Chosen(picked, since)
    ensures forall k :: 0 <= k < |picked| ==> 1 <= picked[k] <= 8 && since[picked[k]] > 0
    ensures forall id :: id in previous && Talking(since, id) ==> id in picked
    ensures |picked| < |previous| ==> forall id: Byte :: Talking(since, id) ==> id in picked
    ensures forall k, id: Byte :: 0 <= k < |picked| && picked[k] !in previous && Talking(since, id) && id !in picked ==>
              since[picked[k]] <= since[id]
  {
    picked := [];
    for i := 0 to |previous|
      invariant |picked| <= i && Chosen(picked, since)
      invariant forall k :: 0 <= k < |picked| ==> picked[k] in previous
      invariant forall j :: 0 <= j < i && Talking(since, previous[j]) ==> previous[j] in picked
    {
      if NodeIdValid(previous[i]) && since[previous[i]] > 0 && previous[i] !in picked {
        picked := picked + [previous[i]];
      }
    }
    picked := FillSpeakers(previous, since, picked);
  }

  method FillSpeakers(previous: seq<Byte>, since: seq<int>, kept: seq<Byte>) returns (picked: seq<Byte>)
    requires |since| == MAX_NODES + 1 && |kept| <= |previous| && Chosen(kept, since)
    requires forall k :: 0 <= k < |kept| ==> kept[k] in previous
    ensures |picked| <= |previous| && Chosen(picked, since) && kept <= picked
    ensures |picked| < |previous| ==> forall id: Byte :: Talking(since, id) ==> id in picked
    ensures forall k, id: Byte :: 0 <= k < |picked| && picked[k] !in previous && Talking(since, id) && id !in picked ==>
              since[picked[k]] <= since[id]
  {
    picked := kept;
    while |picked| < |previous|
      invariant |picked| <= |previous| && Chosen(picked, since) && kept <= picked
      invariant forall k, id: Byte ::
                  0 <= k < |picked| && picked[k] !in previous && Talking(since, id) && id !in picked ==>
                    since[picked[k]] <= since[id]
      decreases |previous| - |picked|
    {
      var best := LongestTalker(picked, since);
      if best == 0 {
        return;
      }
      picked := picked + [best];
    }
  }

  /** Chosen speakers fill the grants from the front, so only a talker that is no announced member spoils a map. */
  lemma SelectedGrants(rows: seq<Row>, picked: seq<Byte>, since: seq<int>)
    requires RowsOk(rows) && |since| == MAX_NODES + 1 && |picked| <= MAX_SPEAKERS && Chosen(picked, since)
    ensures var grants := (picked + [0, 0])[..MAX_SPEAKERS];
      GrantsOk(rows, grants) <==> forall id :: id in picked ==> id in Announced(rows)
  {
  }
}
