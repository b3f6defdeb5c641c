/**
 The room manager as it sits in memory: peers with bounded queues, rooms that are objects of their
 own, and a table of the current rooms. Handles to rooms outlive the rooms; a handle counts only
 while the table still holds that very object. Each critical section is proved to do to the table
 what the signaling state machine's transition does to its map of rooms.
 */
module Rooms {
  import opened Wrappers
  import opened Signaling

  /** A connected peer; `queue` is the channel of messages that its writer has not taken yet. */
  class Peer {
    const id: PeerId
    var queue: seq<Message>
    var cancelled: bool

    constructor (id: PeerId)
      ensures this.id == id && queue == [] && !cancelled
    {
      this.id := id;
      queue := [];
      cancelled := false;
    }

    /** Appends the message; when the queue is full, drops it and cancels the peer instead. */
    method Enqueue(m: Message) returns (ok: bool)
      modifies this
      ensures ok == (|old(queue)| < 256)
      ensures queue == if ok then old(queue) + [m] else old(queue)
      ensures cancelled == (old(cancelled) || !ok)
    {
      if |queue| < PEER_QUEUE_SIZE {
        queue := queue + [m];
        return true;
      }
      cancelled := true;
      return false;
    }
  }

  class RoomObject {
    const id: RoomId
    const maxPeers: nat
    var peers: map<PeerId, Peer>

    constructor (id: RoomId, maxPeers: nat)
      ensures this.id == id && this.maxPeers == maxPeers && peers == map[]
    {
      this.id := id;
      this.maxPeers := maxPeers;
      peers := map[];
    }
  }

  /** Every peer of the map under its own name. */
  predicate Keyed(peers: map<PeerId, Peer>) {
    forall k :: k in peers ==> peers[k].id == k
  }

  /** These are the peers of the map, each exactly once, without the excluded one. */
  predicate IsSnapshot(result: seq<Peer>, peers: map<PeerId, Peer>, excluded: set<PeerId>) {
    && (forall i :: 0 <= i < |result| ==>
          result[i].id in peers && result[i].id !in excluded && peers[result[i].id] == result[i])
    && (forall i, j :: 0 <= i < j < |result| ==> result[i] != result[j])
    && (forall k :: k in peers && k !in excluded ==> peers[k] in result)
  }

  /** Collects the peers of a map, in whatever order the map yields them. */
  method PeerSnapshot(peers: map<PeerId, Peer>, excluded: set<PeerId>) returns (result: seq<Peer>)
    requires Keyed(peers)
    ensures IsSnapshot(result, peers, excluded)
  {
    result := [];
    var rest := peers.Keys;
    while rest != {}
      invariant rest <= peers.Keys
      invariant forall i :: 0 <= i < |result| ==>
        result[i].id in peers.Keys - rest && result[i].id !in excluded && peers[result[i].id] == result[i]
      invariant forall i, j :: 0 <= i < j < |result| ==> result[i] != result[j]
      invariant forall k :: k in peers && k !in rest && k !in excluded ==> peers[k] in result
      decreases |rest|
    {
      var k :| k in rest;
      rest := rest - {k};
      if k !in excluded {
        result := result + [peers[k]];
      }
    }
  }

  lemma SnapshotWithout(result: seq<Peer>, peers: map<PeerId, Peer>, peer: PeerId)
    requires IsSnapshot(result, peers - {peer}, {})
    ensures IsSnapshot(result, peers, {peer})
    ensures result == [] <==> |peers - {peer}| == 0
    ensures |peers - {peer}| == 0 <==> peers.Keys - {peer} == {}
  {
    var rest := peers - {peer};
    assert rest.Keys == peers.Keys - {peer} && |rest| == |rest.Keys|;
    if result != [] {
      assert result[0].id in rest;
    }
    if rest.Keys != {} {
      var k :| k in rest;
      assert rest[k] in result;
    }
    forall k | k in peers && k !in {peer}
      ensures peers[k] in result
    {
      assert k in rest && rest[k] == peers[k];
    }
  }

  lemma EmptiedRoom(table: map<RoomId, Entry>, id: RoomId, e: Entry)
    ensures table[id := e] - {id} == table - {id}
  {
  }

  /** What queueing a message leaves in a queue. */
  function Queued(queue: seq<Message>, m: Message): seq<Message> {
    if |queue| < PEER_QUEUE_SIZE then queue + [m] else queue
  }

  predicate Distinct(peers: seq<Peer>) {
    forall i, j :: 0 <= i < j < |peers| ==> peers[i].id != peers[j].id
  }

  /** Queues a message for each of these peers and says whose queue was full; `before` is what was queued. */
  method EnqueueAll(peers: seq<Peer>, message: Message, ghost before: seq<seq<Message>>)
      returns (disconnected: nat, ghost failed: set<PeerId>)
    requires Distinct(peers) && |before| == |peers| && forall i :: 0 <= i < |peers| ==> peers[i].queue == before[i]
    modifies set p | p in peers
    ensures forall i :: 0 <= i < |peers| ==>
              && peers[i].queue == Queued(before[i], message)
              && (peers[i].id in failed <==> |before[i]| >= PEER_QUEUE_SIZE)
              && peers[i].cancelled == (old(peers[i].cancelled) || peers[i].id in failed)
    ensures disconnected == |failed| && forall k :: k in failed ==> exists i :: 0 <= i < |peers| && peers[i].id == k
  {
    disconnected, failed := 0, {};
    for i := 0 to |peers|
      invariant forall j :: i <= j < |peers| ==>
        peers[j].queue == before[j] && peers[j].cancelled == old(peers[j].cancelled)
      invariant forall j :: 0 <= j < i ==>
        && peers[j].queue == Queued(before[j], message)
        && (peers[j].id in failed <==> |before[j]| >= PEER_QUEUE_SIZE)
        && peers[j].cancelled == (old(peers[j].cancelled) || peers[j].id in failed)
      invariant disconnected == |failed|
      invariant forall k :: k in failed ==> exists j :: 0 <= j < i && peers[j].id == k
    {
      var ok := peers[i].Enqueue(message);
      if !ok {
        disconnected := disconnected + 1;
        failed := failed + {peers[i].id};
      }
    }
  }

  /** A room as a value, with its peer objects. */
  datatype Entry = Entry(maxPeers: nat, peers: map<PeerId, Peer>)

  function With(e: Entry, peer: Peer): Entry {
    e.(peers := e.peers[peer.id := peer])
  }

  function Without(e: Entry, peer: PeerId): Entry {
    e.(peers := e.peers - {peer})
  }

  /** The table as the state machine has it: who is in which room. */
  function Names(table: map<RoomId, Entry>): (rooms: Rooms)
    ensures rooms.Keys == table.Keys
  {
    map id | id in table :: Room(table[id].maxPeers, table[id].peers.Keys)
  }

  lemma NamesPut(table: map<RoomId, Entry>, id: RoomId, e: Entry)
    ensures Names(table[id := e]) == Names(table)[id := Room(e.maxPeers, e.peers.Keys)]
    ensures Names(table - {id}) == Names(table) - {id}
    ensures |Names(table)| == |table|
  {
  }

  /** Admit on the table: a refusal, or none and the peer in its room. */
  function AdmitTable(
      table: map<RoomId, Entry>, maxRooms: nat, maxPeers: nat,
      request: Request, uuid: RoomId, peer: Peer, answered: bool)
    : (map<RoomId, Entry>, Option<Refusal>)
  {
    match request
    case New =>
      if |table| >= maxRooms then (table, Some(RoomLimit))
      else EnterTable(table[uuid := Entry(maxPeers, map[])], uuid, peer, answered)
    case Existing(id) =>
      if id !in table then (table, Some(RoomNotFound)) else EnterTable(table, id, peer, answered)
  }

  function EnterTable(table: map<RoomId, Entry>, id: RoomId, peer: Peer, answered: bool)
    : (map<RoomId, Entry>, Option<Refusal>)
    requires id in table
  {
    var e := table[id];
    if |e.peers| >= e.maxPeers then (table, Some(RoomFull))
    else if !answered then (if |e.peers| == 0 then table - {id} else table, Some(Unanswered))
    else (table[id := With(e, peer)], None)
  }

  lemma EnterNames(table: map<RoomId, Entry>, id: RoomId, peer: Peer, answered: bool)
    requires id in table
    ensures var (now, refusal) := EnterTable(table, id, peer, answered);
            Signaling.Enter(Names(table), id, peer.id, answered)
              == if refusal.Some? then Refused(Names(now), refusal.value)
                 else Admitted(Names(now), id, table[id].peers.Keys)
  {
    NamesPut(table, id, With(table[id], peer));
    assert |table[id].peers| == |table[id].peers.Keys|;
    assert With(table[id], peer).peers.Keys == table[id].peers.Keys + {peer.id};
  }

  /** Names for names, this is the state machine's admission. */
  lemma AdmitNames(
      table: map<RoomId, Entry>, maxRooms: nat, maxPeers: nat,
      request: Request, uuid: RoomId, peer: Peer, answered: bool)
    ensures var (now, refusal) := AdmitTable(table, maxRooms, maxPeers, request, uuid, peer, answered);
            var outcome := Signaling.Admit(Names(table), maxRooms, maxPeers, request, uuid, peer.id, answered);
            && outcome.rooms == Names(now)
            && (refusal.Some? <==> outcome.Refused?) && (refusal.Some? ==> outcome.why == refusal.value)
            && (outcome.Admitted? ==> outcome.existing == Members(table, request))
  {
    NamesPut(table, uuid, Entry(maxPeers, map[]));
    if request.New? {
      EnterNames(table[uuid := Entry(maxPeers, map[])], uuid, peer, answered);
    } else if request.room in table {
      EnterNames(table, request.room, peer, answered);
    }
  }

  /** Who is in the room already. */
  function Members(table: map<RoomId, Entry>, request: Request): set<PeerId> {
    if request.Existing? && request.room in table then table[request.room].peers.Keys else {}
  }

  /** An admission touches no other room's peers, and a refusal nobody's. */
  lemma AdmitElsewhere(
      table: map<RoomId, Entry>, maxRooms: nat, maxPeers: nat,
      request: Request, uuid: RoomId, peer: Peer, answered: bool, id: RoomId)
    requires request.New? ==> id != uuid
    ensures var (now, refusal) := AdmitTable(table, maxRooms, maxPeers, request, uuid, peer, answered);
            && (id in now ==> id in table)
            && (id in now && (refusal.Some? || request != Existing(id)) ==> now[id] == table[id])
            && (id in now && refusal.None? && request == Existing(id) ==> now[id] == With(table[id], peer))
  {
  }

  /** Names for names, this is the state machine's departure. */
  lemma LeaveNames(table: map<RoomId, Entry>, id: RoomId, peer: PeerId)
    requires id in table
    ensures Names(Left(table, id, peer)) == Remove(Names(table), id, peer)
  {
  }

  /** The table after a peer left a room. */
  function Left(table: map<RoomId, Entry>, id: RoomId, peer: PeerId): map<RoomId, Entry>
    requires id in table
  {
    var e := Without(table[id], peer);
    if |e.peers| == 0 then table - {id} else table[id := e]
  }

  datatype Outcome = Entered(room: RoomObject) | Rejected(why: Refusal)

  predicate Says(outcome: Outcome, refusal: Option<Refusal>) {
    match refusal
    case Some(why) => outcome == Rejected(why)
    case None => outcome.Entered?
  }

  class RoomManager {
    var rooms: map<RoomId, RoomObject>
    const maxRooms: nat
    /** The rooms as values. */
    ghost var table: map<RoomId, Entry>

    ghost predicate Valid()
      reads this, rooms.Values
    {
      && table.Keys == rooms.Keys
      && (forall id :: id in rooms ==>
            rooms[id].id == id && Keyed(rooms[id].peers) && table[id] == Entry(rooms[id].maxPeers, rooms[id].peers))
    }

    /** The handle is to a room that is still in the table. */
    predicate Current(room: RoomObject)
      reads this
    {
      room.id in rooms && rooms[room.id] == room
    }

    constructor (maxRooms: nat)
      ensures Valid() && table == map[] && this.maxRooms == maxRooms
    {
      this.maxRooms := maxRooms;
      rooms := map[];
      table := map[];
    }

    /**
     Admits the peer to the requested room, creating it when asked to. The response, which lists the
     members before the newcomer, is queued before the newcomer becomes a member; if it cannot be,
     nobody is admitted, a room made for the occasion is taken back, and the peer is cancelled if it
     was its queue that had no room. All other rooms keep their peers.
     */
    method Admit(request: Request, uuid: RoomId, maxPeers: nat, peer: Peer, marshalled: bool) returns (outcome: Outcome)
      requires Valid()
      modifies this, rooms.Values, peer
      ensures Valid()
      ensures var answered := marshalled && |old(peer.queue)| < PEER_QUEUE_SIZE;
              var (now, refusal) := AdmitTable(old(table), maxRooms, maxPeers, request, uuid, peer, answered);
              table == now && Says(outcome, refusal)
      ensures outcome.Entered? ==>
                outcome.room.id == (if request.New? then uuid else request.room) && Current(outcome.room)
      ensures peer.queue == old(peer.queue)
                + if outcome.Entered? then [JoinAccepted(Members(old(table), request))] else []
      ensures peer.cancelled == (old(peer.cancelled) || (marshalled && outcome == Rejected(Unanswered)))
      ensures forall id :: id in rooms && id in old(rooms) && (request.Existing? || id != uuid) ==>
                rooms[id] == old(rooms[id])
    {
      assert |table| == |table.Keys| == |rooms.Keys| == |rooms|;
      if request.New? {
        if |rooms| >= maxRooms {
          return Rejected(RoomLimit);
        }
        outcome := EnterNew(uuid, maxPeers, peer, marshalled);
      } else {
        if request.room !in rooms {
          return Rejected(RoomNotFound);
        }
        outcome := Enter(rooms[request.room], peer, marshalled);
      }
    }

    /** Makes a room and lets the peer in. */
    method EnterNew(uuid: RoomId, maxPeers: nat, peer: Peer, marshalled: bool) returns (outcome: Outcome)
      requires Valid()
      modifies this, peer
      ensures Valid()
      ensures var answered := marshalled && |old(peer.queue)| < PEER_QUEUE_SIZE;
              var (now, refusal) := EnterTable(old(table)[uuid := Entry(maxPeers, map[])], uuid, peer, answered);
              table == now && Says(outcome, refusal)
      ensures outcome.Entered? ==> outcome.room.id == uuid && Current(outcome.room)
      ensures peer.queue == old(peer.queue) + if outcome.Entered? then [JoinAccepted({})] else []
      ensures peer.cancelled == (old(peer.cancelled) || (marshalled && outcome == Rejected(Unanswered)))
      ensures forall id :: id in rooms && id in old(rooms) && id != uuid ==> rooms[id] == old(rooms[id])
    {
      var room := new RoomObject(uuid, maxPeers);
      rooms := rooms[uuid := room];
      table := table[uuid := Entry(maxPeers, map[])];
      outcome := Enter(room, peer, marshalled);
    }

    /** Queues the response for the peer and makes it a member, unless the room is full. */
    method Enter(room: RoomObject, peer: Peer, marshalled: bool) returns (outcome: Outcome)
      requires Valid() && Current(room)
      modifies this, room, peer
      ensures Valid()
      ensures var answered := marshalled && |old(peer.queue)| < PEER_QUEUE_SIZE;
              var (now, refusal) := EnterTable(old(table), room.id, peer, answered);
              table == now && Says(outcome, refusal)
      ensures outcome.Entered? ==> outcome == Entered(room) && Current(room)
      ensures peer.queue == old(peer.queue)
                + if outcome.Entered? then [JoinAccepted(old(table)[room.id].peers.Keys)] else []
      ensures peer.cancelled == (old(peer.cancelled) || (marshalled && outcome == Rejected(Unanswered)))
      ensures forall id :: id in rooms ==> id in old(rooms) && rooms[id] == old(rooms[id])
    {
      if |room.peers| >= room.maxPeers {
        return Rejected(RoomFull);
      }
      var answered := false;
      if marshalled {
        answered := peer.Enqueue(JoinAccepted(room.peers.Keys));
      }
      if !answered {
        if |room.peers| == 0 {
          Drop(room);
        }
        return Rejected(Unanswered);
      }
      Commit(room, peer);
      return Entered(room);
    }

    /** Makes the peer a member. */
    method Commit(room: RoomObject, peer: Peer)
      requires Valid() && Current(room)
      modifies this`table, room
      ensures Valid() && table == old(table)[room.id := With(old(table)[room.id], peer)]
    {
      room.peers := room.peers[peer.id := peer];
      table := table[room.id := With(table[room.id], peer)];
    }

    /** Takes a room out of the table. */
    method Drop(room: RoomObject)
      requires Valid() && Current(room)
      modifies this
      ensures Valid() && rooms == old(rooms) - {room.id} && table == old(table) - {room.id}
    {
      rooms, table := rooms - {room.id}, table - {room.id};
    }

    /** Takes a peer out of a room, if it is there. */
    method Expel(room: RoomObject, peer: PeerId)
      requires Valid() && Current(room)
      modifies this`table, room
      ensures Valid() && room.peers == old(room.peers) - {peer}
      ensures table == old(table)[room.id := Without(old(table)[room.id], peer)]
    {
      room.peers := room.peers - {peer};
      table := table[room.id := Without(table[room.id], peer)];
    }

    /**
     Takes a peer out of the room its handle names and drops the room once it is empty; all other
     rooms keep their peers. A handle to a room that is gone changes nothing, even if another room
     now has its place in the table.
     */
    method Leave(room: RoomObject?, peer: PeerId) returns (remaining: seq<Peer>)
      requires Valid()
      modifies this, rooms.Values
      ensures Valid()
      ensures room == null || !old(Current(room)) ==> remaining == [] && rooms == old(rooms) && table == old(table)
      ensures room != null && old(Current(room)) ==>
                && table == Left(old(table), room.id, peer)
                && IsSnapshot(remaining, old(room.peers), {peer})
                && (Current(room) <==> remaining != [])
      ensures forall id :: id in rooms ==> id in old(rooms) && rooms[id] == old(rooms[id])
    {
      if room == null || !Current(room) {
        return [];
      }
      ghost var all, before := room.peers, table;
      Expel(room, peer);
      remaining := PeerSnapshot(room.peers, {});
      SnapshotWithout(remaining, all, peer);
      if |room.peers| == 0 {
        EmptiedRoom(before, room.id, table[room.id]);
        Drop(room);
      }
    }

    /** The members behind a handle, without the excluded peer; nobody behind a stale one. */
    method RoomPeers(room: RoomObject, excluded: PeerId) returns (result: seq<Peer>)
      requires Valid()
      ensures Current(room) ==> IsSnapshot(result, room.peers, {excluded})
      ensures !Current(room) ==> result == []
    {
      if !Current(room) {
        return [];
      }
      result := PeerSnapshot(room.peers, {excluded});
    }

    /** Queues the message once for everybody in the room but the excluded peer, and counts the failures. */
    method Broadcast(room: RoomObject, message: Message, excluded: PeerId)
        returns (disconnected: nat, ghost failed: set<PeerId>)
      requires Valid()
      modifies if Current(room) then room.peers.Values else {}
      ensures Valid() && rooms == old(rooms) && table == old(table)
      ensures disconnected == |failed| && (!Current(room) ==> failed == {})
      ensures Current(room) ==> forall k :: k in room.peers ==>
                var q := room.peers[k];
                && (k in failed <==> k != excluded && |old(q.queue)| >= PEER_QUEUE_SIZE)
                && q.queue == (if k == excluded then old(q.queue) else Queued(old(q.queue), message))
                && q.cancelled == (old(q.cancelled) || k in failed)
      ensures Current(room) ==> failed <= room.peers.Keys
    {
      var peers := RoomPeers(room, excluded);
      ghost var before := seq(|peers|, i requires 0 <= i < |peers| reads peers => peers[i].queue);
      disconnected, failed := EnqueueAll(peers, message, before);
    }

    /** Queues a message for one peer of the room behind the handle. */
    method Route(room: RoomObject, target: PeerId, message: Message) returns (ok: bool)
      requires Valid()
      modifies if Current(room) && target in room.peers then {room.peers[target]} else {}
      ensures Valid() && rooms == old(rooms) && table == old(table)
      ensures ok == (Current(room) && target in room.peers && |old(room.peers[target].queue)| < PEER_QUEUE_SIZE)
      ensures Current(room) && target in room.peers ==>
                && room.peers[target].queue == Queued(old(room.peers[target].queue), message)
                && room.peers[target].cancelled == (old(room.peers[target].cancelled) || !ok)
    {
      if !Current(room) || target !in room.peers {
        return false;
      }
      ok := room.peers[target].Enqueue(message);
    }
  }

  /** The connection counters, in total and per client address. */
  class ConnectionCounter {
    var connections: map<Ip, nat>
    var total: nat
    const maxConnections: nat
    const maxPerIp: nat

    constructor (maxConnections: nat, maxPerIp: nat)
      ensures connections == map[] && total == 0
      ensures this.maxConnections == maxConnections && this.maxPerIp == maxPerIp
    {
      connections := map[];
      total := 0;
      this.maxConnections := maxConnections;
      this.maxPerIp := maxPerIp;
    }

    method Acquire(ip: Ip) returns (ok: bool)
      modifies this
      ensures ok == (old(total) < maxConnections && Count(old(connections), ip) < maxPerIp)
      ensures total == old(total) + if ok then 1 else 0
      ensures forall a :: Count(connections, a) == Count(old(connections), a) + if ok && a == ip then 1 else 0
    {
      if total >= maxConnections || Count(connections, ip) >= maxPerIp {
        return false;
      }
      connections := connections[ip := Count(connections, ip) + 1];
      total := total + 1;
      return true;
    }

    method Release(ip: Ip)
      modifies this
      ensures total == if old(total) > 0 then old(total) - 1 else 0
      ensures forall a :: Count(connections, a) ==
                if a == ip && Count(old(connections), a) > 0 then Count(old(connections), a) - 1
                else Count(old(connections), a)
      ensures ip in connections ==> connections[ip] > 0
      ensures connections.Keys <= old(connections).Keys
    {
      if Count(connections, ip) <= 1 {
        connections := connections - {ip};
      } else {
        connections := connections[ip := connections[ip] - 1];
      }
      if total > 0 {
        total := total - 1;
      }
    }
  }
}
