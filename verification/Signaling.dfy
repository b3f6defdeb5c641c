/**
 The signaling server as a whole: every connection's handler, the rooms, the outgoing queues and
 the connection counters. One step is one critical section or one queue operation of one handler;
 a run is any interleaving of such steps. Join and leave announcements go out after the lock is
 released, from a snapshot, one recipient per step.
 */
module Signaling {
  import opened Wrappers

  type PeerId = nat
  type RoomId = nat
  type Ip = nat

  const PEER_QUEUE_SIZE := 256

  datatype Config = Config(maxRooms: nat, maxRoomSize: nat, maxConnections: nat, maxPerIp: nat)

  datatype Message =
    | JoinAccepted(peers: set<PeerId>)
    | PeerJoined(peer: PeerId)
    | PeerLeft(peer: PeerId)
    | Signal(from: PeerId, passage: Passage)
    | Error

  /**
   For the record, not on the wire: whether the receiver of a signal had been admitted again between
   its being addressed and its delivery, and if so whether the sender was in the room that the
   receiver had entered last, or a stranger there.
   */
  datatype Passage = Direct | Crossed(known: bool)

  /** Where a connection's handler is. */
  datatype Phase =
    | Connecting                                  // counted, handshake not finished
    | Reading                                     // waiting for the next client message
    | Announcing                                  // admitted, peer_joined not yet addressed
    | Joining(rest: set<PeerId>)                  // still to be sent peer_joined
    | Routing(target: PeerId, epoch: nat)         // target found, signal not yet queued
    | Leaving(rest: set<PeerId>, exiting: bool)   // still to be sent peer_left
    | Exiting                                     // handler done, connection still counted
    | Gone

  /**
   A connection: its handler, its room, everything ever put in its queue and how much of that the
   writer took out. `joins` counts its admissions and `home` is the room of the last one.
   `strangers` are the peers whose peer_joined was addressed to it in an earlier room but arrived
   after it had entered the present one, unless they have announced themselves there or said goodbye
   since.
   */
  datatype Conn = Conn(
    ip: Ip, phase: Phase, room: Option<RoomId>,
    inbox: seq<Message>, drained: nat, cancelled: bool,
    joins: nat, home: Option<RoomId>, strangers: set<PeerId>)

  datatype Room = Room(maxPeers: nat, members: set<PeerId>)
  type Rooms = map<RoomId, Room>
  type Conns = map<PeerId, Conn>

  datatype State = State(
    config: Config, rooms: Rooms, used: set<RoomId>, conns: Conns, perIp: map<Ip, nat>, total: nat)

  function Start(config: Config): State {
    State(config, map[], {}, map[], map[], 0)
  }

  // ---------- Rooms ----------

  datatype Request = New | Existing(room: RoomId)
  datatype Refusal = RoomLimit | RoomNotFound | RoomFull | Unanswered

  datatype Admission =
    | Admitted(rooms: Rooms, id: RoomId, existing: set<PeerId>)
    | Refused(rooms: Rooms, why: Refusal)

  /** RoomManager.Admit; `answered` says that the admission response could be queued. */
  function Admit(rooms: Rooms, maxRooms: nat, maxPeers: nat, request: Request, uuid: RoomId, p: PeerId, answered: bool)
    : Admission
  {
    if request.New? && |rooms| >= maxRooms then Refused(rooms, RoomLimit)
    else if request.Existing? && request.room !in rooms then Refused(rooms, RoomNotFound)
    else
      var id := if request.New? then uuid else request.room;
      var rooms := if request.New? then rooms[uuid := Room(maxPeers, {})] else rooms;
      Enter(rooms, id, p, answered)
  }

  function Enter(rooms: Rooms, id: RoomId, p: PeerId, answered: bool): Admission
    requires id in rooms
  {
    var room := rooms[id];
    if |room.members| >= room.maxPeers then Refused(rooms, RoomFull)
    else if !answered then Refused(if |room.members| == 0 then rooms - {id} else rooms, Unanswered)
    else Admitted(rooms[id := room.(members := room.members + {p})], id, room.members)
  }

  /** RoomManager.Leave on a room that is still the stored one. */
  function Remove(rooms: Rooms, id: RoomId, p: PeerId): Rooms
    requires id in rooms
  {
    var members := rooms[id].members - {p};
    if members == {} then rooms - {id} else rooms[id := rooms[id].(members := members)]
  }

  // ---------- Queues ----------

  predicate HasSpace(c: Conn) {
    |c.inbox| - c.drained < PEER_QUEUE_SIZE
  }

  /** Peer.enqueue: a full queue cancels the peer instead. */
  function Enqueue(c: Conn, m: Message): Conn {
    if HasSpace(c) then c.(inbox := c.inbox + [m]) else c.(cancelled := true)
  }

  /** What one message does to the client's idea of who is in its room. */
  function After(view: set<PeerId>, m: Message): set<PeerId> {
    match m
    case JoinAccepted(peers) => peers
    case PeerJoined(q) => view + {q}
    case PeerLeft(q) => view - {q}
    case Signal(_, _) => view
    case Error => view
  }

  /** Who the client believes is in its room after reading these messages. */
  function View(inbox: seq<Message>): set<PeerId> {
    if inbox == [] then {} else After(View(inbox[..|inbox| - 1]), inbox[|inbox| - 1])
  }

  // ---------- Steps ----------

  datatype Event =
    | Acquire(p: PeerId, ip: Ip)
    | Handshake(p: PeerId, ok: bool)
    | Complain(p: PeerId)
    | Join(p: PeerId, request: Request, uuid: RoomId, marshalled: bool)
    | Address(p: PeerId)
    | SendJoined(p: PeerId, q: PeerId)
    | EndJoined(p: PeerId)
    | Route(p: PeerId, target: PeerId)
    | SendSignal(p: PeerId)
    | Leave(p: PeerId, exiting: bool)
    | SendLeft(p: PeerId, q: PeerId)
    | EndLeft(p: PeerId)
    | Release(p: PeerId)
    | Drain(p: PeerId)
    | Cancel(p: PeerId)

  function Count(m: map<Ip, nat>, ip: Ip): nat {
    if ip in m then m[ip] else 0
  }

  predicate At(s: State, p: PeerId, phase: Phase) {
    p in s.conns && s.conns[p].phase == phase
  }

  function Put(s: State, p: PeerId, c: Conn): State {
    s.(conns := s.conns[p := c])
  }

  /** The connection after m was put in its queue, or could not be. */
  function Delivered(c: Conn, m: Message, strangers: set<PeerId>): Conn {
    Enqueue(c, m).(strangers := strangers)
  }

  function Deliver(s: State, q: PeerId, m: Message, strangers: set<PeerId>): State
    requires q in s.conns
  {
    Put(s, q, Delivered(s.conns[q], m, strangers))
  }

  function Move(s: State, p: PeerId, phase: Phase): State
    requires p in s.conns
  {
    Put(s, p, s.conns[p].(phase := phase))
  }

  function Complaint(s: State, p: PeerId): State
    requires p in s.conns
  {
    Put(s, p, Enqueue(s.conns[p], Error))
  }

  function Welcome(c: Conn, id: RoomId, existing: set<PeerId>): Conn {
    Enqueue(c, JoinAccepted(existing))
    .(phase := Announcing, room := Some(id), joins := c.joins + 1, home := Some(id), strangers := {})
  }

  /** A join request: refused with an error in the queue, or admitted with the room's members in it. */
  function JoinStep(s: State, p: PeerId, request: Request, uuid: RoomId, marshalled: bool): State
    requires At(s, p, Reading)
  {
    var c := s.conns[p];
    if c.room.Some? then Complaint(s, p)
    else if request.New? && uuid in s.used then s
    else
      var used := if request.New? then s.used + {uuid} else s.used;
      match Admit(s.rooms, s.config.maxRooms, s.config.maxRoomSize, request, uuid, p, marshalled && HasSpace(c))
      case Refused(rooms, why) => Complaint(s.(rooms := rooms, used := used), p)
      case Admitted(rooms, id, existing) => Put(s.(rooms := rooms, used := used), p, Welcome(c, id, existing))
  }

  /** The strangers after peer_joined from a peer that is in the given room. */
  function Greeted(c: Conn, p: PeerId, room: Option<RoomId>): set<PeerId> {
    if c.room.Some? && c.room != room then c.strangers + {p} else c.strangers - {p}
  }

  /** peer_joined from p goes to q; q was in p's room when p asked who to tell. */
  function SendJoinedStep(s: State, p: PeerId, q: PeerId): State
    requires p in s.conns && q in s.conns && s.conns[p].phase.Joining?
  {
    var c := s.conns[q];
    Move(Deliver(s, q, PeerJoined(p), Greeted(c, p, s.conns[p].room)), p, Joining(s.conns[p].phase.rest - {q}))
  }

  function SendLeftStep(s: State, p: PeerId, q: PeerId): State
    requires p in s.conns && q in s.conns && s.conns[p].phase.Leaving?
  {
    var c := s.conns[q];
    var Leaving(rest, exiting) := s.conns[p].phase;
    Move(Deliver(s, q, PeerLeft(p), c.strangers - {p}), p, Leaving(rest - {q}, exiting))
  }

  function PassageOf(cp: Conn, p: PeerId, c: Conn, epoch: nat): Passage {
    if c.joins == epoch then Direct else Crossed(cp.room == c.home || p in c.strangers)
  }

  function SendSignalStep(s: State, p: PeerId): State
    requires p in s.conns && s.conns[p].phase.Routing? && s.conns[p].phase.target in s.conns
  {
    var Routing(q, epoch) := s.conns[p].phase;
    var c := s.conns[q];
    var sent := Move(Deliver(s, q, Signal(p, PassageOf(s.conns[p], p, c, epoch)), c.strangers), p, Reading);
    if HasSpace(c) then sent else Complaint(sent, p)
  }

  function RouteStep(s: State, p: PeerId, target: PeerId): State
    requires At(s, p, Reading)
  {
    var c := s.conns[p];
    if c.room.Some? && c.room.value in s.rooms && target in s.rooms[c.room.value].members && target in s.conns then
      Move(s, p, Routing(target, s.conns[target].joins))
    else Complaint(s, p)
  }

  /** Broadcast's snapshot: everybody in the room now, except the newcomer. */
  function AddressStep(s: State, p: PeerId): State
    requires p in s.conns && s.conns[p].room.Some? && s.conns[p].room.value in s.rooms
  {
    Move(s, p, Joining(s.rooms[s.conns[p].room.value].members - {p}))
  }

  function LeaveStep(s: State, p: PeerId, exiting: bool): State
    requires At(s, p, Reading)
  {
    var c := s.conns[p];
    if c.room.Some? && c.room.value in s.rooms then
      var id := c.room.value;
      var rest := s.rooms[id].members - {p};
      Put(s.(rooms := Remove(s.rooms, id, p)), p, Departed(c, rest, exiting))
    else if exiting then Move(s, p, Exiting)
    else s
  }

  function AcquireStep(s: State, p: PeerId, ip: Ip): State
    requires p !in s.conns
  {
    if s.total >= s.config.maxConnections || Count(s.perIp, ip) >= s.config.maxPerIp then s
    else
      Put(s, p, Conn(ip, Connecting, None, [], 0, false, 0, None, {}))
      .(perIp := s.perIp[ip := Count(s.perIp, ip) + 1], total := s.total + 1)
  }

  function ReleaseStep(s: State, p: PeerId): State
    requires At(s, p, Exiting)
  {
    var c := s.conns[p];
    Put(s, p, c.(phase := Gone))
    .(perIp := if Count(s.perIp, c.ip) <= 1 then s.perIp - {c.ip} else s.perIp[c.ip := s.perIp[c.ip] - 1],
      total := if s.total > 0 then s.total - 1 else s.total)
  }

  function Drained(c: Conn): Conn {
    c.(drained := c.drained + 1)
  }

  function Cut(c: Conn): Conn {
    c.(cancelled := true)
  }

  function DrainStep(s: State, p: PeerId): State
    requires p in s.conns
  {
    if s.conns[p].drained < |s.conns[p].inbox| then Put(s, p, Drained(s.conns[p])) else s
  }

  function CancelStep(s: State, p: PeerId): State
    requires p in s.conns
  {
    Put(s, p, Cut(s.conns[p]))
  }

  /** An event that its handler is not in a position to take leaves the state as it is. */
  function Step(s: State, e: Event): State {
    match e
    case Acquire(p, ip) => if p in s.conns then s else AcquireStep(s, p, ip)
    case Handshake(p, ok) =>
      if At(s, p, Connecting) then Move(s, p, if ok then Reading else Exiting) else s
    case Complain(p) => if At(s, p, Reading) then Complaint(s, p) else s
    case Join(p, request, uuid, marshalled) =>
      if At(s, p, Reading) then JoinStep(s, p, request, uuid, marshalled) else s
    case Address(p) =>
      if At(s, p, Announcing) && s.conns[p].room.Some? && s.conns[p].room.value in s.rooms then AddressStep(s, p) else s
    case SendJoined(p, q) =>
      if p in s.conns && q in s.conns && s.conns[p].phase.Joining? && q in s.conns[p].phase.rest
      then SendJoinedStep(s, p, q) else s
    case EndJoined(p) => if At(s, p, Joining({})) then Move(s, p, Reading) else s
    case Route(p, target) => if At(s, p, Reading) then RouteStep(s, p, target) else s
    case SendSignal(p) =>
      if p in s.conns && s.conns[p].phase.Routing? && s.conns[p].phase.target in s.conns
      then SendSignalStep(s, p) else s
    case Leave(p, exiting) => if At(s, p, Reading) then LeaveStep(s, p, exiting) else s
    case SendLeft(p, q) =>
      if p in s.conns && q in s.conns && s.conns[p].phase.Leaving? && q in s.conns[p].phase.rest
      then SendLeftStep(s, p, q) else s
    case EndLeft(p) =>
      if At(s, p, Leaving({}, true)) then Move(s, p, Exiting)
      else if At(s, p, Leaving({}, false)) then Move(s, p, Reading)
      else s
    case Release(p) => if At(s, p, Exiting) then ReleaseStep(s, p) else s
    case Drain(p) => if p in s.conns then DrainStep(s, p) else s
    case Cancel(p) => if p in s.conns then CancelStep(s, p) else s
  }

  function Run(s: State, events: seq<Event>): State {
    if events == [] then s else Step(Run(s, events[..|events| - 1]), events[|events| - 1])
  }

  // ---------- The invariant ----------

  /** q has joined p's room and still has to tell p. */
  predicate OwesJoined(q: Conn, p: PeerId) {
    q.phase == Announcing || (q.phase.Joining? && p in q.phase.rest)
  }

  predicate OwesLeft(q: Conn, p: PeerId) {
    q.phase.Leaving? && p in q.phase.rest
  }

  /**
   A direct signal comes while the view names its sender; a crossed one does exactly when the sender
   is known in the receiver's last room.
   */
  predicate CausalAfter(view: set<PeerId>, m: Message)
    requires m.Signal?
  {
    match m.passage
    case Direct => m.from in view
    case Crossed(known) => m.from in view <==> known
  }

  ghost predicate Causal(p: PeerId, inbox: seq<Message>) {
    forall i :: 0 <= i < |inbox| && inbox[i].Signal? && inbox[i].from != p ==> CausalAfter(View(inbox[..i]), inbox[i])
  }

  /** What holds of one connection by itself. */
  ghost predicate ConnOk(p: PeerId, c: Conn) {
    && c.drained <= |c.inbox|
    && (c.phase.Announcing? || c.phase.Joining? || c.phase.Routing? ==> c.room.Some?)
    && (c.room.Some? ==> c.phase.Announcing? || c.phase.Joining? || c.phase.Routing? || c.phase.Reading?)
    && (c.room.Some? ==> c.joins >= 1 && c.home == c.room)
    && (c.strangers != {} ==> c.joins >= 2) && p !in c.strangers
    && (c.phase.Joining? || c.phase.Leaving? ==> p !in c.phase.rest)
    && (c.phase.Routing? && c.phase.target == p ==> c.phase.epoch == c.joins)
    && (!c.cancelled ==> Causal(p, c.inbox))
    && (c.joins <= 1 ==> forall i :: 0 <= i < |c.inbox| && c.inbox[i].Signal? ==> c.inbox[i].passage.Direct?)
  }

  /** p's view of q, and what q is still going to send to p. */
  ghost predicate PairOk(p: PeerId, cp: Conn, q: PeerId, cq: Conn) {
    && (!cp.cancelled && cp.room.Some? ==>
          && (cq.room == cp.room && !OwesJoined(cq, p) ==> q in View(cp.inbox))
          && (cq.room != cp.room && q !in cp.strangers && !OwesLeft(cq, p) ==> q !in View(cp.inbox))
          && (q in cp.strangers ==> q in View(cp.inbox) && (cq.room == cp.room ==> OwesJoined(cq, p))))
    && (cq.phase.Joining? && p in cq.phase.rest ==>
          cp.joins >= 1 && (cp.joins == 1 && cp.room.Some? ==> cp.room == cq.room))
    && (cq.phase.Routing? && cq.phase.target == p ==>
          && 1 <= cq.phase.epoch <= cp.joins
          && (!cp.cancelled ==>
                (q in View(cp.inbox) <==> cp.joins == cq.phase.epoch || cq.room == cp.home || q in cp.strangers)))
  }

  ghost predicate ConnsOk(conns: Conns) {
    && (forall p :: p in conns ==> ConnOk(p, conns[p]))
    && (forall p, q :: p in conns && q in conns && p != q ==> PairOk(p, conns[p], q, conns[q]))
  }

  /** Rooms list exactly the connections that have them as their room, and views name only known peers. */
  ghost predicate RoomsOk(rooms: Rooms, conns: Conns) {
    && (forall r, p :: r in rooms && p in rooms[r].members ==> p in conns && conns[p].room == Some(r))
    && (forall p :: p in conns && conns[p].room.Some? ==>
          conns[p].room.value in rooms && p in rooms[conns[p].room.value].members)
  }

  ghost predicate Known(conns: Conns) {
    forall p :: p in conns ==>
      && View(conns[p].inbox) <= conns.Keys && conns[p].strangers <= conns.Keys
      && (conns[p].phase.Joining? || conns[p].phase.Leaving? ==> conns[p].phase.rest <= conns.Keys)
      && (conns[p].phase.Routing? ==> conns[p].phase.target in conns)
  }

  ghost predicate SizesOk(s: State) {
    && s.config.maxRoomSize >= 1
    && |s.rooms| <= s.config.maxRooms
    && s.rooms.Keys <= s.used
    && forall r :: r in s.rooms ==>
         s.rooms[r].maxPeers == s.config.maxRoomSize && 1 <= |s.rooms[r].members| <= s.rooms[r].maxPeers
  }

  function Live(conns: Conns): set<PeerId> {
    set p | p in conns && conns[p].phase != Gone
  }

  function LiveAt(conns: Conns, ip: Ip): set<PeerId> {
    set p | p in conns && conns[p].phase != Gone && conns[p].ip == ip
  }

  /** The counters count the connections that have not been released, and respect their limits. */
  ghost predicate CountersOk(s: State) {
    && s.total == |Live(s.conns)| && s.total <= s.config.maxConnections
    && (forall ip :: Count(s.perIp, ip) == |LiveAt(s.conns, ip)| && Count(s.perIp, ip) <= s.config.maxPerIp)
    && (forall ip :: ip in s.perIp ==> s.perIp[ip] > 0)
  }

  ghost predicate Inv(s: State) {
    && ConnsOk(s.conns)
    && RoomsOk(s.rooms, s.conns)
    && Known(s.conns)
    && SizesOk(s)
    && CountersOk(s)
  }

  // ---------- Queues and views ----------

  lemma ViewSnoc(inbox: seq<Message>, m: Message)
    ensures View(inbox + [m]) == After(View(inbox), m)
  {
  }

  lemma CausalSnoc(p: PeerId, inbox: seq<Message>, m: Message)
    requires Causal(p, inbox) && (m.Signal? && m.from != p ==> CausalAfter(View(inbox), m))
    ensures Causal(p, inbox + [m])
  {
    var longer := inbox + [m];
    forall i | 0 <= i < |longer| && longer[i].Signal? && longer[i].from != p
      ensures CausalAfter(View(longer[..i]), longer[i])
    {
      assert longer[..i] == inbox[..i] && inbox[..|inbox|] == inbox;
    }
  }

  // ---------- Replacing one connection ----------

  /** The connection c may stand in for p: it keeps p's room, address and liveness and every pairwise condition. */
  ghost predicate Fits(s: State, p: PeerId, c: Conn) {
    && p in s.conns
    && c.ip == s.conns[p].ip && c.room == s.conns[p].room && (c.phase == Gone <==> s.conns[p].phase == Gone)
    && ConnOk(p, c)
    && View(c.inbox) <= s.conns.Keys && c.strangers <= s.conns.Keys
    && (c.phase.Joining? || c.phase.Leaving? ==> c.phase.rest <= s.conns.Keys)
    && (c.phase.Routing? ==> c.phase.target in s.conns)
    && PairsFit(s.conns, p, c)
  }

  ghost predicate PairsFit(conns: Conns, p: PeerId, c: Conn) {
    forall q :: q in conns && q != p ==> PairOk(p, c, q, conns[q]) && PairOk(q, conns[q], p, c)
  }

  lemma PutConnsOk(conns: Conns, p: PeerId, c: Conn)
    requires ConnsOk(conns) && ConnOk(p, c) && PairsFit(conns, p, c)
    ensures ConnsOk(conns[p := c])
  {
  }

  lemma SameLive(a: Conns, b: Conns)
    requires a.Keys == b.Keys
    requires forall p :: p in a ==> a[p].ip == b[p].ip && (a[p].phase == Gone <==> b[p].phase == Gone)
    ensures Live(a) == Live(b) && forall ip :: LiveAt(a, ip) == LiveAt(b, ip)
  {
  }

  lemma PutLive(conns: Conns, p: PeerId, c: Conn)
    requires p in conns && c.ip == conns[p].ip && (c.phase == Gone <==> conns[p].phase == Gone)
    ensures Live(conns[p := c]) == Live(conns) && forall ip :: LiveAt(conns[p := c], ip) == LiveAt(conns, ip)
  {
  }

  /** Putting a connection in place of p, with other rooms, keeps the counters. */
  lemma PutCounters(s: State, p: PeerId, c: Conn, rooms: Rooms, used: set<RoomId>)
    requires CountersOk(s) && p in s.conns && c.ip == s.conns[p].ip && (c.phase == Gone <==> s.conns[p].phase == Gone)
    ensures CountersOk(Put(s.(rooms := rooms, used := used), p, c))
  {
    PutLive(s.conns, p, c);
    CountersSame(s, Put(s.(rooms := rooms, used := used), p, c));
  }

  lemma CountersSame(s: State, t: State)
    requires CountersOk(s) && Live(t.conns) == Live(s.conns) && forall ip :: LiveAt(t.conns, ip) == LiveAt(s.conns, ip)
    requires t.perIp == s.perIp && t.total == s.total && t.config == s.config
    ensures CountersOk(t)
  {
  }

  lemma PutRoomsOk(rooms: Rooms, conns: Conns, p: PeerId, c: Conn)
    requires RoomsOk(rooms, conns) && p in conns && c.room == conns[p].room
    ensures RoomsOk(rooms, conns[p := c])
  {
  }

  lemma PutKnown(conns: Conns, p: PeerId, c: Conn)
    requires Known(conns) && p in conns && View(c.inbox) <= conns.Keys && c.strangers <= conns.Keys
    requires c.phase.Joining? || c.phase.Leaving? ==> c.phase.rest <= conns.Keys
    requires c.phase.Routing? ==> c.phase.target in conns
    ensures Known(conns[p := c])
  {
  }

  lemma PutInv(s: State, p: PeerId, c: Conn)
    requires Inv(s) && Fits(s, p, c)
    ensures Inv(Put(s, p, c))
  {
    PutConnsOk(s.conns, p, c);
    PutRoomsOk(s.rooms, s.conns, p, c);
    PutKnown(s.conns, p, c);
    SameLive(s.conns, s.conns[p := c]);
    CountersSame(s, Put(s, p, c));
  }

  // ---------- Steps of one handler ----------

  /** What a queued message may do to q's view of u. */
  lemma DeliveredPair(q: PeerId, o: Conn, c: Conn, m: Message, u: PeerId, cu: Conn)
    requires PairOk(q, o, u, cu) && !m.JoinAccepted?
    requires c.room == o.room && c.joins == o.joins && c.home == o.home
    requires c.cancelled == (o.cancelled || !HasSpace(o))
    requires HasSpace(o) ==> View(c.inbox) == After(View(o.inbox), m)
    requires m != PeerJoined(u) && m != PeerLeft(u) ==> (u in c.strangers <==> u in o.strangers)
    requires m == PeerJoined(u) ==> c.strangers == Greeted(o, u, cu.room) && cu.phase.Joining?
    requires m == PeerLeft(u) ==> u !in c.strangers && cu.room.None? && !cu.phase.Routing?
    ensures PairOk(q, c, u, cu)
  {
  }

  lemma DeliveredBack(q: PeerId, o: Conn, m: Message, strangers: set<PeerId>, u: PeerId, cu: Conn)
    requires PairOk(u, cu, q, o)
    ensures PairOk(u, cu, q, Delivered(o, m, strangers))
  {
  }

  lemma DeliveredConn(q: PeerId, o: Conn, m: Message, strangers: set<PeerId>)
    requires ConnOk(q, o) && !m.JoinAccepted? && q !in strangers && (strangers != {} ==> o.joins >= 2)
    requires m.Signal? && m.from != q && !o.cancelled ==> CausalAfter(View(o.inbox), m)
    requires m.Signal? && m.passage.Crossed? ==> o.joins >= 2
    ensures ConnOk(q, Delivered(o, m, strangers))
    ensures HasSpace(o) ==> View(Delivered(o, m, strangers).inbox) == After(View(o.inbox), m)
  {
    ViewSnoc(o.inbox, m);
    if !o.cancelled {
      CausalSnoc(q, o.inbox, m);
    }
  }

  /** The message is no admission and fits what its sender is doing. */
  predicate Sendable(conns: Conns, q: PeerId, m: Message, strangers: set<PeerId>)
    requires q in conns
  {
    var o := conns[q];
    && q !in strangers && strangers <= conns.Keys && (strangers != {} ==> o.joins >= 2)
    && match m
       case JoinAccepted(_) => false
       case PeerJoined(p) =>
         p in conns && strangers == Greeted(o, p, conns[p].room) && conns[p].phase.Joining?
       case PeerLeft(p) =>
         p in conns && strangers == o.strangers - {p} && conns[p].room.None? && !conns[p].phase.Routing?
       case Signal(from, passage) =>
         && strangers == o.strangers && (passage.Crossed? ==> o.joins >= 2)
         && (from != q && !o.cancelled ==> CausalAfter(View(o.inbox), m))
       case Error => strangers == o.strangers
  }

  /** A message changes at most what its receiver makes of the peer it is about. */
  lemma SendableStrangers(conns: Conns, q: PeerId, m: Message, strangers: set<PeerId>, u: PeerId)
    requires q in conns && u in conns && Sendable(conns, q, m, strangers)
    ensures m != PeerJoined(u) && m != PeerLeft(u) ==> (u in strangers <==> u in conns[q].strangers)
    ensures m == PeerJoined(u) ==> strangers == Greeted(conns[q], u, conns[u].room) && conns[u].phase.Joining?
    ensures m == PeerLeft(u) ==> u !in strangers && conns[u].room.None? && !conns[u].phase.Routing?
  {
  }

  lemma DeliveredPairs(conns: Conns, q: PeerId, m: Message, strangers: set<PeerId>)
    requires ConnsOk(conns) && q in conns && Sendable(conns, q, m, strangers)
    ensures PairsFit(conns, q, Delivered(conns[q], m, strangers))
  {
    var o, c := conns[q], Delivered(conns[q], m, strangers);
    ViewSnoc(o.inbox, m);
    forall u | u in conns && u != q
      ensures PairOk(q, c, u, conns[u]) && PairOk(u, conns[u], q, c)
    {
      SendableStrangers(conns, q, m, strangers, u);
      DeliveredPair(q, o, c, m, u, conns[u]);
      DeliveredBack(q, o, m, strangers, u, conns[u]);
    }
  }

  /** Queueing such a message keeps every condition. */
  lemma DeliveredFits(s: State, q: PeerId, m: Message, strangers: set<PeerId>)
    requires Inv(s) && q in s.conns && Sendable(s.conns, q, m, strangers)
    ensures Fits(s, q, Delivered(s.conns[q], m, strangers))
  {
    var o := s.conns[q];
    assert ConnOk(q, o);
    DeliveredConn(q, o, m, strangers);
    DeliveredPairs(s.conns, q, m, strangers);
    assert !HasSpace(o) ==> Delivered(o, m, strangers).inbox == o.inbox;
  }

  lemma DeliverInv(s: State, q: PeerId, m: Message, strangers: set<PeerId>)
    requires Inv(s) && q in s.conns && Sendable(s.conns, q, m, strangers)
    ensures Inv(Deliver(s, q, m, strangers))
    ensures var c := Deliver(s, q, m, strangers).conns[q];
            !c.cancelled ==> View(c.inbox) == After(View(s.conns[q].inbox), m)
  {
    DeliveredFits(s, q, m, strangers);
    PutInv(s, q, Delivered(s.conns[q], m, strangers));
    ViewSnoc(s.conns[q].inbox, m);
  }

  /** Queueing an error, or being cancelled by it, changes no view. */
  lemma ComplainInv(s: State, p: PeerId)
    requires Inv(s) && p in s.conns
    ensures Inv(Complaint(s, p))
  {
    var o := s.conns[p];
    assert ConnOk(p, o);
    DeliverInv(s, p, Error, o.strangers);
    assert Delivered(o, Error, o.strangers) == Enqueue(o, Error);
  }

  /** A handler that owes nobody an announcement may move on, and the writer may work, at any time. */
  predicate IdleChange(o: Conn, c: Conn) {
    && c.inbox == o.inbox && c.room == o.room && c.ip == o.ip
    && c.joins == o.joins && c.home == o.home && c.strangers == o.strangers
    && (o.cancelled ==> c.cancelled) && o.drained <= c.drained <= |c.inbox|
    && (c.phase == o.phase || MovesOn(o, c.phase))
  }

  predicate MovesOn(o: Conn, phase: Phase) {
    || (phase.Reading? && (o.phase == Joining({}) || o.phase == Leaving({}, false) || o.phase.Connecting?))
    || (phase.Exiting? && (o.phase == Leaving({}, true) || o.phase.Connecting? || (o.phase.Reading? && o.room.None?)))
  }

  lemma IdlePair(p: PeerId, o: Conn, c: Conn, q: PeerId, cq: Conn)
    requires IdleChange(o, c) && PairOk(p, o, q, cq) && PairOk(q, cq, p, o)
    ensures PairOk(p, c, q, cq) && PairOk(q, cq, p, c)
  {
  }

  lemma IdleFits(s: State, p: PeerId, c: Conn)
    requires Inv(s) && p in s.conns && IdleChange(s.conns[p], c)
    ensures Fits(s, p, c)
  {
    var o := s.conns[p];
    assert ConnOk(p, o);
    forall q | q in s.conns && q != p
      ensures PairOk(p, c, q, s.conns[q]) && PairOk(q, s.conns[q], p, c)
    {
      IdlePair(p, o, c, q, s.conns[q]);
    }
    IdleConn(p, o, c);
  }

  lemma IdleConn(p: PeerId, o: Conn, c: Conn)
    requires IdleChange(o, c) && ConnOk(p, o)
    ensures ConnOk(p, c)
  {
  }

  lemma AddressPairs(rooms: Rooms, conns: Conns, p: PeerId, rest: set<PeerId>)
    requires ConnsOk(conns) && RoomsOk(rooms, conns)
    requires p in conns && conns[p].phase == Announcing && conns[p].room.Some?
    requires conns[p].room.value in rooms && rest == rooms[conns[p].room.value].members - {p}
    ensures PairsFit(conns, p, conns[p].(phase := Joining(rest)))
  {
  }

  lemma AddressFits(s: State, p: PeerId, rest: set<PeerId>)
    requires Inv(s) && At(s, p, Announcing) && s.conns[p].room.Some? && s.conns[p].room.value in s.rooms
    requires rest == s.rooms[s.conns[p].room.value].members - {p}
    ensures Fits(s, p, s.conns[p].(phase := Joining(rest)))
  {
    AddressConn(p, s.conns[p], rest);
    OthersKnown(s.rooms, s.conns, s.conns[p].room.value, p, rest);
    AddressPairs(s.rooms, s.conns, p, rest);
  }

  lemma AddressConn(p: PeerId, o: Conn, rest: set<PeerId>)
    requires ConnOk(p, o) && o.phase == Announcing && p !in rest
    ensures ConnOk(p, o.(phase := Joining(rest)))
  {
  }

  lemma OthersKnown(rooms: Rooms, conns: Conns, id: RoomId, p: PeerId, rest: set<PeerId>)
    requires RoomsOk(rooms, conns) && id in rooms && rest == rooms[id].members - {p}
    ensures rest <= conns.Keys
  {
  }

  lemma AddressInv(s: State, p: PeerId)
    requires Inv(s) && At(s, p, Announcing)
    ensures s.conns[p].room.Some? && s.conns[p].room.value in s.rooms && Inv(AddressStep(s, p))
  {
    assert ConnOk(p, s.conns[p]);
    var rest := s.rooms[s.conns[p].room.value].members - {p};
    AddressFits(s, p, rest);
    PutInv(s, p, s.conns[p].(phase := Joining(rest)));
  }

  /** A handler that has told q may strike q off its list. */
  lemma StruckOff(s: State, p: PeerId, q: PeerId, phase: Phase)
    requires Inv(s) && p in s.conns && q in s.conns && q != p
    requires var o := s.conns[p].phase;
             || (o.Joining? && phase == Joining(o.rest - {q})
                 && (!s.conns[q].cancelled ==> p in View(s.conns[q].inbox)))
             || (o.Leaving? && phase == Leaving(o.rest - {q}, o.exiting)
                 && (!s.conns[q].cancelled ==> p !in View(s.conns[q].inbox)))
    requires s.conns[q].room.Some? ==>
               (p in s.conns[q].strangers <==> s.conns[p].phase.Joining? && s.conns[q].room != s.conns[p].room)
    ensures Inv(Move(s, p, phase))
  {
    var o := s.conns[p];
    var c := o.(phase := phase);
    assert ConnOk(p, o);
    forall u | u in s.conns && u != p
      ensures PairOk(p, c, u, s.conns[u]) && PairOk(u, s.conns[u], p, c)
    {
      assert PairOk(p, o, u, s.conns[u]) && PairOk(u, s.conns[u], p, o);
    }
    assert Fits(s, p, c);
    PutInv(s, p, c);
  }

  lemma SendJoinedInv(s: State, p: PeerId, q: PeerId)
    requires Inv(s) && p in s.conns && q in s.conns && s.conns[p].phase.Joining? && q in s.conns[p].phase.rest
    ensures Inv(SendJoinedStep(s, p, q))
  {
    var o := s.conns[q];
    assert ConnOk(p, s.conns[p]) && ConnOk(q, o) && PairOk(q, o, p, s.conns[p]);
    var strangers := Greeted(o, p, s.conns[p].room);
    DeliverInv(s, q, PeerJoined(p), strangers);
    StruckOff(Deliver(s, q, PeerJoined(p), strangers), p, q, Joining(s.conns[p].phase.rest - {q}));
  }

  lemma SendLeftInv(s: State, p: PeerId, q: PeerId)
    requires Inv(s) && p in s.conns && q in s.conns && s.conns[p].phase.Leaving? && q in s.conns[p].phase.rest
    ensures Inv(SendLeftStep(s, p, q))
  {
    var o := s.conns[q];
    assert ConnOk(p, s.conns[p]) && ConnOk(q, o);
    DeliverInv(s, q, PeerLeft(p), o.strangers - {p});
    var Leaving(rest, exiting) := s.conns[p].phase;
    StruckOff(Deliver(s, q, PeerLeft(p), o.strangers - {p}), p, q, Leaving(rest - {q}, exiting));
  }

  lemma RouteInv(s: State, p: PeerId, target: PeerId)
    requires Inv(s) && At(s, p, Reading)
    ensures Inv(RouteStep(s, p, target))
  {
    var o := s.conns[p];
    if o.room.Some? && o.room.value in s.rooms && target in s.rooms[o.room.value].members && target in s.conns {
      var c := o.(phase := Routing(target, s.conns[target].joins));
      assert ConnOk(p, o) && ConnOk(target, s.conns[target]);
      forall u | u in s.conns && u != p
        ensures PairOk(p, c, u, s.conns[u]) && PairOk(u, s.conns[u], p, c)
      {
        assert PairOk(p, o, u, s.conns[u]) && PairOk(u, s.conns[u], p, o);
      }
      assert Fits(s, p, c);
      PutInv(s, p, c);
    } else {
      ComplainInv(s, p);
    }
  }

  /** Delivering a signal from p to its target, which may be p itself. */
  lemma SignalDelivered(s: State, p: PeerId)
    requires Inv(s) && p in s.conns && s.conns[p].phase.Routing? && s.conns[p].phase.target in s.conns
    ensures var Routing(q, epoch) := s.conns[p].phase;
            var t := Deliver(s, q, Signal(p, PassageOf(s.conns[p], p, s.conns[q], epoch)), s.conns[q].strangers);
            Inv(t) && p in t.conns && t.conns[p].phase.Routing?
  {
    var Routing(q, epoch) := s.conns[p].phase;
    var o := s.conns[q];
    assert ConnOk(p, s.conns[p]) && ConnOk(q, o);
    assert q != p ==> PairOk(q, o, p, s.conns[p]);
    DeliverInv(s, q, Signal(p, PassageOf(s.conns[p], p, o, epoch)), o.strangers);
  }

  lemma SendSignalInv(s: State, p: PeerId)
    requires Inv(s) && p in s.conns && s.conns[p].phase.Routing? && s.conns[p].phase.target in s.conns
    ensures Inv(SendSignalStep(s, p))
  {
    var Routing(q, epoch) := s.conns[p].phase;
    var o := s.conns[q];
    SignalDelivered(s, p);
    var t := Deliver(s, q, Signal(p, PassageOf(s.conns[p], p, o, epoch)), o.strangers);
    RoutedInv(t, p);
    if HasSpace(o) {
      SameState(Move(t, p, Reading), SendSignalStep(s, p));
    } else {
      ComplainInv(Move(t, p, Reading), p);
      SameState(Complaint(Move(t, p, Reading), p), SendSignalStep(s, p));
    }
  }

  lemma RoutedInv(s: State, p: PeerId)
    requires Inv(s) && p in s.conns && s.conns[p].phase.Routing?
    ensures Inv(Move(s, p, Reading))
  {
    var o := s.conns[p];
    var c := o.(phase := Reading);
    assert ConnOk(p, o);
    forall u | u in s.conns && u != p
      ensures PairOk(p, c, u, s.conns[u]) && PairOk(u, s.conns[u], p, c)
    {
      assert PairOk(p, o, u, s.conns[u]) && PairOk(u, s.conns[u], p, o);
    }
    assert Fits(s, p, c);
    PutInv(s, p, c);
  }

  // ---------- Joining and leaving a room ----------

  /** With room for at least one peer, a refusal leaves the rooms exactly as they were. */
  lemma RefusalKeepsRooms(
      rooms: Rooms, maxRooms: nat, maxPeers: nat, request: Request, uuid: RoomId, p: PeerId, answered: bool)
    requires maxPeers >= 1 && (request.New? ==> uuid !in rooms)
    requires forall r :: r in rooms ==> rooms[r].members != {}
    ensures var r := Admit(rooms, maxRooms, maxPeers, request, uuid, p, answered);
            r.Refused? ==> r.rooms == rooms
  {
  }

  /** Without that, creating a room leaves an empty one behind that nobody can enter. */
  lemma ZeroSizeLeaksRoom(rooms: Rooms, maxRooms: nat, uuid: RoomId, p: PeerId, answered: bool)
    requires |rooms| < maxRooms && uuid !in rooms
    ensures Admit(rooms, maxRooms, 0, New, uuid, p, answered) == Refused(rooms[uuid := Room(0, {})], RoomFull)
  {
  }

  ghost predicate Admittable(s: State, p: PeerId, id: RoomId) {
    && At(s, p, Reading) && s.conns[p].room.None? && HasSpace(s.conns[p])
    && (id in s.rooms ==> |s.rooms[id].members| < s.rooms[id].maxPeers)
    && (id !in s.rooms ==> |s.rooms| < s.config.maxRooms)
  }

  function MembersOf(s: State, id: RoomId): set<PeerId> {
    if id in s.rooms then s.rooms[id].members else {}
  }

  lemma WelcomePairs(s: State, p: PeerId, id: RoomId)
    requires ConnsOk(s.conns) && RoomsOk(s.rooms, s.conns) && Admittable(s, p, id)
    ensures PairsFit(s.conns, p, Welcome(s.conns[p], id, MembersOf(s, id)))
  {
  }

  lemma WelcomeConn(p: PeerId, o: Conn, id: RoomId, existing: set<PeerId>)
    requires ConnOk(p, o) && HasSpace(o)
    ensures ConnOk(p, Welcome(o, id, existing)) && View(Welcome(o, id, existing).inbox) == existing
  {
    ViewSnoc(o.inbox, JoinAccepted(existing));
    if !o.cancelled {
      CausalSnoc(p, o.inbox, JoinAccepted(existing));
    }
  }

  lemma WelcomeConns(s: State, p: PeerId, id: RoomId)
    requires Inv(s) && Admittable(s, p, id)
    ensures var c := Welcome(s.conns[p], id, MembersOf(s, id));
            ConnsOk(s.conns[p := c]) && Known(s.conns[p := c])
  {
    var existing := MembersOf(s, id);
    var c := Welcome(s.conns[p], id, existing);
    WelcomeConn(p, s.conns[p], id, existing);
    WelcomePairs(s, p, id);
    PutConnsOk(s.conns, p, c);
    AllKnown(s, id);
    PutKnown(s.conns, p, c);
  }

  lemma AllKnown(s: State, id: RoomId)
    requires RoomsOk(s.rooms, s.conns)
    ensures MembersOf(s, id) <= s.conns.Keys
  {
  }

  lemma EnterRooms(rooms: Rooms, conns: Conns, p: PeerId, c: Conn, id: RoomId, existing: set<PeerId>, maxPeers: nat)
    requires RoomsOk(rooms, conns) && p in conns && conns[p].room.None? && c.room == Some(id)
    requires existing == if id in rooms then rooms[id].members else {}
    ensures RoomsOk(rooms[id := Room(maxPeers, existing + {p})], conns[p := c])
  {
  }

  lemma EnterSizes(s: State, p: PeerId, id: RoomId, used: set<RoomId>)
    requires SizesOk(s) && p !in MembersOf(s, id) && s.used <= used && id in used
    requires id in s.rooms ==> |s.rooms[id].members| < s.rooms[id].maxPeers
    requires id !in s.rooms ==> |s.rooms| < s.config.maxRooms
    ensures SizesOk(s.(rooms := s.rooms[id := Room(s.config.maxRoomSize, MembersOf(s, id) + {p})], used := used))
  {
  }

  function AdmittedState(s: State, p: PeerId, id: RoomId, used: set<RoomId>): State
    requires p in s.conns
  {
    var rooms := s.rooms[id := Room(s.config.maxRoomSize, MembersOf(s, id) + {p})];
    Put(s.(rooms := rooms, used := used), p, Welcome(s.conns[p], id, MembersOf(s, id)))
  }

  lemma AdmittedInv(s: State, p: PeerId, id: RoomId, used: set<RoomId>)
    requires Inv(s) && Admittable(s, p, id) && s.used <= used && id in used
    ensures Inv(AdmittedState(s, p, id, used))
  {
    var existing := MembersOf(s, id);
    var c := Welcome(s.conns[p], id, existing);
    var rooms := s.rooms[id := Room(s.config.maxRoomSize, existing + {p})];
    WelcomeConns(s, p, id);
    EnterRooms(s.rooms, s.conns, p, c, id, existing, s.config.maxRoomSize);
    EnterSizes(s, p, id, used);
    PutCounters(s, p, c, rooms, used);
  }

  lemma UsedInv(s: State, used: set<RoomId>)
    requires Inv(s) && s.used <= used
    ensures Inv(s.(used := used))
  {
  }

  function Outcome(s: State, p: PeerId, request: Request, uuid: RoomId, marshalled: bool): Admission
    requires p in s.conns
  {
    Admit(s.rooms, s.config.maxRooms, s.config.maxRoomSize, request, uuid, p, marshalled && HasSpace(s.conns[p]))
  }

  lemma JoinRefused(s: State, p: PeerId, request: Request, uuid: RoomId, marshalled: bool, used: set<RoomId>)
    requires SizesOk(s) && At(s, p, Reading) && s.conns[p].room.None? && !(request.New? && uuid in s.used)
    requires used == if request.New? then s.used + {uuid} else s.used
    requires Outcome(s, p, request, uuid, marshalled).Refused?
    ensures JoinStep(s, p, request, uuid, marshalled) == Complaint(s.(used := used), p)
  {
  }

  lemma JoinAdmitted(s: State, p: PeerId, request: Request, uuid: RoomId, marshalled: bool, used: set<RoomId>)
    requires SizesOk(s) && At(s, p, Reading) && s.conns[p].room.None? && !(request.New? && uuid in s.used)
    requires used == if request.New? then s.used + {uuid} else s.used
    requires Outcome(s, p, request, uuid, marshalled).Admitted?
    ensures var id := if request.New? then uuid else request.room;
            && JoinStep(s, p, request, uuid, marshalled) == AdmittedState(s, p, id, used)
            && Admittable(s, p, id) && id in used
  {
  }

  lemma JoinInv(s: State, p: PeerId, request: Request, uuid: RoomId, marshalled: bool)
    requires Inv(s) && At(s, p, Reading)
    ensures Inv(JoinStep(s, p, request, uuid, marshalled))
  {
    var t := JoinStep(s, p, request, uuid, marshalled);
    if s.conns[p].room.Some? {
      ComplainInv(s, p);
      SameState(Complaint(s, p), t);
    } else if request.New? && uuid in s.used {
      SameState(s, t);
    } else {
      var used := if request.New? then s.used + {uuid} else s.used;
      if Outcome(s, p, request, uuid, marshalled).Refused? {
        JoinRefused(s, p, request, uuid, marshalled, used);
        UsedInv(s, used);
        ComplainInv(s.(used := used), p);
        SameState(Complaint(s.(used := used), p), t);
      } else {
        JoinAdmitted(s, p, request, uuid, marshalled, used);
        var id := if request.New? then uuid else request.room;
        AdmittedInv(s, p, id, used);
        SameState(AdmittedState(s, p, id, used), t);
      }
    }
  }

  lemma RemoveOk(s: State, id: RoomId, p: PeerId)
    requires SizesOk(s) && id in s.rooms && p in s.rooms[id].members
    ensures SizesOk(s.(rooms := Remove(s.rooms, id, p)))
  {
  }

  lemma ExitRooms(rooms: Rooms, conns: Conns, p: PeerId, c: Conn)
    requires RoomsOk(rooms, conns) && p in conns && conns[p].room.Some? && c.room.None?
    ensures RoomsOk(Remove(rooms, conns[p].room.value, p), conns[p := c])
  {
    var id := conns[p].room.value;
    var left := Remove(rooms, id, p);
    forall q | q in conns && q != p && conns[q].room.Some?
      ensures conns[q].room.value in left && q in left[conns[q].room.value].members
    {
      assert conns[q].room.value == id ==> q in rooms[id].members - {p};
    }
    assert forall r :: r in left ==>
        r in rooms && left[r].members == (if r == id then rooms[id].members - {p} else rooms[r].members);
  }

  function Departed(o: Conn, rest: set<PeerId>, exiting: bool): Conn {
    o.(phase := Leaving(rest, exiting), room := None)
  }

  lemma DepartedConn(p: PeerId, o: Conn, rest: set<PeerId>, exiting: bool)
    requires ConnOk(p, o) && o.phase == Reading && p !in rest
    ensures ConnOk(p, Departed(o, rest, exiting))
  {
  }

  lemma LeavePairs(rooms: Rooms, conns: Conns, p: PeerId, exiting: bool, rest: set<PeerId>)
    requires ConnsOk(conns) && RoomsOk(rooms, conns) && p in conns && conns[p].phase == Reading && conns[p].room.Some?
    requires conns[p].room.value in rooms && rest == rooms[conns[p].room.value].members - {p}
    ensures PairsFit(conns, p, Departed(conns[p], rest, exiting))
  {
  }

  lemma LeaveConns(s: State, p: PeerId, exiting: bool, rest: set<PeerId>)
    requires Inv(s) && At(s, p, Reading) && s.conns[p].room.Some?
    requires rest == s.rooms[s.conns[p].room.value].members - {p}
    ensures ConnsOk(s.conns[p := Departed(s.conns[p], rest, exiting)])
    ensures Known(s.conns[p := Departed(s.conns[p], rest, exiting)])
  {
    var c := Departed(s.conns[p], rest, exiting);
    DepartedConn(p, s.conns[p], rest, exiting);
    OthersKnown(s.rooms, s.conns, s.conns[p].room.value, p, rest);
    LeavePairs(s.rooms, s.conns, p, exiting, rest);
    PutConnsOk(s.conns, p, c);
    PutKnown(s.conns, p, c);
  }

  lemma LeaveInv(s: State, p: PeerId, exiting: bool)
    requires Inv(s) && At(s, p, Reading)
    ensures Inv(LeaveStep(s, p, exiting))
  {
    var o := s.conns[p];
    assert ConnOk(p, o);
    if o.room.Some? {
      var id := o.room.value;
      var rest := s.rooms[id].members - {p};
      var c := Departed(o, rest, exiting);
      LeaveConns(s, p, exiting, rest);
      ExitRooms(s.rooms, s.conns, p, c);
      RemoveOk(s, id, p);
      PutCounters(s, p, c, Remove(s.rooms, id, p), s.used);
    } else if exiting {
      IdleInv(s, p, Exiting);
    }
  }

  // ---------- Connections ----------

  lemma NewcomerKnown(conns: Conns, p: PeerId, c: Conn)
    requires Known(conns) && p !in conns && c.phase == Connecting && c.inbox == [] && c.strangers == {}
    ensures Known(conns[p := c])
  {
  }

  lemma NewcomerConns(s: State, p: PeerId, c: Conn)
    requires Inv(s) && p !in s.conns && c == Conn(c.ip, Connecting, None, [], 0, false, 0, None, {})
    ensures ConnsOk(s.conns[p := c])
  {
  }

  lemma NewcomerRooms(rooms: Rooms, conns: Conns, p: PeerId, c: Conn)
    requires RoomsOk(rooms, conns) && p !in conns && c.room.None?
    ensures RoomsOk(rooms, conns[p := c])
  {
  }

  lemma AcquireInv(s: State, p: PeerId, ip: Ip)
    requires Inv(s) && p !in s.conns
    ensures Inv(AcquireStep(s, p, ip))
  {
    var t := AcquireStep(s, p, ip);
    if t != s {
      var c := Conn(ip, Connecting, None, [], 0, false, 0, None, {});
      NewcomerConns(s, p, c);
      NewcomerRooms(s.rooms, s.conns, p, c);
      NewcomerKnown(s.conns, p, c);
      AcquireCounts(s, p, ip);
    }
  }

  lemma LiveWith(conns: Conns, p: PeerId, c: Conn, ip: Ip)
    requires p !in conns && c.phase != Gone
    ensures Live(conns[p := c]) == Live(conns) + {p}
    ensures LiveAt(conns[p := c], ip) == if ip == c.ip then LiveAt(conns, ip) + {p} else LiveAt(conns, ip)
  {
  }

  lemma AcquireCounts(s: State, p: PeerId, ip: Ip)
    requires CountersOk(s) && p !in s.conns
    ensures CountersOk(AcquireStep(s, p, ip))
  {
    var t := AcquireStep(s, p, ip);
    if t != s {
      var c := Conn(ip, Connecting, None, [], 0, false, 0, None, {});
      LiveWith(s.conns, p, c, ip);
      forall a
        ensures Count(t.perIp, a) == |LiveAt(t.conns, a)| && Count(t.perIp, a) <= t.config.maxPerIp
      {
        assert Count(s.perIp, a) == |LiveAt(s.conns, a)|;
        LiveWith(s.conns, p, c, a);
      }
    }
  }

  lemma ReleaseCounts(s: State, p: PeerId)
    requires CountersOk(s) && At(s, p, Exiting)
    ensures CountersOk(ReleaseStep(s, p))
  {
    var t := ReleaseStep(s, p);
    var ip := s.conns[p].ip;
    assert Live(t.conns) == Live(s.conns) - {p};
    forall a
      ensures Count(t.perIp, a) == |LiveAt(t.conns, a)| && Count(t.perIp, a) <= t.config.maxPerIp
    {
      assert Count(s.perIp, a) == |LiveAt(s.conns, a)|;
      if a == ip {
        assert p in LiveAt(s.conns, a);
        assert LiveAt(t.conns, a) == LiveAt(s.conns, a) - {p};
      } else {
        assert LiveAt(t.conns, a) == LiveAt(s.conns, a);
      }
    }
  }

  lemma ReleaseInv(s: State, p: PeerId)
    requires Inv(s) && At(s, p, Exiting)
    ensures Inv(ReleaseStep(s, p))
  {
    var o := s.conns[p];
    var c := o.(phase := Gone);
    assert ConnOk(p, o);
    forall q | q in s.conns && q != p
      ensures PairOk(p, c, q, s.conns[q]) && PairOk(q, s.conns[q], p, c)
    {
      assert PairOk(p, o, q, s.conns[q]) && PairOk(q, s.conns[q], p, o);
    }
    PutConnsOk(s.conns, p, c);
    PutRoomsOk(s.rooms, s.conns, p, c);
    PutKnown(s.conns, p, c);
    ReleaseCounts(s, p);
  }

  // ---------- Runs ----------

  lemma SameState(s: State, t: State)
    requires Inv(s) && t == s
    ensures Inv(t)
  {
  }

  lemma AnnouncementInv(s: State, e: Event)
    requires Inv(s) && Step(s, e) != s
    requires e.Address? || e.SendJoined? || e.EndJoined? || e.SendSignal? || e.SendLeft? || e.EndLeft?
    ensures Inv(Step(s, e))
  {
    var t := Step(s, e);
    match e
    case Address(p) => AddressInv(s, p); SameState(AddressStep(s, p), t);
    case SendJoined(p, q) => SendJoinedInv(s, p, q); SameState(SendJoinedStep(s, p, q), t);
    case EndJoined(p) => IdleInv(s, p, Reading); SameState(Move(s, p, Reading), t);
    case SendSignal(p) => SendSignalInv(s, p); SameState(SendSignalStep(s, p), t);
    case SendLeft(p, q) => SendLeftInv(s, p, q); SameState(SendLeftStep(s, p, q), t);
    case EndLeft(p) =>
      var phase := if s.conns[p].phase.exiting then Exiting else Reading;
      IdleInv(s, p, phase); SameState(Move(s, p, phase), t);
  }

  lemma ConnectionInv(s: State, e: Event)
    requires Inv(s) && Step(s, e) != s && (e.Acquire? || e.Handshake? || e.Release?)
    ensures Inv(Step(s, e))
  {
    var t := Step(s, e);
    match e
    case Acquire(p, ip) => AcquireInv(s, p, ip); SameState(AcquireStep(s, p, ip), t);
    case Handshake(p, ok) =>
      var phase := if ok then Reading else Exiting;
      IdleInv(s, p, phase); SameState(Move(s, p, phase), t);
    case Release(p) => ReleaseInv(s, p); SameState(ReleaseStep(s, p), t);
  }

  lemma WriterSteps(s: State, p: PeerId)
    requires p in s.conns
    ensures Step(s, Drain(p)) == DrainStep(s, p) && Step(s, Cancel(p)) == CancelStep(s, p)
  {
  }

  lemma WriterInv(s: State, e: Event)
    requires Inv(s) && e.p in s.conns && (e.Drain? || e.Cancel?)
    ensures Inv(Step(s, e))
  {
    WriterSteps(s, e.p);
    match e
    case Drain(p) => DrainInv(s, p);
    case Cancel(p) => CancelInv(s, p);
  }

  lemma RequestInv(s: State, e: Event)
    requires Inv(s) && Step(s, e) != s
    requires e.Complain? || e.Join? || e.Route? || e.Leave?
    ensures Inv(Step(s, e))
  {
    var t := Step(s, e);
    match e
    case Complain(p) => ComplainInv(s, p); SameState(Complaint(s, p), t);
    case Join(p, request, uuid, marshalled) =>
      JoinInv(s, p, request, uuid, marshalled); SameState(JoinStep(s, p, request, uuid, marshalled), t);
    case Route(p, target) => RouteInv(s, p, target); SameState(RouteStep(s, p, target), t);
    case Leave(p, exiting) => LeaveInv(s, p, exiting); SameState(LeaveStep(s, p, exiting), t);
  }

  lemma StepInv(s: State, e: Event)
    requires Inv(s)
    ensures Inv(Step(s, e))
  {
    if Step(s, e) == s {
      SameState(s, Step(s, e));
    } else if e.Acquire? || e.Handshake? || e.Release? {
      ConnectionInv(s, e);
    } else if e.Drain? || e.Cancel? {
      WriterInv(s, e);
    } else if e.Complain? || e.Join? || e.Route? || e.Leave? {
      RequestInv(s, e);
    } else {
      AnnouncementInv(s, e);
    }
  }

  lemma StepConfig(s: State, e: Event)
    ensures Step(s, e).config == s.config
  {
  }

  lemma {:induction false} RunConfig(config: Config, events: seq<Event>)
    ensures Run(Start(config), events).config == config
  {
    if events != [] {
      RunConfig(config, events[..|events| - 1]);
      StepConfig(Run(Start(config), events[..|events| - 1]), events[|events| - 1]);
    }
  }

  lemma IdleInv(s: State, p: PeerId, phase: Phase)
    requires Inv(s) && p in s.conns && MovesOn(s.conns[p], phase)
    ensures Inv(Move(s, p, phase))
  {
    assert ConnOk(p, s.conns[p]);
    IdleFits(s, p, s.conns[p].(phase := phase));
    PutInv(s, p, s.conns[p].(phase := phase));
  }

  lemma DrainInv(s: State, p: PeerId)
    requires Inv(s) && p in s.conns
    ensures Inv(DrainStep(s, p))
  {
    if s.conns[p].drained < |s.conns[p].inbox| {
      IdleFits(s, p, Drained(s.conns[p]));
      PutInv(s, p, Drained(s.conns[p]));
    }
  }

  lemma CancelInv(s: State, p: PeerId)
    requires Inv(s) && p in s.conns
    ensures Inv(CancelStep(s, p))
  {
    assert ConnOk(p, s.conns[p]);
    IdleFits(s, p, Cut(s.conns[p]));
    PutInv(s, p, Cut(s.conns[p]));
  }

  lemma {:induction false} RunInv(config: Config, events: seq<Event>)
    requires config.maxRoomSize >= 1
    ensures Inv(Run(Start(config), events))
  {
    if events == [] {
      assert Live(map[]) == {} && forall ip :: LiveAt(map[], ip) == {};
    } else {
      var n := |events| - 1;
      RunInv(config, events[..n]);
      StepInv(Run(Start(config), events[..n]), events[n]);
    }
  }

  // ---------- What follows for every interleaving ----------

  /**
   View consistency. In every reachable state, for a peer p in a room that has not been cut off, and
   any other peer q that owes p no announcement: the view folded from p's queue names q exactly when
   q is in the room or a stranger there. A member that is missing is still due to tell p that it
   joined, anybody else that is named is still due to tell p that it left, and strangers take a
   second join on p's connection.
   */
  lemma ViewConsistency(config: Config, events: seq<Event>, p: PeerId, q: PeerId)
    requires config.maxRoomSize >= 1
    requires var s := Run(Start(config), events);
             p in s.conns && q != p && !s.conns[p].cancelled && s.conns[p].room.Some?
    ensures ViewExact(Run(Start(config), events), p, q)
  {
    RunInv(config, events);
    ViewOf(Run(Start(config), events), p, q);
  }

  ghost predicate ViewExact(s: State, p: PeerId, q: PeerId)
    requires p in s.conns && s.conns[p].room.Some?
  {
    var id, view, strangers := s.conns[p].room.value, View(s.conns[p].inbox), s.conns[p].strangers;
    && id in s.rooms
    && (q in strangers ==> q in view && s.conns[p].joins >= 2)
    && (q in s.rooms[id].members && (q !in view || q in strangers) ==> q in s.conns && OwesJoined(s.conns[q], p))
    && (q in view && q !in s.rooms[id].members && q !in strangers ==> q in s.conns && OwesLeft(s.conns[q], p))
  }

  lemma ViewOf(s: State, p: PeerId, q: PeerId)
    requires Inv(s) && p in s.conns && q != p && !s.conns[p].cancelled && s.conns[p].room.Some?
    ensures ViewExact(s, p, q)
  {
  }

  predicate Quiet(s: State) {
    forall p :: p in s.conns ==>
      var phase := s.conns[p].phase;
      !phase.Announcing? && (phase.Joining? || phase.Leaving? ==> phase.rest == {})
  }

  /**
   When no handler is in the middle of an announcement, the view is exactly the membership and the
   strangers, who are not members. So it equals the membership if and only if there are no strangers.
   */
  lemma QuietViews(config: Config, events: seq<Event>, p: PeerId)
    requires config.maxRoomSize >= 1
    requires var s := Run(Start(config), events);
             Quiet(s) && p in s.conns && !s.conns[p].cancelled && s.conns[p].room.Some?
    ensures var s := Run(Start(config), events);
            s.conns[p].room.value in s.rooms &&
            var view, strangers := View(s.conns[p].inbox), s.conns[p].strangers;
            var members := s.rooms[s.conns[p].room.value].members;
            && view - {p} == members - {p} + strangers && members !! strangers
            && (view - {p} == members - {p} <==> strangers == {})
            && (strangers != {} ==> s.conns[p].joins >= 2)
  {
    RunInv(config, events);
    var s := Run(Start(config), events);
    var id := s.conns[p].room.value;
    assert ConnOk(p, s.conns[p]);
    assert id in s.rooms;
    forall q | q != p
      ensures q in View(s.conns[p].inbox) <==> q in s.rooms[id].members || q in s.conns[p].strangers
      ensures !(q in s.rooms[id].members && q in s.conns[p].strangers)
    {
      ViewOf(s, p, q);
    }
    SplitView(View(s.conns[p].inbox), s.rooms[id].members, s.conns[p].strangers, p);
  }

  lemma SplitView(view: set<PeerId>, members: set<PeerId>, strangers: set<PeerId>, p: PeerId)
    requires p !in strangers
    requires forall q :: q != p ==> (q in view <==> q in members || q in strangers) && !(q in members && q in strangers)
    ensures view - {p} == members - {p} + strangers && members !! strangers
    ensures view - {p} == members - {p} <==> strangers == {}
  {
  }

  /**
   Signal causality. In the queue of a peer that has not been cut off, each offer, answer or candidate
   from another peer that did not cross an admission of the receiver comes while the messages before
   it name that peer as present. One that did cross an admission does so if and only if its sender was
   in the room that the receiver had entered last, or a stranger there. None crosses before the
   second admission.
   */
  lemma SignalCausality(config: Config, events: seq<Event>, p: PeerId, i: nat)
    requires config.maxRoomSize >= 1
    requires var s := Run(Start(config), events);
             && p in s.conns && !s.conns[p].cancelled
             && i < |s.conns[p].inbox| && s.conns[p].inbox[i].Signal? && s.conns[p].inbox[i].from != p
    ensures var c := Run(Start(config), events).conns[p];
            var present := c.inbox[i].from in View(c.inbox[..i]);
            && (c.inbox[i].passage.Direct? ==> present)
            && (c.inbox[i].passage.Crossed? ==> c.joins >= 2 && (present <==> c.inbox[i].passage.known))
  {
    RunInv(config, events);
    var c := Run(Start(config), events).conns[p];
    assert ConnOk(p, c);
    assert CausalAfter(View(c.inbox[..i]), c.inbox[i]);
  }

  /** What a signal records of its passage is what was the case when it was queued. */
  lemma PassageRecorded(s: State, p: PeerId)
    requires p in s.conns && s.conns[p].phase.Routing? && s.conns[p].phase.target in s.conns
    requires s.conns[p].phase.target != p && HasSpace(s.conns[s.conns[p].phase.target])
    ensures var Routing(q, epoch) := s.conns[p].phase;
            var before, inbox := s.conns[q], SendSignalStep(s, p).conns[q].inbox;
            && inbox[..|inbox| - 1] == before.inbox && inbox[|inbox| - 1].Signal? && inbox[|inbox| - 1].from == p
            && match inbox[|inbox| - 1].passage
               case Direct => before.joins == epoch
               case Crossed(known) =>
                 before.joins != epoch && (known <==> s.conns[p].room == before.home || p in before.strangers)
  {
  }

  /** Rooms with members of their own are no more than the peers there are. */
  lemma {:induction false} RoomsWithinPeers(rooms: Rooms, peers: set<PeerId>)
    requires forall r :: r in rooms ==> rooms[r].members != {} && rooms[r].members <= peers
    requires forall r, r', p :: r in rooms && r' in rooms && p in rooms[r].members && p in rooms[r'].members ==> r == r'
    ensures |rooms| <= |peers|
    decreases |peers|
  {
    if |rooms| > 0 {
      var r :| r in rooms;
      var p :| p in rooms[r].members;
      var fewer := rooms - {r};
      forall r' | r' in fewer
        ensures fewer[r'].members <= peers - {p}
      {
        assert p !in rooms[r'].members;
      }
      RoomsWithinPeers(fewer, peers - {p});
      assert fewer.Keys == rooms.Keys - {r};
      assert |fewer| == |fewer.Keys| == |rooms| - 1;
    }
  }

  lemma MembersLive(s: State)
    requires Inv(s)
    ensures |s.rooms| <= |Live(s.conns)|
  {
    forall p | p in s.conns && s.conns[p].room.Some?
      ensures p in Live(s.conns)
    {
      assert ConnOk(p, s.conns[p]);
    }
    RoomsWithin(s.rooms, s.conns, Live(s.conns));
  }

  lemma OneRoomEach(rooms: Rooms, conns: Conns)
    requires RoomsOk(rooms, conns)
    ensures forall r, r', p :: r in rooms && r' in rooms && p in rooms[r].members && p in rooms[r'].members ==> r == r'
  {
    forall r, r', p | r in rooms && r' in rooms && p in rooms[r].members && p in rooms[r'].members
      ensures r == r'
    {
      assert conns[p].room == Some(r) && conns[p].room == Some(r');
    }
  }

  lemma RoomsWithin(rooms: Rooms, conns: Conns, peers: set<PeerId>)
    requires RoomsOk(rooms, conns) && forall r :: r in rooms ==> |rooms[r].members| >= 1
    requires forall p :: p in conns && conns[p].room.Some? ==> p in peers
    ensures |rooms| <= |peers|
  {
    OneRoomEach(rooms, conns);
    forall r | r in rooms
      ensures rooms[r].members != {} && rooms[r].members <= peers
    {
    }
    RoomsWithinPeers(rooms, peers);
  }

  /**
   The room system, in every reachable state: every stored room holds between one and MaxPeers
   peers, each of which has that very room as its current room and conversely, and there are no
   more rooms than the limit and no more than live connections.
   */
  lemma RoomSystem(config: Config, events: seq<Event>)
    requires config.maxRoomSize >= 1
    ensures var s := Run(Start(config), events);
            && RoomsOk(s.rooms, s.conns)
            && (forall r :: r in s.rooms ==> 1 <= |s.rooms[r].members| <= config.maxRoomSize)
            && |s.rooms| <= config.maxRooms && |s.rooms| <= |Live(s.conns)|
  {
    RunInv(config, events);
    RunConfig(config, events);
    MembersLive(Run(Start(config), events));
  }

  /** The connection counters equal the live connections, in total and per address, within their limits. */
  lemma ConnectionCounters(config: Config, events: seq<Event>, ip: Ip)
    requires config.maxRoomSize >= 1
    ensures var s := Run(Start(config), events);
            && s.total == |Live(s.conns)| <= config.maxConnections
            && Count(s.perIp, ip) == |LiveAt(s.conns, ip)| <= config.maxPerIp
  {
    RunInv(config, events);
    RunConfig(config, events);
  }

  // ---------- Exactly what is granted ----------

  /** The request can be met: a new room within the limit, or a place in a room that exists. */
  predicate Available(s: State, config: Config, request: Request) {
    match request
    case New => |s.rooms| < config.maxRooms
    case Existing(id) => id in s.rooms && |s.rooms[id].members| < config.maxRoomSize
  }

  /**
   Exactly when a peer that is in no room is admitted: when its request can be met, the response
   could be made and fewer than 256 messages are waiting for it. It then becomes a member and is told
   who was there before; otherwise no room changes and it is sent an error or cut off.
   */
  lemma JoinExactly(config: Config, events: seq<Event>, p: PeerId, request: Request, uuid: RoomId, marshalled: bool)
    requires config.maxRoomSize >= 1
    requires var s := Run(Start(config), events);
             At(s, p, Reading) && s.conns[p].room.None? && (request.New? ==> uuid !in s.used)
    ensures var s := Run(Start(config), events);
            var t := Step(s, Join(p, request, uuid, marshalled));
            var id := if request.New? then uuid else request.room;
            var existing := MembersOf(s, id);
            p in t.conns &&
            if Available(s, config, request) && marshalled && |s.conns[p].inbox| - s.conns[p].drained < 256 then
              && t.rooms == s.rooms[id := Room(config.maxRoomSize, existing + {p})]
              && t.conns[p].room == Some(id) && t.conns[p].inbox == s.conns[p].inbox + [JoinAccepted(existing)]
            else
              && t.rooms == s.rooms && t.conns[p].room.None?
              && (if |s.conns[p].inbox| - s.conns[p].drained < 256
                  then t.conns[p].inbox == s.conns[p].inbox + [Error] else t.conns[p].cancelled)
  {
    RunInv(config, events);
    RunConfig(config, events);
    JoinGranted(Run(Start(config), events), p, request, uuid, marshalled);
  }

  lemma JoinGranted(s: State, p: PeerId, request: Request, uuid: RoomId, marshalled: bool)
    requires SizesOk(s) && At(s, p, Reading) && s.conns[p].room.None? && (request.New? ==> uuid !in s.used)
    ensures var t := Step(s, Join(p, request, uuid, marshalled));
            var id := if request.New? then uuid else request.room;
            var existing := MembersOf(s, id);
            p in t.conns &&
            if Available(s, s.config, request) && marshalled && |s.conns[p].inbox| - s.conns[p].drained < 256 then
              && t.rooms == s.rooms[id := Room(s.config.maxRoomSize, existing + {p})]
              && t.conns[p].room == Some(id) && t.conns[p].inbox == s.conns[p].inbox + [JoinAccepted(existing)]
            else
              && t.rooms == s.rooms && t.conns[p].room.None?
              && (if |s.conns[p].inbox| - s.conns[p].drained < 256
                  then t.conns[p].inbox == s.conns[p].inbox + [Error] else t.conns[p].cancelled)
  {
    var used := if request.New? then s.used + {uuid} else s.used;
    if Outcome(s, p, request, uuid, marshalled).Refused? {
      JoinRefused(s, p, request, uuid, marshalled, used);
    } else {
      JoinAdmitted(s, p, request, uuid, marshalled, used);
    }
  }

  /** Exactly when a signal is addressed: when its target is in the sender's room. */
  lemma RouteExactly(config: Config, events: seq<Event>, p: PeerId, target: PeerId)
    requires config.maxRoomSize >= 1
    requires At(Run(Start(config), events), p, Reading)
    ensures var s, t := Run(Start(config), events), Step(Run(Start(config), events), Route(p, target));
            && p in t.conns
            && (t.conns[p].phase.Routing? <==>
                  s.conns[p].room.Some? && target in s.conns && s.conns[target].room == s.conns[p].room)
            && (t.conns[p].phase.Routing? ==> t.conns[p].phase == Routing(target, s.conns[target].joins))
  {
    RunInv(config, events);
  }

  /** How the peer is answered that asks for what cannot be done: with an error if there is room for it, or cut off. */
  ghost predicate Answered(s: State, t: State, p: PeerId, m: Message)
    requires p in s.conns
  {
    var c := s.conns[p];
    t == s.(conns := s.conns[p := if |c.inbox| - c.drained < 256 then c.(inbox := c.inbox + [m])
                                  else c.(cancelled := true)])
  }

  /** A message out of place, a second join and a signal to somebody elsewhere get an error and change nothing else. */
  lemma RefusedExactly(config: Config, events: seq<Event>, p: PeerId, e: Event)
    requires config.maxRoomSize >= 1 && e.p == p
    requires var s := Run(Start(config), events);
             && At(s, p, Reading)
             && (e.Complain? || (e.Join? && s.conns[p].room.Some?)
                 || (e.Route? && !(s.conns[p].room.Some?
                                   && e.target in s.conns && s.conns[e.target].room == s.conns[p].room)))
    ensures var s := Run(Start(config), events);
            Answered(s, Step(s, e), p, Error)
  {
    RunInv(config, events);
    var s := Run(Start(config), events);
    assert Answered(s, Complaint(s, p), p, Error);
  }

  /** A signal that goes out is put in its target's queue, or the target is cut off and the sender gets an error. */
  lemma SignalExactly(config: Config, events: seq<Event>, p: PeerId)
    requires config.maxRoomSize >= 1
    requires var s := Run(Start(config), events);
             p in s.conns && s.conns[p].phase.Routing?
    ensures var s := Run(Start(config), events);
            && s.conns[p].phase.target in s.conns
            && SignalSent(s, Step(s, SendSignal(p)), p, s.conns[p].phase.target)
  {
    RunInv(config, events);
    SendSignalSent(Run(Start(config), events), p);
  }

  ghost predicate SignalSent(s: State, t: State, p: PeerId, q: PeerId)
    requires p in s.conns && q in s.conns && s.conns[p].phase.Routing?
  {
    var cp, cq := s.conns[p], s.conns[q];
    && At(t, p, Reading) && q in t.conns
    && (if |cq.inbox| - cq.drained < 256 then
          && t.conns[q].inbox == cq.inbox + [Signal(p, PassageOf(cp, p, cq, cp.phase.epoch))]
          && (q != p ==> t.conns[p].inbox == cp.inbox)
        else
          && t.conns[q].cancelled && t.conns[q].inbox == cq.inbox && t.conns[q].drained == cq.drained
          && (q != p ==> if |cp.inbox| - cp.drained < 256
                         then t.conns[p].inbox == cp.inbox + [Error] else t.conns[p].cancelled))
  }

  lemma SendSignalSent(s: State, p: PeerId)
    requires p in s.conns && s.conns[p].phase.Routing? && s.conns[p].phase.target in s.conns
    ensures SignalSent(s, Step(s, SendSignal(p)), p, s.conns[p].phase.target)
  {
  }

  /** Exactly when a connection is accepted: when both the total and its address are below their limits. */
  lemma AcquireExactly(config: Config, events: seq<Event>, p: PeerId, ip: Ip)
    requires config.maxRoomSize >= 1 && p !in Run(Start(config), events).conns
    ensures var s, t := Run(Start(config), events), Step(Run(Start(config), events), Acquire(p, ip));
            && (p in t.conns <==>
                  |Live(s.conns)| < config.maxConnections && |LiveAt(s.conns, ip)| < config.maxPerIp)
            && (p in t.conns ==> t.conns[p].ip == ip && t.conns[p].phase == Connecting && t.conns[p].inbox == [])
  {
    RunInv(config, events);
    RunConfig(config, events);
  }

  // ---------- Every handler ends ----------

  function Stage(phase: Phase): nat {
    match phase
    case Connecting => 6
    case Announcing => 5
    case Joining(_) => 4
    case Routing(_, _) => 4
    case Reading => 3
    case Leaving(_, exiting) => if exiting then 2 else 4
    case Exiting => 1
    case Gone => 0
  }

  /** How many peers are still to be told. */
  function Todo(phase: Phase): nat {
    if phase.Joining? || phase.Leaving? then |phase.rest| else 0
  }

  predicate Nearer(s: State, t: State, p: PeerId) {
    && p in s.conns && p in t.conns
    && var was, now := s.conns[p].phase, t.conns[p].phase;
       Stage(now) < Stage(was) || (Stage(now) == Stage(was) && Todo(now) < Todo(was))
  }

  lemma NextJoined(s: State, p: PeerId) returns (e: Event)
    requires Known(s.conns) && p in s.conns && ConnOk(p, s.conns[p]) && s.conns[p].phase.Joining?
    ensures e.p == p && Nearer(s, Step(s, e), p)
  {
    var rest := s.conns[p].phase.rest;
    if rest == {} {
      e := EndJoined(p);
    } else {
      var q :| q in rest;
      JoinedNearer(s, p, q);
      e := SendJoined(p, q);
    }
  }

  lemma JoinedNearer(s: State, p: PeerId, q: PeerId)
    requires p in s.conns && q in s.conns && q != p && s.conns[p].phase.Joining? && q in s.conns[p].phase.rest
    ensures Nearer(s, Step(s, SendJoined(p, q)), p)
  {
    var rest := s.conns[p].phase.rest;
    assert |rest - {q}| < |rest|;
    assert SendJoinedStep(s, p, q).conns[p].phase.rest == rest - {q};
  }

  lemma NextLeft(s: State, p: PeerId) returns (e: Event)
    requires Known(s.conns) && p in s.conns && ConnOk(p, s.conns[p]) && s.conns[p].phase.Leaving?
    ensures e.p == p && Nearer(s, Step(s, e), p)
  {
    var rest := s.conns[p].phase.rest;
    if rest == {} {
      e := EndLeft(p);
    } else {
      var q :| q in rest;
      LeftNearer(s, p, q);
      e := SendLeft(p, q);
    }
  }

  lemma LeftNearer(s: State, p: PeerId, q: PeerId)
    requires p in s.conns && q in s.conns && q != p && s.conns[p].phase.Leaving? && q in s.conns[p].phase.rest
    ensures Nearer(s, Step(s, SendLeft(p, q)), p)
  {
    var rest := s.conns[p].phase.rest;
    assert |rest - {q}| < |rest|;
    assert SendLeftStep(s, p, q).conns[p].phase.rest == rest - {q};
  }

  lemma NextQuiet(s: State, p: PeerId) returns (e: Event)
    requires p in s.conns && (At(s, p, Connecting) || At(s, p, Reading) || At(s, p, Exiting))
    ensures e.p == p && Nearer(s, Step(s, e), p)
  {
    match s.conns[p].phase
    case Connecting => e := Handshake(p, true);
    case Reading => e := Leave(p, true);
    case Exiting => e := Release(p);
  }

  lemma NextBusy(s: State, p: PeerId) returns (e: Event)
    requires RoomsOk(s.rooms, s.conns) && Known(s.conns) && p in s.conns && ConnOk(p, s.conns[p])
    requires s.conns[p].phase.Announcing? || s.conns[p].phase.Routing?
    ensures e.p == p && Nearer(s, Step(s, e), p)
  {
    match s.conns[p].phase
    case Announcing => e := Address(p);
    case Routing(_, _) => e := SendSignal(p);
  }

  /** A step on the handler's way out, whatever it is doing. */
  lemma NextStep(s: State, p: PeerId) returns (e: Event)
    requires Inv(s) && p in s.conns && s.conns[p].phase != Gone
    ensures e.p == p && Nearer(s, Step(s, e), p)
  {
    assert ConnOk(p, s.conns[p]);
    match s.conns[p].phase
    case Connecting => e := NextQuiet(s, p);
    case Announcing => e := NextBusy(s, p);
    case Joining(_) => e := NextJoined(s, p);
    case Routing(_, _) => e := NextBusy(s, p);
    case Reading => e := NextQuiet(s, p);
    case Leaving(_, _) => e := NextLeft(s, p);
    case Exiting => e := NextQuiet(s, p);
  }

  function RunFrom(s: State, events: seq<Event>): State
    decreases |events|
  {
    if events == [] then s else RunFrom(Step(s, events[0]), events[1..])
  }

  lemma {:induction false} RunThen(s: State, events: seq<Event>, more: seq<Event>)
    ensures Run(s, events + more) == RunFrom(Run(s, events), more)
    decreases |more|
  {
    if more == [] {
      assert events + more == events;
    } else {
      assert (events + [more[0]])[..|events|] == events;
      assert events + more == events + [more[0]] + more[1..];
      RunThen(s, events + [more[0]], more[1..]);
    }
  }

  lemma {:induction false} EndsFrom(s: State, p: PeerId) returns (more: seq<Event>)
    requires Inv(s) && p in s.conns
    ensures forall e :: e in more ==> e.p == p
    ensures Inv(RunFrom(s, more)) && At(RunFrom(s, more), p, Gone)
    decreases Stage(s.conns[p].phase), Todo(s.conns[p].phase)
  {
    if s.conns[p].phase == Gone {
      more := [];
    } else {
      var e := NextStep(s, p);
      StepInv(s, e);
      var rest := EndsFrom(Step(s, e), p);
      more := [e] + rest;
      assert more[1..] == rest;
    }
  }

  /**
   No handler is ever stuck: from every state of every run its own steps alone, which no other
   handler can take or undo, bring it to its end, and then it is in no room and no longer counted.
   */
  lemma HandlerEnds(config: Config, events: seq<Event>, p: PeerId) returns (more: seq<Event>)
    requires config.maxRoomSize >= 1 && p in Run(Start(config), events).conns
    ensures forall e :: e in more ==> e.p == p
    ensures var t := Run(Start(config), events + more);
            && At(t, p, Gone) && p !in Live(t.conns)
            && forall r :: r in t.rooms ==> p !in t.rooms[r].members
  {
    RunInv(config, events);
    more := EndsFrom(Run(Start(config), events), p);
    RunThen(Start(config), events, more);
    GoneIsOut(Run(Start(config), events + more), p);
  }

  lemma GoneIsOut(s: State, p: PeerId)
    requires Inv(s) && At(s, p, Gone)
    ensures p !in Live(s.conns) && forall r :: r in s.rooms ==> p !in s.rooms[r].members
  {
    assert ConnOk(p, s.conns[p]);
  }

  /** No event but a handler's own moves it, or moves it to another room. */
  lemma OwnEventsOnly(s: State, e: Event, p: PeerId)
    requires p in s.conns && e.p != p
    ensures p in Step(s, e).conns
    ensures Step(s, e).conns[p].phase == s.conns[p].phase && Step(s, e).conns[p].room == s.conns[p].room
  {
    if e.SendJoined? || e.SendLeft? || e.SendSignal? {
      SendingKeeps(s, e, p);
    }
  }

  lemma SendingKeeps(s: State, e: Event, p: PeerId)
    requires p in s.conns && e.p != p && (e.SendJoined? || e.SendLeft? || e.SendSignal?)
    ensures p in Step(s, e).conns
    ensures Step(s, e).conns[p].phase == s.conns[p].phase && Step(s, e).conns[p].room == s.conns[p].room
  {
  }

  // ---------- A second join on one connection ----------

  /**
   Where strangers come from: delivering peer_joined makes q's view name somebody who is not in q's
   room exactly when q has changed rooms since it was addressed, and exactly then a stranger.
   */
  lemma MisplacedExactly(s: State, p: PeerId, q: PeerId)
    requires Inv(s) && p in s.conns && q in s.conns && s.conns[p].phase.Joining? && q in s.conns[p].phase.rest
    requires s.conns[q].room.Some? && HasSpace(s.conns[q])
    ensures var t := SendJoinedStep(s, p, q);
            p in View(t.conns[q].inbox) &&
            (p in t.rooms[t.conns[q].room.value].members <==> s.conns[q].room == s.conns[p].room) &&
            (p in t.conns[q].strangers <==> s.conns[q].room != s.conns[p].room)
  {
  }

  lemma RunLast(s: State, events: seq<Event>, e: Event)
    ensures Run(s, events + [e]) == Step(Run(s, events), e)
  {
  }

  lemma {:induction false} RunMore(s: State, events: seq<Event>, more: seq<Event>)
    ensures Run(s, events + more) == Run(Run(s, events), more)
  {
    if more == [] {
      assert events + more == events;
    } else {
      var front, last := more[..|more| - 1], more[|more| - 1];
      RunMore(s, events, front);
      assert more == front + [last] && events + more == events + front + [last];
      RunLast(s, events + front, last);
      RunLast(Run(s, events), front, last);
    }
  }

  /** A small server with two connections, both from address 7. */
  function Pair(rooms: Rooms, used: set<RoomId>, a: Conn, b: Conn): State {
    State(Config(10, 4, 10, 10), rooms, used, map[0 := a, 1 := b], map[7 := 2], 2)
  }

  function Idle(phase: Phase): Conn {
    Conn(7, phase, None, [], 0, false, 0, None, {})
  }

  lemma PutPair(rooms: Rooms, used: set<RoomId>, a: Conn, b: Conn, c: Conn)
    ensures Put(Pair(rooms, used, a, b), 0, c) == Pair(rooms, used, c, b)
    ensures Put(Pair(rooms, used, a, b), 1, c) == Pair(rooms, used, a, c)
  {
  }

  lemma Connect()
    ensures var s := Start(Config(10, 4, 10, 10));
            && Step(s, Acquire(0, 7)) == State(s.config, map[], {}, map[0 := Idle(Connecting)], map[7 := 1], 1)
            && Step(State(s.config, map[], {}, map[0 := Idle(Connecting)], map[7 := 1], 1), Acquire(1, 7))
               == Pair(map[], {}, Idle(Connecting), Idle(Connecting))
  {
  }

  lemma BothConnect() returns (events: seq<Event>)
    ensures Run(Start(Config(10, 4, 10, 10)), events) == Pair(map[], {}, Idle(Reading), Idle(Reading))
  {
    var s := Start(Config(10, 4, 10, 10));
    Connect();
    events := Then(s, [], Acquire(0, 7));
    events := Then(s, events, Acquire(1, 7));
    PutPair(map[], {}, Idle(Connecting), Idle(Connecting), Idle(Reading));
    events := Then(s, events, Handshake(0, true));
    PutPair(map[], {}, Idle(Reading), Idle(Connecting), Idle(Reading));
    events := Then(s, events, Handshake(1, true));
  }

  lemma OpenAdmits(id: RoomId)
    ensures Admit(map[], 10, 4, New, id, 0, true) == Admitted(map[id := Room(4, {0})], id, {})
  {
    var none: set<PeerId> := {};
    var empty: Rooms := map[];
    assert none + {0} == {0};
    assert empty[id := Room(4, {})][id := Room(4, {0})] == map[id := Room(4, {0})];
  }

  /** Peer 0 opens a room. */
  lemma OpenRoom(b: Conn, id: RoomId)
    ensures Step(Pair(map[], {}, Idle(Reading), b), Join(0, New, id, true))
         == Pair(map[id := Room(4, {0})], {id}, Welcome(Idle(Reading), id, {}), b)
  {
    var rooms: Rooms := map[id := Room(4, {0})];
    OpenAdmits(id);
    PutPair(rooms, {id}, Idle(Reading), b, Welcome(Idle(Reading), id, {}));
  }

  /** Peer 1 enters it. */
  lemma EnterRoom(a: Conn, id: RoomId)
    ensures Step(Pair(map[id := Room(4, {0})], {id}, a, Idle(Reading)), Join(1, Existing(id), 0, true))
         == Pair(map[id := Room(4, {0, 1})], {id}, a, Welcome(Idle(Reading), id, {0}))
  {
    var rooms: Rooms := map[id := Room(4, {0})];
    var joined: Rooms := map[id := Room(4, {0, 1})];
    assert {0} + {1} == {0, 1};
    assert rooms[id := Room(4, {0, 1})] == joined;
    assert Admit(rooms, 10, 4, Existing(id), 0, 1, true) == Admitted(joined, id, {0});
    PutPair(joined, {id}, a, Idle(Reading), Welcome(Idle(Reading), id, {0}));
  }

  /** Both find out whom to tell. */
  lemma AddressBoth(a: Conn, b: Conn, id: RoomId)
    requires a.room == b.room == Some(id) && a.phase == b.phase == Announcing
    ensures Step(Step(Pair(map[id := Room(4, {0, 1})], {id}, a, b), Address(0)), Address(1))
         == Pair(map[id := Room(4, {0, 1})], {id}, a.(phase := Joining({1})), b.(phase := Joining({0})))
  {
    var rooms: Rooms := map[id := Room(4, {0, 1})];
    assert {0, 1} - {0} == {1} && {0, 1} - {1} == {0};
    PutPair(rooms, {id}, a, b, a.(phase := Joining({1})));
    PutPair(rooms, {id}, a.(phase := Joining({1})), b, b.(phase := Joining({0})));
  }

  /** Peer 1 announces itself to peer 0 and is done with that. */
  lemma Announce(rooms: Rooms, used: set<RoomId>, a: Conn, b: Conn)
    requires b.phase == Joining({0}) && a.room == b.room && HasSpace(a) && a.strangers == {}
    ensures Step(Step(Pair(rooms, used, a, b), SendJoined(1, 0)), EndJoined(1))
         == Pair(rooms, used, Enqueue(a, PeerJoined(1)), b.(phase := Reading))
  {
    assert {0} - {0} == {} && a.strangers - {1} == a.strangers;
    var a', b' := Enqueue(a, PeerJoined(1)), b.(phase := Joining({}));
    PutPair(rooms, used, a, b, a');
    PutPair(rooms, used, a', b, b');
    PutPair(rooms, used, a', b', b.(phase := Reading));
  }

  /** Peer 1 leaves the room. */
  lemma LeaveRoom(a: Conn, b: Conn, id: RoomId)
    requires b.phase == Reading && b.room == Some(id)
    ensures Step(Pair(map[id := Room(4, {0, 1})], {id}, a, b), Leave(1, false))
         == Pair(map[id := Room(4, {0})], {id}, a, b.(phase := Leaving({0}, false), room := None))
  {
    var rooms: Rooms := map[id := Room(4, {0, 1})];
    var left: Rooms := map[id := Room(4, {0})];
    assert {0, 1} - {1} == {0};
    assert Remove(rooms, id, 1) == left;
    PutPair(left, {id}, a, b, b.(phase := Leaving({0}, false), room := None));
  }

  /** Peer 1 tells peer 0 so. */
  lemma SayGoodbye(rooms: Rooms, used: set<RoomId>, a: Conn, b: Conn)
    requires b.phase == Leaving({0}, false) && HasSpace(a) && a.strangers == {}
    ensures Step(Pair(rooms, used, a, b), SendLeft(1, 0))
         == Pair(rooms, used, Enqueue(a, PeerLeft(1)), b.(phase := Leaving({}, false)))
  {
    assert {0} - {0} == {} && a.strangers - {1} == a.strangers;
    PutPair(rooms, used, a, b, Enqueue(a, PeerLeft(1)));
    PutPair(rooms, used, Enqueue(a, PeerLeft(1)), b, b.(phase := Leaving({}, false)));
  }

  /** Peer 1 waits for its client again. */
  lemma ReadAgain(rooms: Rooms, used: set<RoomId>, a: Conn, b: Conn)
    requires b.phase == Leaving({}, false)
    ensures Step(Pair(rooms, used, a, b), EndLeft(1)) == Pair(rooms, used, a, b.(phase := Reading))
  {
  }

  /** Peer 1 opens another room. */
  lemma OpenAnother(a: Conn, b: Conn, id: RoomId, other: RoomId)
    requires b.phase == Reading && b.room.None? && HasSpace(b) && id != other
    ensures Step(Pair(map[id := Room(4, {0})], {id}, a, b), Join(1, New, other, true))
         == Pair(map[id := Room(4, {0}), other := Room(4, {1})], {id, other}, a, Welcome(b, other, {}))
  {
    var none: set<PeerId> := {};
    assert none + {1} == {1} && {id} + {other} == {id, other};
    var before: Rooms := map[id := Room(4, {0})];
    var rooms: Rooms := map[id := Room(4, {0}), other := Room(4, {1})];
    assert Admit(before, 10, 4, New, other, 1, true) == Admitted(rooms, other, {}) by {
      assert before[other := Room(4, {})][other := Room(4, {1})] == rooms;
    }
    PutPair(rooms, {id, other}, a, b, Welcome(b, other, {}));
  }

  /** Only now does peer 0's announcement, addressed in the first room, get through to peer 1. */
  lemma AnnounceLate(rooms: Rooms, used: set<RoomId>, a: Conn, b: Conn)
    requires a.phase == Joining({1}) && b.room.Some? && a.room != b.room && HasSpace(b)
    ensures Step(Pair(rooms, used, a, b), SendJoined(0, 1))
         == Pair(rooms, used, a.(phase := Joining({})), Delivered(b, PeerJoined(0), b.strangers + {0}))
  {
    assert {1} - {1} == {};
    PutPair(rooms, used, a, b, Delivered(b, PeerJoined(0), b.strangers + {0}));
    PutPair(rooms, used, a, Delivered(b, PeerJoined(0), b.strangers + {0}), a.(phase := Joining({})));
  }

  /** Peer 1, alone in its second room, finds that there is nobody to tell. */
  lemma AddressNobody(rooms: Rooms, used: set<RoomId>, a: Conn, b: Conn, id: RoomId)
    requires b.phase == Announcing && b.room == Some(id) && id in rooms && rooms[id].members == {1}
    ensures Step(Pair(rooms, used, a, b), Address(1)) == Pair(rooms, used, a, b.(phase := Joining({})))
  {
    assert {1} - {1} == {};
    PutPair(rooms, used, a, b, b.(phase := Joining({})));
  }

  /** Peer 0 opens room 100, peer 1 enters it and both are to tell the other; only peer 1 has. */
  lemma Meet() returns (events: seq<Event>)
    ensures Run(Pair(map[], {}, Idle(Reading), Idle(Reading)), events)
         == Pair(map[100 := Room(4, {0, 1})], {100},
                 Enqueue(Welcome(Idle(Reading), 100, {}).(phase := Joining({1})), PeerJoined(1)),
                 Welcome(Idle(Reading), 100, {0}).(phase := Reading))
  {
    var s := Pair(map[], {}, Idle(Reading), Idle(Reading));
    var a, b := Welcome(Idle(Reading), 100, {}), Welcome(Idle(Reading), 100, {0});
    OpenRoom(Idle(Reading), 100);
    events := Then(s, [], Join(0, New, 100, true));
    EnterRoom(a, 100);
    events := Then(s, events, Join(1, Existing(100), 0, true));
    AddressBoth(a, b, 100);
    events := Then(s, events, Address(0));
    events := Then(s, events, Address(1));
    Announce(map[100 := Room(4, {0, 1})], {100}, a.(phase := Joining({1})), b.(phase := Joining({0})));
    events := Then(s, events, SendJoined(1, 0));
    events := Then(s, events, EndJoined(1));
  }

  /** Peer 1 leaves and opens room 101. */
  lemma MoveOut(a: Conn, b: Conn) returns (events: seq<Event>)
    requires b.phase == Reading && b.room == Some(100) && HasSpace(a) && HasSpace(b) && a.strangers == {}
    ensures Run(Pair(map[100 := Room(4, {0, 1})], {100}, a, b), events)
         == Pair(map[100 := Room(4, {0}), 101 := Room(4, {1})], {100, 101},
                 Enqueue(a, PeerLeft(1)), Welcome(b.(room := None), 101, {}))
  {
    var s := Pair(map[100 := Room(4, {0, 1})], {100}, a, b);
    LeaveRoom(a, b, 100);
    events := Then(s, [], Leave(1, false));
    SayGoodbye(map[100 := Room(4, {0})], {100}, a, b.(phase := Leaving({0}, false), room := None));
    events := Then(s, events, SendLeft(1, 0));
    ReadAgain(map[100 := Room(4, {0})], {100}, Enqueue(a, PeerLeft(1)), b.(phase := Leaving({}, false), room := None));
    events := Then(s, events, EndLeft(1));
    OpenAnother(Enqueue(a, PeerLeft(1)), b.(room := None), 100, 101);
    events := Then(s, events, Join(1, New, 101, true));
  }

  lemma Then(s: State, events: seq<Event>, e: Event) returns (longer: seq<Event>)
    ensures Run(s, longer) == Step(Run(s, events), e)
  {
    longer := events + [e];
    RunLast(s, events, e);
  }

  lemma Settle(a: Conn, b: Conn) returns (events: seq<Event>)
    requires a.phase == Joining({1}) && a.room == Some(100)
    requires b.phase == Announcing && b.room == Some(101) && HasSpace(b)
    ensures Run(Pair(map[100 := Room(4, {0}), 101 := Room(4, {1})], {100, 101}, a, b), events)
         == Pair(map[100 := Room(4, {0}), 101 := Room(4, {1})], {100, 101},
                 a.(phase := Joining({})), Delivered(b, PeerJoined(0), b.strangers + {0}).(phase := Joining({})))
  {
    var rooms: Rooms := map[100 := Room(4, {0}), 101 := Room(4, {1})];
    var s := Pair(rooms, {100, 101}, a, b);
    AnnounceLate(rooms, {100, 101}, a, b);
    events := Then(s, [], SendJoined(0, 1));
    AddressNobody(rooms, {100, 101}, a.(phase := Joining({})), Delivered(b, PeerJoined(0), b.strangers + {0}), 101);
    events := Then(s, events, Address(1));
  }

  lemma Opening() returns (events: seq<Event>)
    ensures Run(Start(Config(10, 4, 10, 10)), events)
         == Pair(map[100 := Room(4, {0, 1})], {100},
                 Enqueue(Welcome(Idle(Reading), 100, {}).(phase := Joining({1})), PeerJoined(1)),
                 Welcome(Idle(Reading), 100, {0}).(phase := Reading))
  {
    var connecting := BothConnect();
    var meeting := Meet();
    RunMore(Start(Config(10, 4, 10, 10)), connecting, meeting);
    events := connecting + meeting;
  }

  /**
   Why view consistency asks for a single join: a peer that leaves one room and opens another can
   end up alone in it and yet, with nothing left to be announced, believe that somebody is there.
   */
  lemma RejoinSeesStranger() returns (events: seq<Event>)
    ensures var s := Run(Start(Config(10, 4, 10, 10)), events);
            && Quiet(s) && 1 in s.conns && !s.conns[1].cancelled && s.conns[1].joins == 2
            && s.conns[1].room == Some(101) && 101 in s.rooms && s.rooms[101].members == {1}
            && 0 in View(s.conns[1].inbox) && s.conns[1].strangers == {0}
  {
    var s := Start(Config(10, 4, 10, 10));
    var opening := Opening();
    var a := Enqueue(Welcome(Idle(Reading), 100, {}).(phase := Joining({1})), PeerJoined(1));
    var b := Welcome(Idle(Reading), 100, {0}).(phase := Reading);
    var moving := MoveOut(a, b);
    RunMore(s, opening, moving);
    a, b := Enqueue(a, PeerLeft(1)), Welcome(b.(room := None), 101, {});
    var settling := Settle(a, b);
    RunMore(s, opening + moving, settling);
    events := opening + moving + settling;
    ViewSnoc(b.inbox, PeerJoined(0));
  }

  /** Peer 0 tells peer 1 that it is there, and then addresses a signal to it. */
  lemma Signalling(a: Conn, b: Conn) returns (events: seq<Event>)
    requires a.phase == Joining({1}) && a.room == b.room == Some(100) && HasSpace(b) && b.strangers == {}
    ensures Run(Pair(map[100 := Room(4, {0, 1})], {100}, a, b), events)
         == Pair(map[100 := Room(4, {0, 1})], {100}, a.(phase := Routing(1, b.joins)), Enqueue(b, PeerJoined(0)))
  {
    var rooms: Rooms := map[100 := Room(4, {0, 1})];
    var s := Pair(rooms, {100}, a, b);
    AnnounceBack(rooms, {100}, a, b);
    events := Then(s, [], SendJoined(0, 1));
    events := Then(s, events, EndJoined(0));
    AddressSignal(rooms, {100}, a.(phase := Reading), Enqueue(b, PeerJoined(0)), 100);
    events := Then(s, events, Route(0, 1));
  }

  lemma AddressSignal(rooms: Rooms, used: set<RoomId>, a: Conn, b: Conn, id: RoomId)
    requires a.phase == Reading && a.room == Some(id) && id in rooms && 1 in rooms[id].members
    ensures Step(Pair(rooms, used, a, b), Route(0, 1)) == Pair(rooms, used, a.(phase := Routing(1, b.joins)), b)
  {
  }

  lemma AnnounceBack(rooms: Rooms, used: set<RoomId>, a: Conn, b: Conn)
    requires a.phase == Joining({1}) && a.room == b.room && HasSpace(b) && b.strangers == {}
    ensures Step(Step(Pair(rooms, used, a, b), SendJoined(0, 1)), EndJoined(0))
         == Pair(rooms, used, a.(phase := Reading), Enqueue(b, PeerJoined(0)))
  {
    assert {1} - {1} == {} && b.strangers - {0} == b.strangers;
    var a', b' := a.(phase := Joining({})), Enqueue(b, PeerJoined(0));
    PutPair(rooms, used, a, b, b');
    PutPair(rooms, used, a, b', a');
    PutPair(rooms, used, a', b', a.(phase := Reading));
  }

  lemma SignalLate(rooms: Rooms, used: set<RoomId>, a: Conn, b: Conn)
    requires a.phase.Routing? && a.phase.target == 1 && HasSpace(b)
    ensures Step(Pair(rooms, used, a, b), SendSignal(0))
         == Pair(rooms, used, a.(phase := Reading),
                 Delivered(b, Signal(0, PassageOf(a, 0, b, a.phase.epoch)), b.strangers))
  {
  }

  /**
   Why signal causality asks for it too: a signal addressed to a peer in one room can reach it after
   it has opened another, where nobody has been announced to it.
   */
  lemma RejoinGetsStraySignal() returns (events: seq<Event>)
    ensures var s := Run(Start(Config(10, 4, 10, 10)), events);
            && 1 in s.conns && !s.conns[1].cancelled && s.conns[1].joins == 2
            && var inbox := s.conns[1].inbox;
               |inbox| > 0 && inbox[|inbox| - 1] == Signal(0, Crossed(false)) && 0 !in View(inbox[..|inbox| - 1])
  {
    var s := Start(Config(10, 4, 10, 10));
    var opening := Opening();
    var a := Enqueue(Welcome(Idle(Reading), 100, {}).(phase := Joining({1})), PeerJoined(1));
    var b := Welcome(Idle(Reading), 100, {0}).(phase := Reading);
    var signalling := Signalling(a, b);
    RunMore(s, opening, signalling);
    a, b := a.(phase := Routing(1, b.joins)), Enqueue(b, PeerJoined(0));
    var moving := MoveOut(a, b);
    RunMore(s, opening + signalling, moving);
    a, b := Enqueue(a, PeerLeft(1)), Welcome(b.(room := None), 101, {});
    SignalLate(map[100 := Room(4, {0}), 101 := Room(4, {1})], {100, 101}, a, b);
    events := Then(s, opening + signalling + moving, SendSignal(0));
    StrayView(b.inbox[..|b.inbox| - 1]);
    assert b.inbox == b.inbox[..|b.inbox| - 1] + [JoinAccepted({})];
    var stray := Signal(0, Crossed(false));
    assert (b.inbox + [stray])[..|b.inbox|] == b.inbox;
  }

  lemma StrayView(inbox: seq<Message>)
    ensures 0 !in View(inbox + [JoinAccepted({})])
  {
  }
}
