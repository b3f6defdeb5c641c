/**
 Remote ICE candidates. Until the remote description is set they are buffered; setting it takes the
 buffer and hands its contents to the connection one by one, outside the lock, while later
 candidates go to the connection directly. A step is one critical section or one call into the
 connection; a run is any interleaving of any number of calls. A candidate is named by the call
 that brought it.
 */
module IceBuffer {
  import opened Wrappers

  type CallId = nat

  const MAX_PENDING := 256

  datatype Call =
    | Refused                        // peer closed, buffer full, no connection, or description not accepted
    | Buffered
    | Handing                        // past the lock, candidate not yet given to the connection
    | Given
    | Describing                     // found the peer open, connection not told yet
    | Described                      // connection told, buffer not taken yet
    | Flushing(rest: seq<CallId>)    // still to be given to the connection
    | Done

  /** One candidate given to the connection; `ready` says that the connection had its remote description. */
  datatype Gift = Gift(candidate: CallId, flushed: bool, ready: bool)

  /**
   The peer, its connection's description bit and all calls; and for the record what the connection
   was given, what was buffered, what Close threw away and which call took the buffer first.
   */
  datatype Peer = Peer(
    closed: bool, remoteDescriptionSet: bool, pending: seq<CallId>,
    connectionReady: bool, calls: map<CallId, Call>,
    given: seq<Gift>, buffered: seq<CallId>, discarded: seq<CallId>, first: Option<CallId>)

  const NEW_PEER := Peer(false, false, [], false, map[], [], [], [], None)

  datatype Event =
    | Add(call: CallId)
    | Hand(call: CallId)
    | BeginSet(call: CallId, connected: bool)
    | Describe(call: CallId, ok: bool)
    | TakeBuffer(call: CallId)
    | FlushOne(call: CallId)
    | Close

  function Now(p: Peer, c: CallId, call: Call): Peer {
    p.(calls := p.calls[c := call])
  }

  function Buffer(p: Peer, c: CallId): Peer {
    Now(p.(pending := p.pending + [c], buffered := p.buffered + [c]), c, Buffered)
  }

  function AddStep(p: Peer, c: CallId): Peer {
    if p.closed then Now(p, c, Refused)
    else if p.remoteDescriptionSet then Now(p, c, Handing)
    else if |p.pending| >= MAX_PENDING then Now(p, c, Refused)
    else Buffer(p, c)
  }

  function HandStep(p: Peer, c: CallId): Peer {
    Now(p.(given := p.given + [Gift(c, false, p.connectionReady)]), c, Given)
  }

  function DescribeStep(p: Peer, c: CallId, ok: bool): Peer {
    if ok then Now(p.(connectionReady := true), c, Described) else Now(p, c, Refused)
  }

  function TakeBufferStep(p: Peer, c: CallId): Peer {
    Now(p.(remoteDescriptionSet := true, pending := [], first := if p.first.None? then Some(c) else p.first),
        c, Flushing(p.pending))
  }

  function FlushOneStep(p: Peer, c: CallId): Peer
    requires c in p.calls && p.calls[c].Flushing?
  {
    var rest := p.calls[c].rest;
    if rest == [] then Now(p, c, Done)
    else Now(p.(given := p.given + [Gift(rest[0], true, p.connectionReady)]), c, Flushing(rest[1..]))
  }

  function CloseStep(p: Peer): Peer {
    if p.closed then p else p.(closed := true, pending := [], discarded := p.discarded + p.pending)
  }

  predicate At(p: Peer, c: CallId, call: Call) {
    c in p.calls && p.calls[c] == call
  }

  function Step(p: Peer, e: Event): Peer {
    match e
    case Add(c) => if c in p.calls then p else AddStep(p, c)
    case Hand(c) => if At(p, c, Handing) then HandStep(p, c) else p
    case BeginSet(c, connected) =>
      if c in p.calls then p else Now(p, c, if p.closed || !connected then Refused else Describing)
    case Describe(c, ok) => if At(p, c, Describing) then DescribeStep(p, c, ok) else p
    case TakeBuffer(c) => if At(p, c, Described) then TakeBufferStep(p, c) else p
    case FlushOne(c) => if c in p.calls && p.calls[c].Flushing? then FlushOneStep(p, c) else p
    case Close => CloseStep(p)
  }

  function Run(events: seq<Event>): Peer {
    if events == [] then NEW_PEER else Step(Run(events[..|events| - 1]), events[|events| - 1])
  }

  // ---------- The invariant ----------

  /** The candidates given to the connection from the buffer, or directly, in order. */
  function Gifts(given: seq<Gift>, flushed: bool): seq<CallId> {
    if given == [] then []
    else
      var last := given[|given| - 1];
      Gifts(given[..|given| - 1], flushed) + if last.flushed == flushed then [last.candidate] else []
  }

  /** What the call that took the buffer still has to give to the connection. */
  function Rest(p: Peer): seq<CallId> {
    if p.first.Some? && p.first.value in p.calls && p.calls[p.first.value].Flushing?
    then p.calls[p.first.value].rest else []
  }

  /** Every candidate that was buffered is given, being given, in the buffer or thrown away, in order and once. */
  ghost predicate Accounted(p: Peer) {
    && p.buffered == Gifts(p.given, true) + Rest(p) + p.pending + p.discarded
    && (p.discarded != [] ==> p.closed && Gifts(p.given, true) == [] && Rest(p) == [])
    && |p.pending| <= MAX_PENDING
    && (p.closed || p.remoteDescriptionSet ==> p.pending == [])
    && (p.first.Some? <==> p.remoteDescriptionSet) && (p.first.None? ==> Gifts(p.given, true) == [])
    && (forall c :: c in p.calls && p.calls[c].Flushing? && p.first != Some(c) ==> p.calls[c].rest == [])
    && (p.first.Some? ==>
          p.first.value in p.calls && (p.calls[p.first.value].Flushing? || p.calls[p.first.value].Done?))
  }

  /** Nothing is given to the connection, or about to be, before it has its description. */
  ghost predicate ReadyOk(p: Peer) {
    && (forall i :: 0 <= i < |p.given| ==> p.given[i].ready)
    && (p.remoteDescriptionSet ==> p.connectionReady)
    && (forall c :: c in p.calls && (p.calls[c].Flushing? || p.calls[c].Done?) ==> p.remoteDescriptionSet)
    && (forall c :: c in p.calls && (p.calls[c].Described? || p.calls[c].Flushing? || p.calls[c].Handing?) ==>
          p.connectionReady)
  }

  predicate Distinct(s: seq<CallId>) {
    forall i, j :: 0 <= i < j < |s| ==> s[i] != s[j]
  }

  /** A call's candidate was buffered, given directly, or neither, and at most once. */
  ghost predicate OnceOk(p: Peer) {
    && Distinct(p.buffered) && Distinct(Gifts(p.given, false))
    && (forall c :: c in p.buffered <==> At(p, c, Buffered))
    && (forall c :: c in Gifts(p.given, false) <==> At(p, c, Given))
  }

  ghost predicate Inv(p: Peer) {
    Accounted(p) && ReadyOk(p) && OnceOk(p)
  }

  lemma GiftsSnoc(given: seq<Gift>, g: Gift, flushed: bool)
    ensures Gifts(given + [g], flushed) == Gifts(given, flushed) + if g.flushed == flushed then [g.candidate] else []
  {
  }

  lemma DistinctSnoc(s: seq<CallId>, c: CallId)
    requires Distinct(s) && c !in s
    ensures Distinct(s + [c])
  {
  }

  /** A call that starts out, or moves on, without touching candidates. */
  lemma QuietInv(p: Peer, c: CallId, call: Call)
    requires Inv(p) && (c !in p.calls || p.calls[c].Describing?)
    requires || call.Refused? || call.Describing?
             || (call.Handing? && p.remoteDescriptionSet) || (call.Described? && p.connectionReady)
    ensures Inv(Now(p, c, call))
  {
    QuietAccounted(p, c, call);
    QuietOnce(p, c, call);
  }

  lemma QuietAccounted(p: Peer, c: CallId, call: Call)
    requires Accounted(p) && (c !in p.calls || p.calls[c].Describing?)
    requires !call.Flushing? && !call.Done?
    ensures Accounted(Now(p, c, call))
  {
    assert Rest(Now(p, c, call)) == Rest(p);
  }

  lemma QuietOnce(p: Peer, c: CallId, call: Call)
    requires OnceOk(p) && (c !in p.calls || p.calls[c].Describing?)
    requires !call.Buffered? && !call.Given?
    ensures OnceOk(Now(p, c, call))
  {
    var t := Now(p, c, call);
    assert forall b, was: Call :: was.Buffered? || was.Given? ==> (At(t, b, was) <==> At(p, b, was));
  }

  lemma AddInv(p: Peer, c: CallId)
    requires Inv(p) && c !in p.calls
    ensures Inv(AddStep(p, c))
  {
    if p.closed || p.remoteDescriptionSet || |p.pending| >= MAX_PENDING {
      QuietInv(p, c, if !p.closed && p.remoteDescriptionSet then Handing else Refused);
    } else {
      BufferInv(p, c);
    }
  }

  lemma BufferInv(p: Peer, c: CallId)
    requires Inv(p) && c !in p.calls && !p.closed && !p.remoteDescriptionSet && |p.pending| < MAX_PENDING
    ensures Inv(Buffer(p, c))
  {
    BufferAccounted(p, c);
    BufferOnce(p, c);
  }

  lemma BufferAccounted(p: Peer, c: CallId)
    requires Accounted(p) && c !in p.calls && !p.closed && !p.remoteDescriptionSet && |p.pending| < MAX_PENDING
    ensures Accounted(Buffer(p, c))
  {
  }

  lemma BufferOnce(p: Peer, c: CallId)
    requires OnceOk(p) && c !in p.calls
    ensures OnceOk(Buffer(p, c))
  {
    assert !At(p, c, Buffered);
    DistinctSnoc(p.buffered, c);
  }

  lemma HandAccounted(p: Peer, c: CallId)
    requires Accounted(p) && At(p, c, Handing)
    ensures Accounted(HandStep(p, c))
  {
    GiftsSnoc(p.given, Gift(c, false, p.connectionReady), true);
    assert Rest(HandStep(p, c)) == Rest(p);
  }

  lemma HandOnce(p: Peer, c: CallId)
    requires OnceOk(p) && At(p, c, Handing)
    ensures OnceOk(HandStep(p, c))
  {
    var gifts, t := Gifts(p.given, false), HandStep(p, c);
    GiftsSnoc(p.given, Gift(c, false, p.connectionReady), false);
    assert c !in gifts;
    DistinctSnoc(gifts, c);
    forall b
      ensures b in t.buffered <==> At(t, b, Buffered)
      ensures b in gifts + [c] <==> At(t, b, Given)
    {
      assert b in p.buffered <==> At(p, b, Buffered);
      assert b in gifts <==> At(p, b, Given);
    }
  }

  lemma HandReady(p: Peer, c: CallId)
    requires ReadyOk(p) && At(p, c, Handing)
    ensures ReadyOk(HandStep(p, c))
  {
  }

  lemma HandInv(p: Peer, c: CallId)
    requires Inv(p) && At(p, c, Handing)
    ensures Inv(HandStep(p, c))
  {
    HandAccounted(p, c);
    HandReady(p, c);
    HandOnce(p, c);
  }

  lemma DescribeInv(p: Peer, c: CallId, ok: bool)
    requires Inv(p) && At(p, c, Describing)
    ensures Inv(DescribeStep(p, c, ok))
  {
    if ok {
      var q := p.(connectionReady := true);
      assert Rest(q) == Rest(p);
      QuietInv(q, c, Described);
    } else {
      QuietInv(p, c, Refused);
    }
  }

  lemma TakeAccounted(p: Peer, c: CallId)
    requires Accounted(p) && At(p, c, Described)
    ensures Accounted(TakeBufferStep(p, c))
  {
    var t := TakeBufferStep(p, c);
    if p.first.None? {
      assert Rest(t) == p.pending && Rest(p) == [];
      Swap(Gifts(p.given, true), p.pending, p.discarded);
    } else {
      assert Rest(t) == Rest(p);
    }
  }

  lemma Swap(a: seq<CallId>, b: seq<CallId>, c: seq<CallId>)
    ensures a + [] + b + c == a + b + [] + c
  {
  }

  lemma TakeReadyAndOnce(p: Peer, c: CallId)
    requires ReadyOk(p) && OnceOk(p) && At(p, c, Described)
    ensures ReadyOk(TakeBufferStep(p, c)) && OnceOk(TakeBufferStep(p, c))
  {
  }

  lemma TakeBufferInv(p: Peer, c: CallId)
    requires Inv(p) && At(p, c, Described)
    ensures Inv(TakeBufferStep(p, c))
  {
    TakeAccounted(p, c);
    TakeReadyAndOnce(p, c);
  }

  lemma FlushAccounted(p: Peer, c: CallId)
    requires Accounted(p) && c in p.calls && p.calls[c].Flushing? && p.calls[c].rest != []
    ensures Accounted(FlushOneStep(p, c))
  {
  }

  lemma FlushOnce(p: Peer, c: CallId)
    requires OnceOk(p) && c in p.calls && p.calls[c].Flushing? && p.calls[c].rest != []
    ensures OnceOk(FlushOneStep(p, c))
  {
  }

  lemma FlushReady(p: Peer, c: CallId)
    requires ReadyOk(p) && c in p.calls && p.calls[c].Flushing?
    ensures ReadyOk(FlushOneStep(p, c))
  {
  }

  lemma FlushDoneAccounted(p: Peer, c: CallId)
    requires Accounted(p) && At(p, c, Flushing([]))
    ensures Accounted(FlushOneStep(p, c))
  {
    assert Rest(FlushOneStep(p, c)) == Rest(p);
  }

  lemma FlushDoneOnce(p: Peer, c: CallId)
    requires OnceOk(p) && At(p, c, Flushing([]))
    ensures OnceOk(FlushOneStep(p, c))
  {
  }

  lemma FlushOneInv(p: Peer, c: CallId)
    requires Inv(p) && c in p.calls && p.calls[c].Flushing?
    ensures Inv(FlushOneStep(p, c))
  {
    FlushReady(p, c);
    if p.calls[c].rest == [] {
      FlushDoneAccounted(p, c);
      FlushDoneOnce(p, c);
    } else {
      FlushAccounted(p, c);
      FlushOnce(p, c);
    }
  }

  lemma CloseInv(p: Peer)
    requires Inv(p)
    ensures Inv(CloseStep(p))
  {
  }

  lemma StepInv(p: Peer, e: Event)
    requires Inv(p)
    ensures Inv(Step(p, e))
  {
    if Step(p, e) != p {
      match e
      case Add(c) => AddInv(p, c);
      case Hand(c) => HandInv(p, c);
      case BeginSet(c, connected) => QuietInv(p, c, if p.closed || !connected then Refused else Describing);
      case Describe(c, ok) => DescribeInv(p, c, ok);
      case TakeBuffer(c) => TakeBufferInv(p, c);
      case FlushOne(c) => FlushOneInv(p, c);
      case Close => CloseInv(p);
    }
  }

  lemma {:induction false} RunInv(events: seq<Event>)
    ensures Inv(Run(events))
  {
    if events != [] {
      var n := |events| - 1;
      RunInv(events[..n]);
      StepInv(Run(events[..n]), events[n]);
    }
  }

  // ---------- Main results ----------

  /** How often the connection was given this candidate. */
  function TimesGiven(p: Peer, c: CallId): nat {
    multiset(Gifts(p.given, true))[c] + multiset(Gifts(p.given, false))[c]
  }

  lemma {:induction false} DistinctOnce(s: seq<CallId>, c: CallId)
    requires Distinct(s)
    ensures multiset(s)[c] == if c in s then 1 else 0
  {
    if s != [] {
      var n := |s| - 1;
      assert s == s[..n] + [s[n]];
      DistinctOnce(s[..n], c);
    }
  }

  /**
   Exactly once, in every interleaving: a candidate that was refused is never given to the
   connection; one that was taken in has been given once, or is still on its way (in the buffer,
   with the call that took the buffer, or with its own call) and has not been given, or was thrown
   away by Close and never is.
   */
  lemma ExactlyOnce(events: seq<Event>, c: CallId)
    requires c in Run(events).calls
    ensures var p := Run(events);
            && (p.calls[c].Given? ==> TimesGiven(p, c) == 1)
            && (p.calls[c].Buffered? ==>
                  TimesGiven(p, c) + multiset(Rest(p))[c] + multiset(p.pending)[c] + multiset(p.discarded)[c] == 1)
            && (!p.calls[c].Given? && !p.calls[c].Buffered? ==> TimesGiven(p, c) == 0)
  {
    RunInv(events);
    var p := Run(events);
    DistinctOnce(p.buffered, c);
    DistinctOnce(Gifts(p.given, false), c);
    assert multiset(p.buffered)
        == multiset(Gifts(p.given, true)) + multiset(Rest(p)) + multiset(p.pending) + multiset(p.discarded);
  }

  /** Once the description is set and no call is under way, every candidate taken in was given once or thrown away. */
  lemma AllDelivered(events: seq<Event>, c: CallId)
    requires var p := Run(events);
             && c in p.calls && p.remoteDescriptionSet && (p.calls[c].Buffered? || p.calls[c].Given?)
             && forall b :: b in p.calls ==> !p.calls[b].Flushing?
    ensures var p := Run(events);
            TimesGiven(p, c) == 1 || (c in p.discarded && p.closed && TimesGiven(p, c) == 0)
  {
    ExactlyOnce(events, c);
    RunInv(events);
    assert Rest(Run(events)) == [];
  }

  /** The buffer stays within its bound and is given to the connection in the order in which it was filled. */
  lemma FlushedInOrder(events: seq<Event>)
    ensures var p := Run(events);
            |p.pending| <= MAX_PENDING && Gifts(p.given, true) <= p.buffered
  {
    RunInv(events);
  }

  /** The connection is never given a candidate before it has its remote description. */
  lemma NeverEarly(events: seq<Event>, i: nat)
    requires i < |Run(events).given|
    ensures Run(events).given[i].ready
  {
    RunInv(events);
  }

  lemma {:induction false} ClosedExactly(events: seq<Event>)
    ensures Run(events).closed <==> Close in events
  {
    if events != [] {
      ClosedExactly(events[..|events| - 1]);
      ClosedStep(Run(events[..|events| - 1]), events[|events| - 1]);
      LastOrBefore(events, Close);
    }
  }

  lemma ClosedStep(p: Peer, e: Event)
    ensures Step(p, e).closed <==> p.closed || e == Close
  {
  }

  lemma LastOrBefore(events: seq<Event>, e: Event)
    requires events != []
    ensures e in events <==> e in events[..|events| - 1] || e == events[|events| - 1]
  {
    assert events == events[..|events| - 1] + [events[|events| - 1]];
  }

  /** Some call has taken the buffer. */
  ghost predicate BufferTaken(p: Peer) {
    exists c :: c in p.calls && (p.calls[c].Flushing? || p.calls[c].Done?)
  }

  /**
   Exactly what becomes of a candidate that arrives: after Close it is refused; once the buffer has
   been taken it goes to the connection; before that it is buffered, last, unless 256 are already.
   */
  lemma AddExactly(events: seq<Event>, c: CallId)
    requires c !in Run(events).calls
    ensures var p, t := Run(events), Step(Run(events), Add(c));
            && c in t.calls
            && (t.calls[c].Handing? <==> Close !in events && BufferTaken(p))
            && (t.calls[c].Buffered? <==> Close !in events && !BufferTaken(p) && |p.pending| < 256)
            && (t.calls[c].Handing? || t.calls[c].Buffered? || t.calls[c].Refused?)
            && t.pending == (if t.calls[c].Buffered? then p.pending + [c] else p.pending)
  {
    RunInv(events);
    ClosedExactly(events);
    var p := Run(events);
    if p.remoteDescriptionSet {
      assert p.calls[p.first.value].Flushing? || p.calls[p.first.value].Done?;
    }
  }

  /** Exactly when a remote description is passed on, and that taking the buffer takes all of it. */
  lemma SetExactly(events: seq<Event>, c: CallId, connected: bool)
    requires c !in Run(events).calls || Run(events).calls[c].Described?
    ensures var p := Run(events);
            && (c !in p.calls ==>
                  (At(Step(p, BeginSet(c, connected)), c, Describing) <==> Close !in events && connected))
            && (c in p.calls ==>
                  var t := Step(p, TakeBuffer(c));
                  t.calls[c] == Flushing(p.pending) && t.pending == [] && BufferTaken(t))
  {
    ClosedExactly(events);
    if c in Run(events).calls {
      assert Step(Run(events), TakeBuffer(c)).calls[c].Flushing?;
    }
  }

  // ---------- Every call ends ----------

  predicate UnderWay(call: Call) {
    call.Handing? || call.Describing? || call.Described? || call.Flushing?
  }

  /** The candidates that a call under way is going to take from the buffer and give to the connection. */
  function ToFlush(p: Peer, call: Call): seq<CallId> {
    match call
    case Describing => p.pending
    case Described => p.pending
    case Flushing(rest) => rest
    case _ => []
  }

  function Next(c: CallId, call: Call): Event
    requires UnderWay(call)
  {
    match call
    case Handing => Hand(c)
    case Describing => Describe(c, true)
    case Described => TakeBuffer(c)
    case Flushing(_) => FlushOne(c)
  }

  function Stage(call: Call): nat {
    match call
    case Describing => 3
    case Described => 2
    case Flushing(_) => 1
    case Handing => 1
    case _ => 0
  }

  /** No event but a call's own moves it. */
  lemma OwnEventsOnly(p: Peer, e: Event, c: CallId)
    requires c in p.calls && (e.Close? || e.call != c)
    ensures At(Step(p, e), c, p.calls[c])
  {
  }

  /** The call is nearer to its end in t than in p, and what it has to give away is given or still to be given. */
  ghost predicate Nearer(p: Peer, t: Peer, c: CallId)
    requires c in p.calls
  {
    && c in t.calls
    && (Stage(t.calls[c]) < Stage(p.calls[c]) || (Stage(t.calls[c]) == Stage(p.calls[c]) && Left(t, c) < Left(p, c)))
    && Gifts(t.given, true) + ToFlush(t, t.calls[c]) == Gifts(p.given, true) + ToFlush(p, p.calls[c])
    && (p.calls[c].Handing? ==> t.calls[c].Given?)
  }

  function Left(p: Peer, c: CallId): nat {
    if c in p.calls && p.calls[c].Flushing? then |p.calls[c].rest| else 0
  }

  lemma HandNearer(p: Peer, c: CallId)
    requires At(p, c, Handing)
    ensures Nearer(p, Step(p, Hand(c)), c)
  {
    GiftsSnoc(p.given, Gift(c, false, p.connectionReady), true);
  }

  lemma FlushNearer(p: Peer, c: CallId)
    requires c in p.calls && p.calls[c].Flushing?
    ensures Nearer(p, FlushOneStep(p, c), c)
  {
    var rest, gifts := p.calls[c].rest, Gifts(p.given, true);
    if rest != [] {
      var t := FlushOneStep(p, c);
      GiftsSnoc(p.given, Gift(rest[0], true, p.connectionReady), true);
      TakeFirst(gifts, rest);
      assert Gifts(t.given, true) == gifts + [rest[0]] && ToFlush(t, t.calls[c]) == rest[1..];
    }
  }

  lemma TakeFirst(a: seq<CallId>, b: seq<CallId>)
    requires b != []
    ensures a + [b[0]] + b[1..] == a + b
  {
  }

  lemma NextNearer(p: Peer, c: CallId)
    requires c in p.calls && UnderWay(p.calls[c])
    ensures Nearer(p, Step(p, Next(c, p.calls[c])), c)
  {
    match p.calls[c]
    case Handing => HandNearer(p, c);
    case Describing =>
    case Described =>
    case Flushing(_) => FlushNearer(p, c);
  }

  /** From p to t the call has come to its end, with everything given away that it had to. */
  ghost predicate Ended(p: Peer, t: Peer, c: CallId)
    requires c in p.calls
  {
    && c in t.calls && !UnderWay(t.calls[c])
    && Gifts(t.given, true) == Gifts(p.given, true) + ToFlush(p, p.calls[c])
    && (p.calls[c].Handing? || p.calls[c].Given? ==> t.calls[c].Given?)
  }

  lemma EndedAlready(p: Peer, c: CallId)
    requires c in p.calls && !UnderWay(p.calls[c])
    ensures Ended(p, p, c)
  {
    assert ToFlush(p, p.calls[c]) == [];
  }

  lemma EndedVia(p: Peer, s: Peer, t: Peer, c: CallId)
    requires c in p.calls && UnderWay(p.calls[c]) && Nearer(p, s, c) && Ended(s, t, c)
    ensures Ended(p, t, c)
  {
  }

  function RunFrom(p: Peer, events: seq<Event>): Peer
    decreases |events|
  {
    if events == [] then p else RunFrom(Step(p, events[0]), events[1..])
  }

  lemma {:induction false} RunThen(events: seq<Event>, more: seq<Event>)
    ensures Run(events + more) == RunFrom(Run(events), more)
    decreases |more|
  {
    if more == [] {
      assert events + more == events;
    } else {
      assert (events + [more[0]])[..|events|] == events;
      assert events + more == events + [more[0]] + more[1..];
      RunThen(events + [more[0]], more[1..]);
    }
  }

  lemma {:induction false} EndsFrom(p: Peer, c: CallId) returns (more: seq<Event>)
    requires c in p.calls
    ensures forall e :: e in more ==> !e.Close? && e.call == c
    ensures Ended(p, RunFrom(p, more), c)
    decreases Stage(p.calls[c]), Left(p, c)
  {
    if UnderWay(p.calls[c]) {
      var e := Next(c, p.calls[c]);
      NextNearer(p, c);
      var rest := EndsFrom(Step(p, e), c);
      more := [e] + rest;
      assert more[1..] == rest;
      EndedVia(p, Step(p, e), RunFrom(p, more), c);
    } else {
      EndedAlready(p, c);
      more := [];
    }
  }

  /**
   No call is ever stuck: from every state of every run its own steps alone, which nothing else can
   take or undo, bring it to its end. A candidate past the lock is then given to the connection, and
   so is, in order, everything that a call setting the description has to take from the buffer.
   */
  lemma CallEnds(events: seq<Event>, c: CallId) returns (more: seq<Event>)
    requires c in Run(events).calls
    ensures forall e :: e in more ==> !e.Close? && e.call == c
    ensures Ended(Run(events), Run(events + more), c)
  {
    more := EndsFrom(Run(events), c);
    RunThen(events, more);
  }
}
