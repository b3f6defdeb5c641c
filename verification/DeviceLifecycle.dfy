/**
 Starting and closing a capture device. Start opens the device without holding the lock and
 installs the session only if no Close came in between, which it tells from the generation; Close
 takes the session out under the lock and closes it afterwards; a camera session also has a reader
 that closes and clears its own session when it ends. A step is one critical section or one close
 of a session; a run is any interleaving of any number of calls. A microphone is the case in which
 no reader is ever spawned.
 */
module DeviceLifecycle {
  import opened Wrappers

  type CallId = nat
  type SessionId = nat

  datatype Reader = Unborn | Reading | Ended | Cleared

  /** An opened device; `owner` is the Start call that opened it, in generation `born`. */
  datatype Session = Session(owner: CallId, born: nat, closed: bool, reader: Reader)

  /** Where a call is. A Start carries the generation it saw, a Close the one it made. */
  datatype Call =
    | Refused                                              // a Start that found the device running
    | Opening(seen: nat)
    | Opened(seen: nat, session: SessionId)
    | Rejecting(seen: nat, session: SessionId)             // about to close what it opened
    | Installed(seen: nat, session: SessionId)             // reader not spawned yet
    | Finishing(seen: nat, result: Option<SessionId>)      // `starting` still set
    | Started(seen: nat, result: Option<SessionId>)
    | Closing(made: nat, taken: Option<SessionId>)
    | Closed(made: nat, taken: Option<SessionId>)

  datatype Device = Device(
    installed: Option<SessionId>, starting: bool, generation: nat,
    calls: map<CallId, Call>, sessions: map<SessionId, Session>)

  const IDLE := Device(None, false, 0, map[], map[])

  datatype Event =
    | BeginStart(call: CallId)
    | Open(call: CallId, session: SessionId, ok: bool)
    | Install(call: CallId, cancelled: bool)
    | Reject(call: CallId)
    | Spawn(call: CallId, reading: bool)
    | FinishStart(call: CallId)
    | BeginClose(call: CallId)
    | FinishClose(call: CallId)
    | ReaderEnds(session: SessionId)
    | ReaderClears(session: SessionId)

  function Now(d: Device, c: CallId, call: Call): Device {
    d.(calls := d.calls[c := call])
  }

  function CloseSession(d: Device, x: SessionId): Device
    requires x in d.sessions
  {
    d.(sessions := d.sessions[x := d.sessions[x].(closed := true)])
  }

  function BeginStartStep(d: Device, c: CallId): Device {
    if d.installed.Some? || d.starting then Now(d, c, Refused)
    else Now(d.(starting := true), c, Opening(d.generation))
  }

  /** Opening may fail; then nothing stays open. */
  function OpenStep(d: Device, c: CallId, x: SessionId, ok: bool): Device
    requires c in d.calls && d.calls[c].Opening?
  {
    var seen := d.calls[c].seen;
    if ok then Now(d.(sessions := d.sessions[x := Session(c, seen, false, Unborn)]), c, Opened(seen, x))
    else Now(d, c, Finishing(seen, None))
  }

  function InstallStep(d: Device, c: CallId, cancelled: bool): Device
    requires c in d.calls && d.calls[c].Opened?
  {
    var Opened(seen, x) := d.calls[c];
    if d.generation != seen || cancelled then Now(d, c, Rejecting(seen, x))
    else Now(d.(installed := Some(x)), c, Installed(seen, x))
  }

  function RejectStep(d: Device, c: CallId): Device
    requires c in d.calls && d.calls[c].Rejecting? && d.calls[c].session in d.sessions
  {
    var Rejecting(seen, x) := d.calls[c];
    Now(CloseSession(d, x), c, Finishing(seen, Some(x)))
  }

  function SpawnStep(d: Device, c: CallId, reading: bool): Device
    requires c in d.calls && d.calls[c].Installed? && d.calls[c].session in d.sessions
  {
    var Installed(seen, x) := d.calls[c];
    var session := d.sessions[x].(reader := if reading then Reading else Unborn);
    Now(d.(sessions := d.sessions[x := session]), c, Finishing(seen, Some(x)))
  }

  function FinishStartStep(d: Device, c: CallId): Device
    requires c in d.calls && d.calls[c].Finishing?
  {
    Now(d.(starting := false), c, Started(d.calls[c].seen, d.calls[c].result))
  }

  function BeginCloseStep(d: Device, c: CallId): Device {
    Now(d.(generation := d.generation + 1, installed := None), c, Closing(d.generation + 1, d.installed))
  }

  function FinishCloseStep(d: Device, c: CallId): Device
    requires c in d.calls && d.calls[c].Closing? && (d.calls[c].taken.Some? ==> d.calls[c].taken.value in d.sessions)
  {
    var Closing(made, taken) := d.calls[c];
    Now(if taken.Some? then CloseSession(d, taken.value) else d, c, Closed(made, taken))
  }

  function ReaderEndsStep(d: Device, x: SessionId): Device
    requires x in d.sessions
  {
    d.(sessions := d.sessions[x := d.sessions[x].(closed := true, reader := Ended)])
  }

  /** clearSession. */
  function ReaderClearsStep(d: Device, x: SessionId): Device
    requires x in d.sessions
  {
    d.(sessions := d.sessions[x := d.sessions[x].(reader := Cleared)],
       installed := if d.installed == Some(x) then None else d.installed)
  }

  function Step(d: Device, e: Event): Device {
    match e
    case BeginStart(c) => if c in d.calls then d else BeginStartStep(d, c)
    case Open(c, x, ok) => if c in d.calls && d.calls[c].Opening? && x !in d.sessions then OpenStep(d, c, x, ok) else d
    case Install(c, cancelled) => if c in d.calls && d.calls[c].Opened? then InstallStep(d, c, cancelled) else d
    case Reject(c) =>
      if c in d.calls && d.calls[c].Rejecting? && d.calls[c].session in d.sessions then RejectStep(d, c) else d
    case Spawn(c, reading) =>
      if c in d.calls && d.calls[c].Installed? && d.calls[c].session in d.sessions then SpawnStep(d, c, reading) else d
    case FinishStart(c) => if c in d.calls && d.calls[c].Finishing? then FinishStartStep(d, c) else d
    case BeginClose(c) => if c in d.calls then d else BeginCloseStep(d, c)
    case FinishClose(c) =>
      if c in d.calls && d.calls[c].Closing? && (d.calls[c].taken.Some? ==> d.calls[c].taken.value in d.sessions)
      then FinishCloseStep(d, c) else d
    case ReaderEnds(x) => if x in d.sessions && d.sessions[x].reader.Reading? then ReaderEndsStep(d, x) else d
    case ReaderClears(x) => if x in d.sessions && d.sessions[x].reader.Ended? then ReaderClearsStep(d, x) else d
  }

  function Run(events: seq<Event>): Device {
    if events == [] then IDLE else Step(Run(events[..|events| - 1]), events[|events| - 1])
  }

  // ---------- The invariant ----------

  predicate Starting(call: Call) {
    call.Opening? || call.Opened? || call.Rejecting? || call.Installed? || call.Finishing?
  }

  /** The session that the call still has in hand, to close it or install it. */
  function Held(call: Call): Option<SessionId> {
    match call
    case Opened(_, x) => Some(x)
    case Rejecting(_, x) => Some(x)
    case Closing(_, taken) => taken
    case _ => None
  }

  predicate Holds(call: Call, x: SessionId) {
    Held(call) == Some(x)
  }

  /** The session that a Start call opened, if it did. */
  function OpenedBy(call: Call): Option<SessionId> {
    match call
    case Opened(_, x) => Some(x)
    case Rejecting(_, x) => Some(x)
    case Installed(_, x) => Some(x)
    case Finishing(_, result) => result
    case Started(_, result) => result
    case _ => None
  }

  function Seen(call: Call): nat {
    match call
    case Opening(seen) => seen
    case Opened(seen, _) => seen
    case Rejecting(seen, _) => seen
    case Installed(seen, _) => seen
    case Finishing(seen, _) => seen
    case Started(seen, _) => seen
    case _ => 0
  }

  /** Generations are not from the future, and a session belongs to the one Start that opened it. */
  ghost predicate CallsOk(d: Device) {
    && (forall c :: c in d.calls && (d.calls[c].Closing? || d.calls[c].Closed?) ==> d.calls[c].made <= d.generation)
    && (forall c :: c in d.calls && d.calls[c].Closing? && d.calls[c].taken.Some? ==>
          d.calls[c].taken.value in d.sessions)
    && (forall c :: c in d.calls && OpenedBy(d.calls[c]).Some? ==>
          var x := OpenedBy(d.calls[c]).value;
          x in d.sessions && d.sessions[x].owner == c && d.sessions[x].born == Seen(d.calls[c]))
  }

  /** At most one Start is under way, and while it has not installed anything, nothing is installed. */
  ghost predicate OneStart(d: Device) {
    && (forall b, c :: b in d.calls && c in d.calls && Starting(d.calls[b]) && Starting(d.calls[c]) ==> b == c)
    && (forall c :: c in d.calls && Starting(d.calls[c]) ==> d.starting)
    && (forall c :: c in d.calls && (d.calls[c].Opening? || d.calls[c].Opened?) ==> d.installed.None?)
  }

  ghost predicate InHand(d: Device, x: SessionId) {
    exists c :: c in d.calls && Holds(d.calls[c], x)
  }

  /** The installed session is of the current generation; every open session is installed or in some call's hands. */
  ghost predicate SessionsOk(d: Device) {
    && (d.installed.Some? ==> d.installed.value in d.sessions && d.sessions[d.installed.value].born == d.generation)
    && (forall x :: x in d.sessions && !d.sessions[x].closed ==> d.installed == Some(x) || InHand(d, x))
    && (forall x :: x in d.sessions && Over(d.sessions[x].reader) ==> d.sessions[x].closed)
  }

  predicate Over(reader: Reader) {
    reader.Ended? || reader.Cleared?
  }

  /**
   A session is in at most one call's hands and not installed then; whatever is in hand or installed
   can have been closed by its own reader only, which its Start spawns last; and a Close takes only
   what is older than itself and has closed it when it returns.
   */
  ghost predicate HandsOk(d: Device) {
    && Apart(d.calls)
    && (forall c :: c in d.calls ==> HandOk(d, d.calls[c]))
    && (d.installed.Some? ==> OpenOrOver(d, d.installed.value))
  }

  ghost predicate Apart(calls: map<CallId, Call>) {
    forall b, c :: b in calls && c in calls && Held(calls[b]).Some? && Held(calls[b]) == Held(calls[c]) ==> b == c
  }

  predicate HandOk(d: Device, call: Call) {
    && (Held(call).Some? ==> d.installed != Held(call) && OpenOrOver(d, Held(call).value))
    && (Unspawned(call) ==> call.session in d.sessions && d.sessions[call.session].reader.Unborn?)
    && (Took(call) ==>
          var x := call.taken.value;
          x in d.sessions && d.sessions[x].born < call.made && (call.Closed? ==> d.sessions[x].closed))
  }

  predicate Took(call: Call) {
    (call.Closing? || call.Closed?) && call.taken.Some?
  }

  predicate OpenOrOver(d: Device, x: SessionId) {
    x in d.sessions && (d.sessions[x].closed ==> Over(d.sessions[x].reader))
  }

  predicate Unspawned(call: Call) {
    call.Opened? || call.Rejecting? || call.Installed?
  }

  ghost predicate Sound(d: Device) {
    CallsOk(d) && OneStart(d) && SessionsOk(d)
  }

  predicate Ending(call: Call) {
    call.Closing? || call.Closed?
  }

  ghost predicate StartUnderWay(d: Device) {
    exists c :: c in d.calls && Starting(d.calls[c])
  }

  /** Some Close made this generation. */
  ghost predicate Made(d: Device, generation: nat) {
    exists c :: c in d.calls && Ending(d.calls[c]) && d.calls[c].made == generation
  }

  /** The flag and the generation mean what they should: a Start is under way; so many Closes have come. */
  ghost predicate FlagsOk(d: Device) {
    && (d.starting ==> StartUnderWay(d))
    && (d.generation > 0 ==> Made(d, d.generation))
    && (forall c :: c in d.calls ==> Seen(d.calls[c]) <= d.generation)
  }

  ghost predicate Inv(d: Device) {
    Sound(d) && HandsOk(d) && FlagsOk(d)
  }

  /** A step of call c keeps every open session accounted for, if it does so for the session c is concerned with. */
  lemma Accounted(d: Device, t: Device, c: CallId, mine: Option<SessionId>)
    requires SessionsOk(d) && (forall b :: b in d.calls && b != c ==> b in t.calls && t.calls[b] == d.calls[b])
    requires forall x :: x in t.sessions && mine != Some(x) ==>
               x in d.sessions && (d.sessions[x].closed ==> t.sessions[x].closed)
    requires forall x: SessionId :: mine != Some(x) ==>
               && (d.installed == Some(x) ==> t.installed == Some(x))
               && (c in d.calls && Holds(d.calls[c], x) ==> c in t.calls && Holds(t.calls[c], x))
    requires mine.Some? && mine.value in t.sessions && !t.sessions[mine.value].closed ==>
               t.installed == mine || InHand(t, mine.value)
    ensures forall x :: x in t.sessions && !t.sessions[x].closed ==> t.installed == Some(x) || InHand(t, x)
  {
  }

  lemma BeginStartSound(d: Device, c: CallId)
    requires Sound(d) && c !in d.calls
    ensures Sound(BeginStartStep(d, c))
  {
    Accounted(d, BeginStartStep(d, c), c, None);
  }

  lemma OpenSound(d: Device, c: CallId, x: SessionId, ok: bool)
    requires Sound(d) && c in d.calls && d.calls[c].Opening? && x !in d.sessions
    ensures Sound(OpenStep(d, c, x, ok))
  {
    var t := OpenStep(d, c, x, ok);
    assert ok ==> Holds(t.calls[c], x);
    Accounted(d, t, c, if ok then Some(x) else None);
  }

  lemma InstallSound(d: Device, c: CallId, cancelled: bool)
    requires Sound(d) && c in d.calls && d.calls[c].Opened?
    ensures Sound(InstallStep(d, c, cancelled))
  {
    var t := InstallStep(d, c, cancelled);
    assert t.calls[c].Rejecting? ==> Holds(t.calls[c], d.calls[c].session);
    Accounted(d, t, c, Some(d.calls[c].session));
  }

  lemma RejectSound(d: Device, c: CallId)
    requires Sound(d) && c in d.calls && d.calls[c].Rejecting? && d.calls[c].session in d.sessions
    ensures Sound(RejectStep(d, c))
  {
    Accounted(d, RejectStep(d, c), c, Some(d.calls[c].session));
  }

  lemma SpawnSound(d: Device, c: CallId, reading: bool)
    requires Sound(d) && c in d.calls && d.calls[c].Installed? && d.calls[c].session in d.sessions
    ensures Sound(SpawnStep(d, c, reading))
  {
    var t := SpawnStep(d, c, reading);
    SpawnCalls(d, c, reading);
    Accounted(d, t, c, None);
  }

  lemma SpawnCalls(d: Device, c: CallId, reading: bool)
    requires CallsOk(d) && OneStart(d) && c in d.calls && d.calls[c].Installed? && d.calls[c].session in d.sessions
    ensures CallsOk(SpawnStep(d, c, reading)) && OneStart(SpawnStep(d, c, reading))
  {
  }

  lemma FinishStartSound(d: Device, c: CallId)
    requires Sound(d) && c in d.calls && d.calls[c].Finishing?
    ensures Sound(FinishStartStep(d, c))
  {
    Accounted(d, FinishStartStep(d, c), c, None);
  }

  lemma BeginCloseSound(d: Device, c: CallId)
    requires Sound(d) && c !in d.calls
    ensures Sound(BeginCloseStep(d, c))
  {
    var t := BeginCloseStep(d, c);
    assert d.installed.Some? ==> Holds(t.calls[c], d.installed.value);
    Accounted(d, t, c, d.installed);
  }

  lemma CloseSessionSound(d: Device, x: SessionId)
    requires Sound(d) && x in d.sessions
    ensures Sound(CloseSession(d, x))
  {
  }

  lemma ClosedSound(d: Device, c: CallId)
    requires Sound(d) && c in d.calls && d.calls[c].Closing?
    requires d.calls[c].taken.Some? ==> d.sessions[d.calls[c].taken.value].closed
    ensures Sound(Now(d, c, Closed(d.calls[c].made, d.calls[c].taken)))
  {
    var Closing(made, taken) := d.calls[c];
    var t := Now(d, c, Closed(made, taken));
    Accounted(d, t, c, taken);
    assert forall b :: b in t.calls && b != c ==> t.calls[b] == d.calls[b];
  }

  lemma FinishCloseSound(d: Device, c: CallId)
    requires Sound(d) && c in d.calls && d.calls[c].Closing?
    requires d.calls[c].taken.Some? ==> d.calls[c].taken.value in d.sessions
    ensures Sound(FinishCloseStep(d, c))
  {
    var Closing(made, taken) := d.calls[c];
    if taken.Some? {
      CloseSessionSound(d, taken.value);
      ClosedSound(CloseSession(d, taken.value), c);
    } else {
      ClosedSound(d, c);
    }
  }

  lemma ReaderSound(d: Device, e: Event)
    requires Sound(d) && (e.ReaderEnds? || e.ReaderClears?)
    ensures Sound(Step(d, e))
  {
  }

  // ---------- Hands ----------

  lemma BeginStartHands(d: Device, c: CallId)
    requires HandsOk(d) && c !in d.calls
    ensures HandsOk(BeginStartStep(d, c))
  {
  }

  lemma OpenHands(d: Device, c: CallId, x: SessionId, ok: bool)
    requires HandsOk(d) && c in d.calls && d.calls[c].Opening? && x !in d.sessions
    ensures HandsOk(OpenStep(d, c, x, ok))
  {
  }

  lemma InstallHands(d: Device, c: CallId, cancelled: bool)
    requires HandsOk(d) && c in d.calls && d.calls[c].Opened?
    ensures HandsOk(InstallStep(d, c, cancelled))
  {
  }

  lemma RejectHands(d: Device, c: CallId)
    requires HandsOk(d) && c in d.calls && d.calls[c].Rejecting? && d.calls[c].session in d.sessions
    ensures HandsOk(RejectStep(d, c))
  {
  }

  lemma SpawnedCall(d: Device, c: CallId)
    requires HandsOk(d) && c in d.calls && d.calls[c].Installed?
    ensures HandsOk(Now(d, c, Finishing(d.calls[c].seen, Some(d.calls[c].session))))
  {
  }

  lemma SpawnedReader(d: Device, x: SessionId, reader: Reader)
    requires HandsOk(d) && x in d.sessions && d.sessions[x].reader.Unborn?
    requires forall b :: b in d.calls && Unspawned(d.calls[b]) ==> d.calls[b].session != x
    ensures HandsOk(d.(sessions := d.sessions[x := d.sessions[x].(reader := reader)]))
  {
  }

  lemma SpawnHands(d: Device, c: CallId, reading: bool)
    requires HandsOk(d) && CallsOk(d) && c in d.calls && d.calls[c].Installed? && d.calls[c].session in d.sessions
    ensures HandsOk(SpawnStep(d, c, reading))
  {
    var x := d.calls[c].session;
    forall b | b in d.calls && Unspawned(d.calls[b]) && b != c
      ensures d.calls[b].session != x
    {
      OnlyOwner(d, b, c, x);
    }
    assert HandOk(d, d.calls[c]);
    SpawnedCall(d, c);
    SpawnedReader(Now(d, c, Finishing(d.calls[c].seen, Some(x))), x, if reading then Reading else Unborn);
  }

  lemma FinishStartHands(d: Device, c: CallId)
    requires HandsOk(d) && c in d.calls && d.calls[c].Finishing?
    ensures HandsOk(FinishStartStep(d, c))
  {
  }

  lemma BeginCloseHands(d: Device, c: CallId)
    requires HandsOk(d) && SessionsOk(d) && c !in d.calls
    ensures HandsOk(BeginCloseStep(d, c))
  {
  }

  lemma FinishCloseHands(d: Device, c: CallId)
    requires HandsOk(d) && c in d.calls && d.calls[c].Closing?
    requires d.calls[c].taken.Some? ==> d.calls[c].taken.value in d.sessions
    ensures HandsOk(FinishCloseStep(d, c))
  {
  }

  lemma ReaderHands(d: Device, x: SessionId)
    requires HandsOk(d) && x in d.sessions && !d.sessions[x].reader.Unborn?
    ensures HandsOk(ReaderEndsStep(d, x))
    ensures d.sessions[x].closed ==> HandsOk(ReaderClearsStep(d, x))
  {
  }

  /** Call c moves on: a Start stays under way or clears the flag, a Close keeps the generation it made. */
  lemma FlagsNow(d: Device, t: Device, c: CallId)
    requires FlagsOk(d) && c in t.calls && t.generation == d.generation && Seen(t.calls[c]) <= t.generation
    requires t.calls == d.calls[c := t.calls[c]]
    requires t.starting ==> Starting(t.calls[c]) || (d.starting && (c in d.calls ==> !Starting(d.calls[c])))
    requires c in d.calls && Ending(d.calls[c]) ==> Ending(t.calls[c]) && t.calls[c].made == d.calls[c].made
    ensures FlagsOk(t)
  {
    if t.starting && !Starting(t.calls[c]) {
      var b :| b in d.calls && Starting(d.calls[b]);
      assert t.calls[b] == d.calls[b];
    }
    if d.generation > 0 {
      var b :| b in d.calls && Ending(d.calls[b]) && d.calls[b].made == d.generation;
      assert b in t.calls && Ending(t.calls[b]) && t.calls[b].made == t.generation;
    }
  }

  lemma BeginCloseFlags(d: Device, c: CallId)
    requires FlagsOk(d) && c !in d.calls
    ensures FlagsOk(BeginCloseStep(d, c))
  {
    var t := BeginCloseStep(d, c);
    assert Ending(t.calls[c]) && t.calls[c].made == t.generation;
    if d.starting {
      var b :| b in d.calls && Starting(d.calls[b]);
      assert Starting(t.calls[b]);
    }
  }

  lemma ReaderFlags(d: Device, t: Device)
    requires FlagsOk(d) && t.calls == d.calls && t.starting == d.starting && t.generation == d.generation
    ensures FlagsOk(t)
  {
  }

  lemma StartFlags(d: Device, e: Event)
    requires FlagsOk(d) && (e.Install? || e.Reject? || e.Spawn? || e.FinishStart?)
    ensures FlagsOk(Step(d, e))
  {
    if Step(d, e) != d {
      FlagsNow(d, Step(d, e), e.call);
    }
  }

  lemma FlagsStep(d: Device, e: Event)
    requires FlagsOk(d)
    ensures FlagsOk(Step(d, e))
  {
    var t := Step(d, e);
    if t != d {
      match e
      case BeginStart(c) => FlagsNow(d, t, c);
      case Open(c, _, _) => FlagsNow(d, t, c);
      case Install(_, _) => StartFlags(d, e);
      case Reject(_) => StartFlags(d, e);
      case Spawn(_, _) => StartFlags(d, e);
      case FinishStart(_) => StartFlags(d, e);
      case BeginClose(c) => BeginCloseFlags(d, c);
      case FinishClose(c) => FlagsNow(d, t, c);
      case ReaderEnds(_) => ReaderFlags(d, t);
      case ReaderClears(_) => ReaderFlags(d, t);
    }
  }

  lemma StepInv(d: Device, e: Event)
    requires Inv(d)
    ensures Inv(Step(d, e))
  {
    FlagsStep(d, e);
    if Step(d, e) != d {
      match e
      case BeginStart(c) => BeginStartSound(d, c); BeginStartHands(d, c);
      case Open(c, x, ok) => OpenSound(d, c, x, ok); OpenHands(d, c, x, ok);
      case Install(c, cancelled) => InstallSound(d, c, cancelled); InstallHands(d, c, cancelled);
      case Reject(c) => RejectSound(d, c); RejectHands(d, c);
      case Spawn(c, reading) => SpawnSound(d, c, reading); SpawnHands(d, c, reading);
      case FinishStart(c) => FinishStartSound(d, c); FinishStartHands(d, c);
      case BeginClose(c) => BeginCloseSound(d, c); BeginCloseHands(d, c);
      case FinishClose(c) => FinishCloseSound(d, c); FinishCloseHands(d, c);
      case ReaderEnds(x) => ReaderSound(d, e); ReaderHands(d, x);
      case ReaderClears(x) => ReaderSound(d, e); ReaderHands(d, x);
    }
  }

  lemma {:induction false} RunInv(events: seq<Event>)
    ensures Inv(Run(events))
  {
    if events != [] {
      var n := |events| - 1;
      RunInv(events[..n]);
      StepInv(Run(events[..n]), events[n]);
    }
  }

  // ---------- Main results ----------

  /** No opened device is ever lost: while it is open it is installed or in the hands of a call that is under way. */
  lemma NothingLeaks(events: seq<Event>, x: SessionId)
    requires x in Run(events).sessions && !Run(events).sessions[x].closed
    ensures var d := Run(events);
            || (d.installed == Some(x) && d.sessions[x].born == d.generation)
            || exists c :: c in d.calls && Holds(d.calls[c], x)
  {
    RunInv(events);
  }

  /** When no call is under way, every open session is the installed one. */
  lemma AtRest(events: seq<Event>, x: SessionId)
    requires forall c :: c in Run(events).calls ==> !Starting(Run(events).calls[c]) && !Run(events).calls[c].Closing?
    requires x in Run(events).sessions && !Run(events).sessions[x].closed
    ensures Run(events).installed == Some(x)
  {
    NothingLeaks(events, x);
  }

  /** Exactly when a Start goes ahead: when no session is installed and no other Start is under way. */
  lemma StartTakenExactly(events: seq<Event>, c: CallId)
    requires c !in Run(events).calls
    ensures var d, t := Run(events), Step(Run(events), BeginStart(c));
            && c in t.calls && (t.calls[c].Opening? || t.calls[c].Refused?)
            && (t.calls[c].Opening? <==>
                  d.installed.None? && !(exists b :: b in d.calls && Starting(d.calls[b])))
  {
    RunInv(events);
  }

  /** Exactly when an opened session is installed: when no Close came since its Start began and nobody cancelled. */
  lemma InstalledExactly(events: seq<Event>, c: CallId, cancelled: bool)
    requires c in Run(events).calls && Run(events).calls[c].Opened?
    ensures var d, t := Run(events), Step(Run(events), Install(c, cancelled));
            var x := d.calls[c].session;
            && (t.installed == Some(x) <==>
                  !cancelled && !(exists b :: b in d.calls && Ending(d.calls[b]) && d.calls[b].made > d.calls[c].seen))
            && (t.installed != Some(x) ==> t.calls[c] == Rejecting(d.calls[c].seen, x))
  {
    RunInv(events);
    var d := Run(events);
    assert Seen(d.calls[c]) == d.calls[c].seen;
    if d.generation > d.calls[c].seen {
      var b :| b in d.calls && Ending(d.calls[b]) && d.calls[b].made == d.generation;
      assert d.calls[b].made > d.calls[c].seen;
    }
  }

  /** A Close makes a generation later than any Start that began before it has seen, and takes what is installed. */
  lemma CloseIsLater(events: seq<Event>, c: CallId, b: CallId)
    requires c !in Run(events).calls && b in Run(events).calls
    ensures var d, t := Run(events), Step(Run(events), BeginClose(c));
            && t.calls[c] == Closing(t.generation, d.installed) && t.installed.None?
            && Seen(d.calls[b]) < t.calls[c].made && t.calls[b] == d.calls[b]
  {
    RunInv(events);
  }

  /** Two Starts are never under way at once, and installing a session never displaces another. */
  lemma NeverDisplaced(events: seq<Event>, b: CallId, c: CallId)
    requires b in Run(events).calls && c in Run(events).calls && b != c
    ensures var d := Run(events);
            && !(Starting(d.calls[b]) && Starting(d.calls[c]))
            && (d.calls[c].Opened? ==> d.installed.None?)
  {
    RunInv(events);
  }

  lemma OnlyOwner(d: Device, b: CallId, c: CallId, x: SessionId)
    requires CallsOk(d) && b in d.calls && c in d.calls
    ensures OpenedBy(d.calls[b]) == Some(x) && OpenedBy(d.calls[c]) == Some(x) ==> b == c
  {
  }

  /**
   A Start that began before a Close, once both have returned: its session is still open if and only
   if another Close, still under way, has it in hand and its own reader has not ended it first.
   */
  lemma StartThenClose(events: seq<Event>, start: CallId, close: CallId, x: SessionId)
    requires var d := Run(events);
             && start in d.calls && close in d.calls
             && d.calls[start].Started? && d.calls[start].result == Some(x)
             && d.calls[close].Closed? && d.calls[start].seen < d.calls[close].made
    ensures var d := Run(events);
            && x in d.sessions
            && (!d.sessions[x].closed <==>
                  && !Over(d.sessions[x].reader)
                  && exists c :: c in d.calls && d.calls[c].Closing? && d.calls[c].taken == Some(x))
  {
    RunInv(events);
    var d := Run(events);
    assert OpenedBy(d.calls[start]) == Some(x);
    if !d.sessions[x].closed {
      var c :| c in d.calls && Holds(d.calls[c], x);
      OnlyOwner(d, c, start, x);
    } else if c :| c in d.calls && d.calls[c].Closing? && d.calls[c].taken == Some(x) {
      assert Holds(d.calls[c], x);
    }
  }

  /** A Close that has returned has closed the session it took, and nothing opens it again. */
  lemma TakenIsClosed(events: seq<Event>, c: CallId)
    requires c in Run(events).calls && Run(events).calls[c].Closed? && Run(events).calls[c].taken.Some?
    ensures var d := Run(events);
            var x := d.calls[c].taken.value;
            x in d.sessions && d.sessions[x].closed && d.installed != Some(x)
  {
    RunInv(events);
    assert Took(Run(events).calls[c]);
  }

  /**
   A dying session never clears a newer one: in every run, an installed session stays installed
   until a Close comes or its very own reader clears it, whatever other calls and readers do.
   */
  lemma {:induction false} NewerSurvives(events: seq<Event>, i: nat, y: SessionId)
    requires i <= |events| && Run(events[..i]).installed == Some(y)
    requires forall j :: i <= j < |events| ==> !events[j].BeginClose? && events[j] != ReaderClears(y)
    ensures Run(events).installed == Some(y)
  {
    if i == |events| {
      assert events[..i] == events;
    } else {
      var n := |events| - 1;
      assert events[..n][..i] == events[..i];
      NewerSurvives(events[..n], i, y);
      RunInv(events[..n]);
    }
  }

  /** Why another Close is allowed for: the second of two can return while the first still has the session. */
  lemma SecondCloseReturnsFirst() returns (events: seq<Event>)
    ensures var d := Run(events);
            && 0 in d.calls && d.calls[0] == Started(0, Some(7)) && 2 in d.calls && d.calls[2] == Closed(2, None)
            && 7 in d.sessions && !d.sessions[7].closed
  {
    events := OneSession();
    events := Then(events, BeginClose(1));
    events := Then(events, BeginClose(2));
    events := Then(events, FinishClose(2));
  }

  lemma OneSession() returns (events: seq<Event>)
    ensures Run(events)
         == Device(Some(7), false, 0, map[0 := Started(0, Some(7))], map[7 := Session(0, 0, false, Reading)])
  {
    events := Then([], BeginStart(0));
    events := Then(events, Open(0, 7, true));
    assert Run(events) == Device(None, true, 0, map[0 := Opened(0, 7)], map[7 := Session(0, 0, false, Unborn)]);
    events := Then(events, Install(0, false));
    events := Then(events, Spawn(0, true));
    assert Run(events)
        == Device(Some(7), true, 0, map[0 := Finishing(0, Some(7))], map[7 := Session(0, 0, false, Reading)]);
    events := Then(events, FinishStart(0));
  }

  lemma Then(events: seq<Event>, e: Event) returns (longer: seq<Event>)
    ensures Run(longer) == Step(Run(events), e)
  {
    longer := events + [e];
    assert longer[..|events|] == events;
  }

  // ---------- Every call returns ----------

  function Rank(call: Call): nat {
    match call
    case Opening(_) => 4
    case Opened(_, _) => 3
    case Rejecting(_, _) => 2
    case Installed(_, _) => 2
    case Finishing(_, _) => 1
    case Closing(_, _) => 1
    case _ => 0
  }

  /** What the surroundings decide about a Start: which session is opened, if any, and whether it was cancelled. */
  datatype Outcome = Outcome(session: SessionId, ok: bool, cancelled: bool, reading: bool)

  function Next(c: CallId, call: Call, o: Outcome): Event
    requires Rank(call) > 0
  {
    match call
    case Opening(_) => Open(c, o.session, o.ok)
    case Opened(_, _) => Install(c, o.cancelled)
    case Rejecting(_, _) => Reject(c)
    case Installed(_, _) => Spawn(c, o.reading)
    case Finishing(_, _) => FinishStart(c)
    case Closing(_, _) => FinishClose(c)
  }

  predicate OwnEvent(e: Event, c: CallId) {
    !e.ReaderEnds? && !e.ReaderClears? && e.call == c
  }

  /** No event but a call's own moves it. */
  lemma OwnEventsOnly(d: Device, e: Event, c: CallId)
    requires c in d.calls && !OwnEvent(e, c)
    ensures c in Step(d, e).calls && Step(d, e).calls[c] == d.calls[c]
  {
  }

  /** How a call left to itself ends: a Start with its session installed or closed, a Close with what it took closed. */
  ghost predicate Returned(d: Device, t: Device, c: CallId, o: Outcome)
    requires c in d.calls
  {
    && c in t.calls && Rank(t.calls[c]) == 0
    && match d.calls[c]
       case Opening(seen) =>
         && t.calls[c] == Started(seen, if o.ok then Some(o.session) else None) && !t.starting
         && t.installed == (if o.ok && !o.cancelled && seen == d.generation then Some(o.session) else d.installed)
         && (o.ok && (o.cancelled || seen != d.generation) ==> IsClosed(t, o.session))
       case Opened(seen, x) =>
         && t.calls[c] == Started(seen, Some(x)) && !t.starting
         && t.installed == (if !o.cancelled && seen == d.generation then Some(x) else d.installed)
         && (o.cancelled || seen != d.generation ==> IsClosed(t, x))
       case Rejecting(seen, x) =>
         t.calls[c] == Started(seen, Some(x)) && !t.starting && t.installed == d.installed && IsClosed(t, x)
       case Installed(seen, x) => t.calls[c] == Started(seen, Some(x)) && !t.starting && t.installed == d.installed
       case Finishing(seen, result) =>
         t.calls[c] == Started(seen, result) && !t.starting && t.installed == d.installed && t.sessions == d.sessions
       case Closing(made, taken) => t.calls[c] == Closed(made, taken) && (taken.Some? ==> IsClosed(t, taken.value))
       case _ => t == d
  }

  predicate IsClosed(d: Device, x: SessionId) {
    x in d.sessions && d.sessions[x].closed
  }

  lemma NextReturns(d: Device, t: Device, c: CallId, o: Outcome)
    requires CallsOk(d) && c in d.calls && Rank(d.calls[c]) > 0
    requires d.calls[c].Opening? ==> o.session !in d.sessions
    requires var s := Step(d, Next(c, d.calls[c], o)); c in s.calls && Returned(s, t, c, o)
    ensures Returned(d, t, c, o)
  {
  }

  lemma NextRank(d: Device, c: CallId, o: Outcome)
    requires CallsOk(d) && c in d.calls && Rank(d.calls[c]) > 0
    requires d.calls[c].Opening? ==> o.session !in d.sessions
    ensures var t := Step(d, Next(c, d.calls[c], o));
            c in t.calls && Rank(t.calls[c]) < Rank(d.calls[c]) && !t.calls[c].Opening?
  {
  }

  /**
   No call is ever stuck: from every state of every run at most four steps of its own, which nothing
   else can take or undo, bring it to its end, whatever the surroundings decide.
   */
  lemma {:induction false} CallReturns(events: seq<Event>, c: CallId, o: Outcome) returns (more: seq<Event>)
    requires c in Run(events).calls && (Run(events).calls[c].Opening? ==> o.session !in Run(events).sessions)
    ensures |more| <= Rank(Run(events).calls[c]) <= 4 && forall e :: e in more ==> OwnEvent(e, c)
    ensures Returned(Run(events), Run(events + more), c, o)
    decreases Rank(Run(events).calls[c])
  {
    if Rank(Run(events).calls[c]) > 0 {
      var e := OneStep(events, c, o);
      var rest := CallReturns(events + [e], c, o);
      assert events + [e] + rest == events + ([e] + rest);
      NextReturns(Run(events), Run(events + [e] + rest), c, o);
      more := [e] + rest;
    } else {
      assert events + [] == events;
      more := [];
    }
  }

  lemma OneStep(events: seq<Event>, c: CallId, o: Outcome) returns (e: Event)
    requires var d := Run(events);
             c in d.calls && Rank(d.calls[c]) > 0 && (d.calls[c].Opening? ==> o.session !in d.sessions)
    ensures CallsOk(Run(events)) && OwnEvent(e, c)
    ensures e == Next(c, Run(events).calls[c], o) && Run(events + [e]) == Step(Run(events), e)
    ensures var t := Run(events + [e]);
            c in t.calls && Rank(t.calls[c]) < Rank(Run(events).calls[c]) && !t.calls[c].Opening?
  {
    e := Next(c, Run(events).calls[c], o);
    RunInv(events);
    NextRank(Run(events), c, o);
    assert (events + [e])[..|events|] == events;
  }

  // ---------- Readers ----------

  /** A reader that ends closes its session and, if that is still installed, makes way for the next Start. */
  lemma ReaderMakesWay(events: seq<Event>, x: SessionId)
    requires x in Run(events).sessions && Run(events).sessions[x].reader.Reading?
    ensures var d, t := Run(events), Run(events + [ReaderEnds(x), ReaderClears(x)]);
            && IsClosed(t, x) && t.sessions[x].reader == Cleared && t.calls == d.calls && t.starting == d.starting
            && t.installed == if d.installed == Some(x) then None else d.installed
  {
    var all := events + [ReaderEnds(x), ReaderClears(x)];
    assert all[..|events| + 1][..|events|] == events && all[..|events| + 1][|events|] == ReaderEnds(x);
    assert Run(all[..|events| + 1]) == Step(Run(events), ReaderEnds(x));
  }

  /** In every run, a session whose reader has ended and cleared up is not installed, and never will be. */
  lemma {:induction false} ClearedIsGone(events: seq<Event>)
    ensures var d := Run(events);
            d.installed.Some? ==> d.installed.value in d.sessions && !d.sessions[d.installed.value].reader.Cleared?
  {
    if events != [] {
      var n := |events| - 1;
      ClearedIsGone(events[..n]);
      RunInv(events[..n]);
      RunInv(events);
      ClearedStep(Run(events[..n]), events[n]);
    }
  }

  lemma ClearedStep(d: Device, e: Event)
    requires SessionsOk(d) && HandsOk(d) && SessionsOk(Step(d, e))
    requires d.installed.Some? ==> !d.sessions[d.installed.value].reader.Cleared?
    ensures var t := Step(d, e);
            t.installed.Some? ==> !t.sessions[t.installed.value].reader.Cleared?
  {
  }
}
