/**
 Audio playback. One writer queues decoded chunks, dropping the oldest when the queue is full; the
 audio callback fills its buffer from what is left of the chunk being played and then from the
 queue, and with silence when both run out. First the interleavings of the two, one channel
 operation per step; then the callback's fill loop on its byte buffer.
 */
module Playback {

  const QUEUE_SIZE := 8
  const CHANNELS := 1

  type Sample = s: int | -32768 <= s <= 32767
  type Byte = b: int | 0 <= b < 256
  type Chunk = seq<Sample>

  function Concat(chunks: seq<Chunk>): seq<Sample> {
    if chunks == [] then [] else Concat(chunks[..|chunks| - 1]) + chunks[|chunks| - 1]
  }

  lemma ConcatSnoc(chunks: seq<Chunk>, c: Chunk)
    ensures Concat(chunks + [c]) == Concat(chunks) + c
  {
  }

  lemma {:induction false} ConcatFirst(chunks: seq<Chunk>)
    requires chunks != []
    ensures Concat(chunks) == chunks[0] + Concat(chunks[1..])
  {
    var front, last := chunks[..|chunks| - 1], chunks[|chunks| - 1];
    if front == [] {
      assert chunks[1..] == [];
    } else {
      ConcatFirst(front);
      assert chunks[1..] == front[1..] + [last];
      ConcatSnoc(front[1..], last);
      Reassociate(chunks[0], Concat(front[1..]), last);
    }
  }

  lemma Reassociate(a: Chunk, b: Chunk, c: Chunk)
    ensures (a + b) + c == a + (b + c)
  {
  }

  // ---------- Interleavings ----------

  datatype Writer = Idle | Dropping(chunk: nat) | Retrying(chunk: nat)

  datatype Output = Played(sample: Sample) | Silence

  /**
   `written` is every chunk given to the writer, `queue`, `taken` and `dropped` name chunks by their
   place in it; `output` is everything the callback has produced.
   */
  datatype Player = Player(
    written: seq<Chunk>, queue: seq<nat>, writer: Writer,
    taken: seq<nat>, dropped: set<nat>, leftover: seq<Sample>, output: seq<Output>)

  const SILENT := Player([], [], Idle, [], {}, [], [])

  datatype Event =
    | Offer(chunk: Chunk)   // the writer's first attempt to queue
    | DropOldest
    | Retry
    | Take                  // the callback takes the next chunk
    | Play(n: nat)          // the callback copies n samples of it
    | Underrun(n: nat)      // the callback finds nothing and fills up with n samples of silence

  function Silences(n: nat): seq<Output> {
    seq(n, _ => Silence)
  }

  function PlayedAll(samples: seq<Sample>): seq<Output> {
    seq(|samples|, i requires 0 <= i < |samples| => Played(samples[i]))
  }

  function OfferStep(p: Player, chunk: Chunk): Player {
    var n := |p.written|;
    var p := p.(written := p.written + [chunk]);
    if |p.queue| < QUEUE_SIZE then p.(queue := p.queue + [n]) else p.(writer := Dropping(n))
  }

  function TakeStep(p: Player): Player
    requires p.queue != [] && p.queue[0] < |p.written|
  {
    p.(queue := p.queue[1..], taken := p.taken + [p.queue[0]], leftover := p.written[p.queue[0]])
  }

  function PlayStep(p: Player, n: nat): Player
    requires n <= |p.leftover|
  {
    p.(leftover := p.leftover[n..], output := p.output + PlayedAll(p.leftover[..n]))
  }

  function Step(p: Player, e: Event): Player {
    match e
    case Offer(chunk) => if p.writer.Idle? then OfferStep(p, chunk) else p
    case DropOldest =>
      if p.writer.Dropping? then
        p.(writer := Retrying(p.writer.chunk), queue := if p.queue == [] then [] else p.queue[1..],
           dropped := if p.queue == [] then p.dropped else p.dropped + {p.queue[0]})
      else p
    case Retry =>
      if p.writer.Retrying? then
        p.(writer := Idle, queue := if |p.queue| < QUEUE_SIZE then p.queue + [p.writer.chunk] else p.queue)
      else p
    case Take => if p.leftover == [] && p.queue != [] && p.queue[0] < |p.written| then TakeStep(p) else p
    case Play(n) => if n <= |p.leftover| then PlayStep(p, n) else p
    case Underrun(n) => if p.leftover == [] && p.queue == [] then p.(output := p.output + Silences(n)) else p
  }

  function Run(events: seq<Event>): Player {
    if events == [] then SILENT else Step(Run(events[..|events| - 1]), events[|events| - 1])
  }

  /** The samples of the output that are not silence. */
  function Heard(output: seq<Output>): seq<Sample> {
    if output == [] then []
    else
      var last := output[|output| - 1];
      Heard(output[..|output| - 1]) + if last.Played? then [last.sample] else []
  }

  predicate Increasing(s: seq<nat>) {
    forall i, j :: 0 <= i < j < |s| ==> s[i] < s[j]
  }

  /** The writer's own chunk comes after everything taken and queued. */
  function WriterChunk(w: Writer): seq<nat> {
    if w.Idle? then [] else [w.chunk]
  }

  predicate Below(s: seq<nat>, n: nat) {
    forall i :: 0 <= i < |s| ==> s[i] < n
  }

  function Chunks(p: Player): seq<Chunk>
    requires Below(p.taken, |p.written|)
  {
    seq(|p.taken|, i requires 0 <= i < |p.taken| => p.written[p.taken[i]])
  }

  /** All the chunks that have a place, in the order in which they play. */
  function Line(p: Player): seq<nat> {
    p.taken + p.queue + WriterChunk(p.writer)
  }

  ghost predicate Inv(p: Player) {
    && Increasing(Line(p)) && Below(Line(p), |p.written|)
    && |p.queue| <= QUEUE_SIZE && (p.writer.Retrying? ==> |p.queue| < QUEUE_SIZE)
    && Below(p.taken, |p.written|)
    && Heard(p.output) + p.leftover == Concat(Chunks(p))
  }

  lemma {:induction false} HeardAppend(a: seq<Output>, b: seq<Output>)
    ensures Heard(a + b) == Heard(a) + Heard(b)
  {
    if b == [] {
      assert a + b == a;
    } else {
      var n := |b| - 1;
      assert (a + b)[..|a| + n] == a + b[..n];
      HeardAppend(a, b[..n]);
    }
  }

  lemma {:induction false} HeardPlayed(samples: seq<Sample>)
    ensures Heard(PlayedAll(samples)) == samples
  {
    if samples != [] {
      var n := |samples| - 1;
      assert PlayedAll(samples)[..n] == PlayedAll(samples[..n]);
      HeardPlayed(samples[..n]);
    }
  }

  lemma {:induction false} HeardSilence(n: nat)
    ensures Heard(Silences(n)) == []
  {
    if n > 0 {
      assert Silences(n)[..n - 1] == Silences(n - 1);
      HeardSilence(n - 1);
    }
  }

  lemma OfferInv(p: Player, chunk: Chunk)
    requires Inv(p) && p.writer.Idle?
    ensures Inv(OfferStep(p, chunk))
  {
    var t := OfferStep(p, chunk);
    assert Line(t) == Line(p) + [|p.written|];
    assert Increasing(Line(t)) && Below(Line(t), |t.written|) by {
      OneMore(Line(p), |p.written|);
    }
    assert Chunks(t) == Chunks(p);
  }

  lemma OneMore(s: seq<nat>, n: nat)
    requires Increasing(s) && Below(s, n)
    ensures Increasing(s + [n]) && Below(s + [n], n + 1)
  {
  }

  lemma DropInv(p: Player)
    requires Inv(p) && p.writer.Dropping?
    ensures Inv(Step(p, DropOldest))
  {
    var t := Step(p, DropOldest);
    if p.queue != [] {
      assert Line(p) == p.taken + [p.queue[0]] + (p.queue[1..] + WriterChunk(p.writer));
      Skip(p.taken, p.queue[0], p.queue[1..] + WriterChunk(p.writer), |p.written|);
      assert Line(t) == p.taken + (p.queue[1..] + WriterChunk(p.writer));
    }
    assert Chunks(t) == Chunks(p);
  }

  lemma Skip(a: seq<nat>, x: nat, b: seq<nat>, n: nat)
    requires Increasing(a + [x] + b) && Below(a + [x] + b, n)
    ensures Increasing(a + b) && Below(a + b, n)
  {
    var s, t := a + [x] + b, a + b;
    forall i, j | 0 <= i < j < |t|
      ensures t[i] < t[j]
    {
      var i', j' := if i < |a| then i else i + 1, if j < |a| then j else j + 1;
      assert t[i] == s[i'] && t[j] == s[j'];
    }
    forall i | 0 <= i < |t|
      ensures t[i] < n
    {
      assert t[i] == s[if i < |a| then i else i + 1];
    }
  }

  lemma RetryInv(p: Player)
    requires Inv(p) && p.writer.Retrying?
    ensures Inv(Step(p, Retry)) && Step(p, Retry).queue == p.queue + [p.writer.chunk]
  {
    var t := Step(p, Retry);
    assert Line(t) == Line(p);
    assert Chunks(t) == Chunks(p);
  }

  lemma TakeLine(p: Player)
    requires p.queue != [] && p.queue[0] < |p.written|
    ensures Line(TakeStep(p)) == Line(p)
  {
    assert p.queue == [p.queue[0]] + p.queue[1..];
  }

  lemma TakeChunks(p: Player)
    requires Below(p.taken, |p.written|) && p.queue != [] && p.queue[0] < |p.written|
    ensures Below(TakeStep(p).taken, |p.written|)
    ensures Concat(Chunks(TakeStep(p))) == Concat(Chunks(p)) + p.written[p.queue[0]]
  {
    assert Chunks(TakeStep(p)) == Chunks(p) + [p.written[p.queue[0]]];
    ConcatSnoc(Chunks(p), p.written[p.queue[0]]);
  }

  lemma TakeInv(p: Player)
    requires Inv(p) && p.leftover == [] && p.queue != [] && p.queue[0] < |p.written|
    ensures Inv(TakeStep(p))
  {
    TakeLine(p);
    TakeChunks(p);
  }

  lemma PlayInv(p: Player, n: nat)
    requires Inv(p) && n <= |p.leftover|
    ensures Inv(PlayStep(p, n))
  {
    var t := PlayStep(p, n);
    HeardAppend(p.output, PlayedAll(p.leftover[..n]));
    HeardPlayed(p.leftover[..n]);
    assert p.leftover == p.leftover[..n] + p.leftover[n..];
    assert Heard(t.output) + t.leftover == Heard(p.output) + p.leftover;
    assert Line(t) == Line(p) && Chunks(t) == Chunks(p);
  }

  lemma UnderrunInv(p: Player, n: nat)
    requires Inv(p)
    ensures Inv(p.(output := p.output + Silences(n)))
  {
    HeardAppend(p.output, Silences(n));
    HeardSilence(n);
    var t := p.(output := p.output + Silences(n));
    assert Line(t) == Line(p) && Chunks(t) == Chunks(p);
  }

  lemma StepInv(p: Player, e: Event)
    requires Inv(p)
    ensures Inv(Step(p, e))
  {
    if Step(p, e) != p {
      match e
      case Offer(chunk) => OfferInv(p, chunk);
      case DropOldest => DropInv(p);
      case Retry => RetryInv(p);
      case Take => TakeInv(p);
      case Play(n) => PlayInv(p, n);
      case Underrun(n) => UnderrunInv(p, n);
    }
  }

  lemma {:induction false} RunInv(events: seq<Event>)
    ensures Inv(Run(events))
  {
    if events != [] {
      var n := |events| - 1;
      RunInv(events[..n]);
      StepInv(Run(events[..n]), events[n]);
    }
  }

  /**
   In every interleaving, what is heard is in order the samples of some of the written chunks, each
   played at most once and whole, but for the end of the last; and the queue stays within its bound.
   */
  lemma PlayedInOrder(events: seq<Event>)
    ensures var p := Run(events);
            && Increasing(p.taken) && Below(p.taken, |p.written|)
            && Heard(p.output) + p.leftover == Concat(Chunks(p))
            && |p.queue| <= 8
  {
    RunInv(events);
    TakenInOrder(Run(events));
  }

  lemma TakenInOrder(p: Player)
    requires Inv(p)
    ensures Increasing(p.taken)
  {
    forall i, j | 0 <= i < j < |p.taken|
      ensures p.taken[i] < p.taken[j]
    {
      assert Line(p)[i] < Line(p)[j];
    }
  }

  /**
   Silence exactly on underrun: an event of a run puts out silence if and only if it is an underrun
   for some samples that finds nothing left over and nothing queued.
   */
  lemma SilenceExactly(events: seq<Event>, e: Event)
    ensures var p, t := Run(events), Run(events + [e]);
            && p.output <= t.output
            && (Silence in t.output[|p.output|..] <==>
                  e.Underrun? && e.n > 0 && p.leftover == [] && p.queue == [])
  {
    assert (events + [e])[..|events|] == events;
    var p, t := Run(events), Run(events + [e]);
    assert t == Step(p, e);
    if e.Underrun? && e.n > 0 && p.leftover == [] && p.queue == [] {
      assert t.output[|p.output|..] == Silences(e.n) && Silences(e.n)[0] == Silence;
    } else if e.Play? && e.n <= |p.leftover| {
      assert t.output[|p.output|..] == PlayedAll(p.leftover[..e.n]);
    }
  }

  /** Only older chunks are ever dropped: the writer's second attempt always finds room. */
  lemma NewestIsKept(events: seq<Event>)
    requires Run(events).writer.Retrying?
    ensures var p := Run(events);
            Step(p, Retry).queue == p.queue + [p.writer.chunk]
  {
    RunInv(events);
    RetryInv(Run(events));
  }

  // ---------- Losses ----------

  /** How many chunks were offered when eight were waiting already. */
  function FullOffers(events: seq<Event>): nat {
    if events == [] then 0
    else
      var front := events[..|events| - 1];
      FullOffers(front) +
      if events[|events| - 1].Offer? && Run(front).writer.Idle? && |Run(front).queue| >= 8 then 1 else 0
  }

  /** Every chunk has a place in the line or was dropped. */
  ghost predicate Placed(p: Player) {
    && (forall i :: 0 <= i < |p.written| ==> i in Line(p) || i in p.dropped)
    && (forall i :: i in p.dropped ==> i < |p.written|)
  }

  lemma PlacedSame(p: Player, t: Player)
    requires Placed(p) && Line(t) == Line(p) && t.written == p.written && t.dropped == p.dropped
    ensures Placed(t)
  {
  }

  lemma PlacedOffer(p: Player, c: Chunk)
    requires Placed(p) && p.writer.Idle?
    ensures Placed(OfferStep(p, c))
  {
    var t := OfferStep(p, c);
    assert Line(t) == Line(p) + [|p.written|];
    assert forall i :: i in Line(p) ==> i in Line(t);
    assert Line(t)[|Line(p)|] == |p.written|;
  }

  lemma PlacedDrop(p: Player)
    requires Inv(p) && Placed(p) && p.writer.Dropping? && p.queue != []
    ensures Placed(Step(p, DropOldest))
  {
    var t := Step(p, DropOldest);
    var rest := t.queue + WriterChunk(t.writer);
    assert Line(p) == p.taken + [p.queue[0]] + rest && Line(t) == p.taken + rest;
    assert Line(p)[|p.taken|] == p.queue[0];
    forall i | i in Line(p)
      ensures i in Line(t) || i in t.dropped
    {
      var k :| 0 <= k < |Line(p)| && Line(p)[k] == i;
      assert k < |p.taken| ==> Line(t)[k] == i;
      assert k > |p.taken| ==> Line(t)[k - 1] == i;
    }
  }

  lemma PlacedRetry(p: Player)
    requires Inv(p) && Placed(p)
    ensures Placed(Step(p, Retry))
  {
    if p.writer.Retrying? {
      RetryInv(p);
      assert Line(Step(p, Retry)) == Line(p);
    }
  }

  lemma PlacedTake(p: Player)
    requires Inv(p) && Placed(p)
    ensures Placed(Step(p, Take))
  {
    if Step(p, Take) != p {
      TakeLine(p);
    }
  }

  lemma PlacedStep(p: Player, e: Event)
    requires Inv(p) && Placed(p)
    ensures Placed(Step(p, e))
  {
    var t := Step(p, e);
    if t != p {
      match e
      case Offer(c) => PlacedOffer(p, c);
      case DropOldest =>
        if p.queue != [] {
          PlacedDrop(p);
        } else {
          PlacedSame(p, t);
        }
      case Retry => PlacedRetry(p);
      case Take => PlacedTake(p);
      case Play(_) => PlacedSame(p, t);
      case Underrun(_) => PlacedSame(p, t);
    }
  }

  /**
   Nothing is lost but for want of room: every written chunk has been taken, is queued, is in the
   writer's hands or was dropped, and no more were dropped than were offered while eight were waiting.
   */
  lemma {:induction false} OnlyFullDrops(events: seq<Event>)
    ensures var p := Run(events);
            && (forall i :: 0 <= i < |p.written| ==>
                  i in p.taken || i in p.queue || i in WriterChunk(p.writer) || i in p.dropped)
            && |p.dropped| + (if p.writer.Dropping? then 1 else 0) <= FullOffers(events)
            && Placed(p)
  {
    if events != [] {
      var front := events[..|events| - 1];
      OnlyFullDrops(front);
      RunInv(front);
      PlacedStep(Run(front), events[|events| - 1]);
    }
  }

  /** In particular, as long as no offer finds eight chunks waiting, everything written is played or will be. */
  lemma NothingLost(events: seq<Event>, i: nat)
    requires FullOffers(events) == 0 && i < |Run(events).written|
    ensures var p := Run(events);
            (i in p.taken || i in p.queue) && p.dropped == {}
  {
    OnlyFullDrops(events);
    RetryFollowsDrop(events);
  }

  lemma {:induction false} RetryFollowsDrop(events: seq<Event>)
    requires FullOffers(events) == 0
    ensures Run(events).writer.Idle?
  {
    if events != [] {
      RetryFollowsDrop(events[..|events| - 1]);
    }
  }

  // ---------- One request of the callback ----------

  function RunFrom(p: Player, events: seq<Event>): Player {
    if events == [] then p else Step(RunFrom(p, events[..|events| - 1]), events[|events| - 1])
  }

  lemma {:induction false} RunFromMore(p: Player, e: Event, events: seq<Event>)
    ensures RunFrom(p, [e] + events) == RunFrom(Step(p, e), events)
  {
    if events == [] {
      assert [e] + events == [e] && [e][..0] == [];
      assert RunFrom(p, [e]) == Step(RunFrom(p, []), e);
    } else {
      var n := |events| - 1;
      assert ([e] + events)[..n + 1] == [e] + events[..n];
      RunFromMore(p, e, events[..n]);
    }
  }

  predicate ByCallback(e: Event) {
    e.Take? || e.Play? || e.Underrun?
  }

  function QueuedChunks(p: Player): seq<Chunk>
    requires Below(p.queue, |p.written|)
  {
    seq(|p.queue|, i requires 0 <= i < |p.queue| => p.written[p.queue[i]])
  }

  /** The samples that are still to be played. */
  function Waiting(p: Player): seq<Sample>
    requires Below(p.queue, |p.written|)
  {
    p.leftover + Concat(QueuedChunks(p))
  }

  /** What a request for some samples puts out: what is waiting, as far as it goes, and then silence. */
  function Answer(waiting: seq<Sample>, needed: nat): seq<Output> {
    if |waiting| < needed then PlayedAll(waiting) + Silences(needed - |waiting|) else PlayedAll(waiting[..needed])
  }

  function Unplayed(waiting: seq<Sample>, needed: nat): seq<Sample> {
    if |waiting| < needed then [] else waiting[needed..]
  }

  lemma TakeWaiting(p: Player)
    requires Below(p.queue, |p.written|) && p.leftover == [] && p.queue != []
    ensures Below(TakeStep(p).queue, |p.written|) && Waiting(TakeStep(p)) == Waiting(p)
  {
    ConcatFirst(QueuedChunks(p));
    assert QueuedChunks(TakeStep(p)) == QueuedChunks(p)[1..];
  }

  lemma PlayWaiting(p: Player, n: nat, needed: nat)
    requires Below(p.queue, |p.written|) && n <= |p.leftover| && n <= needed
    ensures Waiting(PlayStep(p, n)) == Waiting(p)[n..]
    ensures PlayedAll(p.leftover[..n]) + Answer(Waiting(p)[n..], needed - n) == Answer(Waiting(p), needed)
    ensures Unplayed(Waiting(p)[n..], needed - n) == Unplayed(Waiting(p), needed)
  {
    var w := Waiting(p);
    assert QueuedChunks(PlayStep(p, n)) == QueuedChunks(p);
    assert w[..n] == p.leftover[..n];
    assert |w| < needed ==> PlayedAll(w[..n]) + PlayedAll(w[n..]) == PlayedAll(w);
    assert |w| >= needed ==>
        w[n..][..needed - n] == w[n..needed] && PlayedAll(w[..n]) + PlayedAll(w[n..needed]) == PlayedAll(w[..needed]);
  }

  /** From p to t a request for some samples was answered. */
  ghost predicate Answered(p: Player, t: Player, needed: nat)
    requires Below(p.queue, |p.written|)
  {
    && Below(t.queue, |t.written|) && t.written == p.written && t.writer == p.writer
    && t.output == p.output + Answer(Waiting(p), needed)
    && Waiting(t) == Unplayed(Waiting(p), needed)
  }

  lemma UnderrunAnswers(p: Player, needed: nat)
    requires p.leftover == [] && p.queue == []
    ensures Answered(p, Step(p, Underrun(needed)), needed)
  {
    assert Waiting(p) == [];
    assert PlayedAll([]) + Silences(needed) == Silences(needed);
  }

  lemma TakeAnswers(p: Player, t: Player, needed: nat)
    requires Below(p.queue, |p.written|) && p.leftover == [] && p.queue != []
    requires Below(TakeStep(p).queue, |p.written|) && Answered(TakeStep(p), t, needed)
    ensures Answered(p, t, needed)
  {
    TakeWaiting(p);
  }

  lemma PlayAnswers(p: Player, n: nat, t: Player, needed: nat)
    requires Below(p.queue, |p.written|) && n <= |p.leftover| && n <= needed
    requires Answered(PlayStep(p, n), t, needed - n)
    ensures Answered(p, t, needed)
  {
    PlayWaiting(p, n, needed);
    Regroup(p.output, PlayedAll(p.leftover[..n]), Answer(Waiting(p)[n..], needed - n));
  }

  lemma RunTake(p: Player, rest: seq<Event>)
    requires p.leftover == [] && p.queue != [] && p.queue[0] < |p.written|
    ensures RunFrom(p, [Take] + rest) == RunFrom(TakeStep(p), rest)
  {
    RunFromMore(p, Take, rest);
  }

  lemma RunPlay(p: Player, n: nat, rest: seq<Event>)
    requires n <= |p.leftover|
    ensures RunFrom(p, [Play(n)] + rest) == RunFrom(PlayStep(p, n), rest)
  {
    RunFromMore(p, Play(n), rest);
  }

  lemma RunUnderrun(p: Player, n: nat)
    ensures RunFrom(p, [Underrun(n)]) == Step(p, Underrun(n))
  {
    assert [Underrun(n)] + [] == [Underrun(n)];
    RunFromMore(p, Underrun(n), []);
  }

  lemma NothingAsked(p: Player)
    requires Below(p.queue, |p.written|)
    ensures Answered(p, p, 0)
  {
    assert Answer(Waiting(p), 0) == [] && p.output + [] == p.output;
  }

  /**
   One request that no writer interrupts is a sequence of the callback's events: from every state
   there are such events after which the output has exactly the samples that were waiting, in order,
   and silence only for what they do not cover, and the rest is still waiting.
   */
  lemma {:induction false} RequestIsEvents(p: Player, needed: nat) returns (events: seq<Event>)
    requires Below(p.queue, |p.written|)
    ensures forall i :: 0 <= i < |events| ==> ByCallback(events[i])
    ensures Answered(p, RunFrom(p, events), needed)
    decreases needed + |p.queue|
  {
    if needed == 0 {
      events := [];
      NothingAsked(p);
    } else if p.leftover == [] && p.queue == [] {
      events := [Underrun(needed)];
      RunUnderrun(p, needed);
      UnderrunAnswers(p, needed);
    } else if p.leftover == [] {
      var rest := RequestIsEvents(TakeStep(p), needed);
      events := [Take] + rest;
      TakeAnswers(p, RunFrom(TakeStep(p), rest), needed);
      RunTake(p, rest);
    } else {
      var n := Min(|p.leftover|, needed);
      var rest := RequestIsEvents(PlayStep(p, n), needed - n);
      events := [Play(n)] + rest;
      PlayAnswers(p, n, RunFrom(PlayStep(p, n), rest), needed);
      RunPlay(p, n, rest);
    }
  }

  function Min(a: nat, b: nat): nat {
    if a < b then a else b
  }

  lemma Regroup(a: seq<Output>, b: seq<Output>, c: seq<Output>)
    ensures (a + b) + c == a + (b + c)
  {
  }

  // ---------- A request while the writer works ----------

  /**
   A request under way: how many samples are still to be filled in, which ones have been played for
   it, how much silence it got, and in how many rounds of the fill loop it took an empty chunk.
   */
  datatype Filling = Filling(player: Player, left: nat, played: seq<Sample>, silent: nat, empties: nat)

  /** One round of the loop; the queue is all that it shares with the writer, and it looks there once. */
  datatype Act = Write(event: Event) | Round

  predicate ByWriter(e: Event) {
    e.Offer? || e.DropOldest? || e.Retry?
  }

  function Ready(p: Player): Player {
    if p.leftover == [] then Step(p, Take) else p
  }

  function RoundStep(f: Filling): Filling {
    if f.left == 0 then f
    else if f.player.leftover == [] && f.player.queue == [] then
      f.(player := Step(f.player, Underrun(f.left)), left := 0, silent := f.silent + f.left)
    else
      var p := Ready(f.player);
      var n := Min(|p.leftover|, f.left);
      f.(player := Step(p, Play(n)), left := f.left - n, played := f.played + p.leftover[..n],
         empties := f.empties + if p.leftover == [] then 1 else 0)
  }

  function ActStep(f: Filling, a: Act): Filling {
    match a
    case Write(e) => if ByWriter(e) then f.(player := Step(f.player, e)) else f
    case Round => RoundStep(f)
  }

  /** A request for some samples from player p on, under any schedule of its rounds and the writer's steps. */
  function Fill(p: Player, needed: nat, schedule: seq<Act>): Filling {
    if schedule == [] then Filling(p, needed, [], 0, 0)
    else ActStep(Fill(p, needed, schedule[..|schedule| - 1]), schedule[|schedule| - 1])
  }

  function RoundsIn(schedule: seq<Act>): nat {
    if schedule == [] then 0
    else RoundsIn(schedule[..|schedule| - 1]) + if schedule[|schedule| - 1].Round? then 1 else 0
  }

  function WritesIn(schedule: seq<Act>): nat {
    if schedule == [] then 0
    else WritesIn(schedule[..|schedule| - 1]) + if schedule[|schedule| - 1].Write? then 1 else 0
  }

  function EmptyOffersIn(schedule: seq<Act>): nat {
    if schedule == [] then 0
    else EmptyOffersIn(schedule[..|schedule| - 1]) + if schedule[|schedule| - 1] == Write(Offer([])) then 1 else 0
  }

  /** How many of these chunks are empty. */
  function EmptyOnes(written: seq<Chunk>, chunks: seq<nat>): nat {
    if chunks == [] then 0
    else
      var last := chunks[|chunks| - 1];
      EmptyOnes(written, chunks[..|chunks| - 1]) + if last < |written| && written[last] == [] then 1 else 0
  }

  /** The empty chunks that are queued or in the writer's hands. */
  function EmptyAhead(p: Player): nat {
    EmptyOnes(p.written, p.queue + WriterChunk(p.writer))
  }

  lemma {:induction false} EmptyOnesAppend(written: seq<Chunk>, a: seq<nat>, b: seq<nat>)
    ensures EmptyOnes(written, a + b) == EmptyOnes(written, a) + EmptyOnes(written, b)
  {
    if b == [] {
      assert a + b == a;
    } else {
      assert (a + b)[..|a + b| - 1] == a + b[..|b| - 1];
      EmptyOnesAppend(written, a, b[..|b| - 1]);
    }
  }

  lemma {:induction false} EmptyOnesKept(written: seq<Chunk>, c: Chunk, chunks: seq<nat>)
    requires Below(chunks, |written|)
    ensures EmptyOnes(written + [c], chunks) == EmptyOnes(written, chunks)
  {
    if chunks != [] {
      EmptyOnesKept(written, c, chunks[..|chunks| - 1]);
    }
  }

  lemma EmptyOnesFirst(written: seq<Chunk>, first: nat, rest: seq<nat>)
    ensures EmptyOnes(written, [first] + rest)
         == EmptyOnes(written, rest) + if first < |written| && written[first] == [] then 1 else 0
  {
    EmptyOnesAppend(written, [first], rest);
    assert [first][..0] == [];
  }

  lemma AheadBelow(p: Player)
    requires Inv(p)
    ensures Below(p.queue + WriterChunk(p.writer), |p.written|)
  {
    var ahead := p.queue + WriterChunk(p.writer);
    forall i | 0 <= i < |ahead|
      ensures ahead[i] < |p.written|
    {
      assert ahead[i] == Line(p)[|p.taken| + i];
    }
  }

  /** Only the offer of an empty chunk adds to the empty chunks ahead, and by one. */
  lemma WriteAhead(p: Player, e: Event)
    requires Inv(p) && ByWriter(e)
    ensures EmptyAhead(Step(p, e)) <= EmptyAhead(p) + if e == Offer([]) then 1 else 0
    ensures |Step(p, e).queue| <= |p.queue| + 1 && Step(p, e).output == p.output
  {
    var t := Step(p, e);
    AheadBelow(p);
    match e
    case Offer(c) =>
      if p.writer.Idle? {
        assert t.queue + WriterChunk(t.writer) == p.queue + [|p.written|] && p.queue + WriterChunk(p.writer) == p.queue;
        EmptyOnesAppend(t.written, p.queue, [|p.written|]);
        EmptyOnesKept(p.written, c, p.queue);
        EmptyOnesFirst(t.written, |p.written|, []);
      }
    case DropOldest =>
      if p.writer.Dropping? && p.queue != [] {
        assert p.queue + WriterChunk(p.writer) == [p.queue[0]] + (t.queue + WriterChunk(t.writer));
        EmptyOnesFirst(p.written, p.queue[0], t.queue + WriterChunk(t.writer));
      }
    case Retry =>
      if p.writer.Retrying? {
        assert t.queue + WriterChunk(t.writer) == p.queue + WriterChunk(p.writer);
      }
  }

  lemma TakeAhead(p: Player)
    requires Inv(p) && p.leftover == [] && p.queue != []
    ensures p.queue[0] < |p.written| && Step(p, Take) == TakeStep(p)
    ensures EmptyAhead(p) == EmptyAhead(TakeStep(p)) + if TakeStep(p).leftover == [] then 1 else 0
  {
    AheadBelow(p);
    assert p.queue[0] == (p.queue + WriterChunk(p.writer))[0];
    var t := TakeStep(p);
    assert p.queue + WriterChunk(p.writer) == [p.queue[0]] + (t.queue + WriterChunk(t.writer));
    EmptyOnesFirst(p.written, p.queue[0], t.queue + WriterChunk(t.writer));
  }

  /** What a request has put out so far, and how many rounds that can have taken. */
  ghost predicate Progress(p: Player, needed: nat, schedule: seq<Act>, f: Filling) {
    && Inv(f.player)
    && f.player.output == p.output + (PlayedAll(f.played) + Silences(f.silent))
    && |f.played| + f.silent + f.left == needed
    && f.empties + EmptyAhead(f.player) <= EmptyAhead(p) + EmptyOffersIn(schedule)
    && (f.left > 0 ==>
          && f.silent == 0
          && RoundsIn(schedule) + f.left <= needed + f.empties
          && RoundsIn(schedule) + f.left + |f.player.queue| <= needed + |p.queue| + WritesIn(schedule))
  }

  lemma PlayedMore(start: seq<Output>, played: seq<Sample>, more: seq<Sample>)
    ensures start + PlayedAll(played) + PlayedAll(more) == start + PlayedAll(played + more)
  {
    assert PlayedAll(played + more) == PlayedAll(played) + PlayedAll(more);
    Regroup(start, PlayedAll(played), PlayedAll(more));
  }

  lemma NoSilence(samples: seq<Sample>)
    ensures PlayedAll(samples) + Silences(0) == PlayedAll(samples)
  {
  }

  lemma RoundOutput(p: Player, f: Filling)
    requires Inv(f.player) && f.left > 0 && f.silent == 0
    requires f.player.output == p.output + (PlayedAll(f.played) + Silences(f.silent))
    ensures var g := RoundStep(f); g.player.output == p.output + (PlayedAll(g.played) + Silences(g.silent))
  {
    NoSilence(f.played);
    if f.player.leftover == [] && f.player.queue == [] {
      Regroup(p.output, PlayedAll(f.played), Silences(f.left));
    } else {
      var ready := Ready(f.player);
      var more := ready.leftover[..Min(|ready.leftover|, f.left)];
      PlayedMore(p.output, f.played, more);
      NoSilence(f.played + more);
    }
  }

  lemma RoundInv(f: Filling)
    requires Inv(f.player)
    ensures Inv(RoundStep(f).player)
  {
    if f.left > 0 {
      StepInv(f.player, Underrun(f.left));
      StepInv(f.player, Take);
      var p := Ready(f.player);
      StepInv(p, Play(Min(|p.leftover|, f.left)));
    }
  }

  /** Filling in the output leaves the queue and the writer alone. */
  lemma OutputAhead(p: Player, n: nat)
    ensures EmptyAhead(Step(p, Play(n))) == EmptyAhead(p) && Step(p, Play(n)).queue == p.queue
    ensures EmptyAhead(Step(p, Underrun(n))) == EmptyAhead(p)
  {
  }

  lemma RoundAhead(f: Filling)
    requires Inv(f.player)
    ensures var g := RoundStep(f);
            && g.empties + EmptyAhead(g.player) <= f.empties + EmptyAhead(f.player)
            && (g.left > 0 ==> g.left + |g.player.queue| < f.left + |f.player.queue|)
            && (g.left > 0 ==> g.left + f.empties < f.left + g.empties)
  {
    if f.left > 0 {
      OutputAhead(f.player, f.left);
      if f.player.leftover == [] && f.player.queue != [] {
        TakeAhead(f.player);
      }
      var p := Ready(f.player);
      OutputAhead(p, Min(|p.leftover|, f.left));
    }
  }

  lemma WriteProgress(p: Player, needed: nat, front: seq<Act>, e: Event, f: Filling)
    requires Progress(p, needed, front, f)
    ensures Progress(p, needed, front + [Write(e)], ActStep(f, Write(e)))
  {
    CountsSnoc(front, Write(e));
    if ByWriter(e) {
      StepInv(f.player, e);
      WriteAhead(f.player, e);
    }
  }

  lemma RoundProgress(p: Player, needed: nat, front: seq<Act>, f: Filling)
    requires Progress(p, needed, front, f)
    ensures Progress(p, needed, front + [Round], RoundStep(f))
  {
    CountsSnoc(front, Round);
    RoundInv(f);
    RoundAhead(f);
    if f.left > 0 {
      RoundOutput(p, f);
    }
  }

  lemma CountsSnoc(front: seq<Act>, a: Act)
    ensures RoundsIn(front + [a]) == RoundsIn(front) + if a.Round? then 1 else 0
    ensures WritesIn(front + [a]) == WritesIn(front) + if a.Write? then 1 else 0
    ensures EmptyOffersIn(front + [a]) == EmptyOffersIn(front) + if a == Write(Offer([])) then 1 else 0
  {
    assert (front + [a])[..|front|] == front;
  }

  lemma FillSnoc(p: Player, needed: nat, front: seq<Act>, a: Act)
    ensures Fill(p, needed, front + [a]) == ActStep(Fill(p, needed, front), a)
  {
    assert (front + [a])[..|front|] == front;
  }

  lemma ActProgress(p: Player, needed: nat, schedule: seq<Act>, f: Filling)
    requires schedule != [] && Progress(p, needed, schedule[..|schedule| - 1], f)
    ensures Progress(p, needed, schedule, ActStep(f, schedule[|schedule| - 1]))
  {
    var front, a := schedule[..|schedule| - 1], schedule[|schedule| - 1];
    assert schedule == front + [a];
    match a
    case Write(e) => WriteProgress(p, needed, front, e, f);
    case Round => RoundProgress(p, needed, front, f);
  }

  lemma StartProgress(p: Player, needed: nat)
    requires Inv(p)
    ensures Progress(p, needed, [], Fill(p, needed, []))
  {
    assert p.output + (PlayedAll([]) + Silences(0)) == p.output;
  }

  lemma {:induction false} FillProgress(p: Player, needed: nat, schedule: seq<Act>)
    requires Inv(p)
    ensures Progress(p, needed, schedule, Fill(p, needed, schedule))
  {
    if schedule == [] {
      StartProgress(p, needed);
    } else {
      FillProgress(p, needed, schedule[..|schedule| - 1]);
      ActProgress(p, needed, schedule, Fill(p, needed, schedule[..|schedule| - 1]));
    }
  }

  /**
   Exactly what one round does: it fills up with silence if and only if nothing is left over and
   nothing is queued; it makes no progress if and only if it finds an empty chunk; otherwise it plays.
   */
  lemma RoundExactly(f: Filling)
    requires Inv(f.player) && f.left > 0
    ensures var p, g := f.player, RoundStep(f);
            && (g.silent > f.silent <==> p.leftover == [] && p.queue == [])
            && (g.silent > f.silent ==> g.left == 0)
            && (g.left == f.left <==>
                  p.leftover == [] && p.queue != [] && p.queue[0] < |p.written| && p.written[p.queue[0]] == [])
            && (g.empties > f.empties <==> g.left == f.left)
  {
    if f.player.leftover == [] && f.player.queue != [] {
      TakeAhead(f.player);
    }
  }

  /**
   Every request, whatever the writer does meanwhile: its output is the samples it played and then,
   if the queue ran dry, silence, which comes only at the end and makes up exactly what was asked
   for; and all that is heard stays in order, in whole chunks but for the end of the last.
   */
  lemma RequestFilled(events: seq<Event>, needed: nat, schedule: seq<Act>)
    ensures var p, f := Run(events), Fill(Run(events), needed, schedule);
            && f.player.output == p.output + (PlayedAll(f.played) + Silences(f.silent))
            && |f.played| + f.silent + f.left == needed && (f.silent > 0 ==> f.left == 0)
            && |f.player.queue| <= 8
            && Increasing(f.player.taken) && Below(f.player.taken, |f.player.written|)
            && Heard(f.player.output) + f.player.leftover == Concat(Chunks(f.player))
  {
    RunInv(events);
    FillProgress(Run(events), needed, schedule);
    TakenInOrder(Fill(Run(events), needed, schedule).player);
  }

  /**
   A request ends, whatever the writer does meanwhile, within as many rounds as it asks for samples
   and there are empty chunks queued or offered; so within as many as samples if there are none. It
   also ends within as many rounds as samples, queued chunks and steps of the writer together.
   */
  lemma RequestEnds(events: seq<Event>, needed: nat, schedule: seq<Act>)
    requires || RoundsIn(schedule) >= needed + EmptyAhead(Run(events)) + EmptyOffersIn(schedule)
             || RoundsIn(schedule) >= needed + |Run(events).queue| + WritesIn(schedule)
    ensures Fill(Run(events), needed, schedule).left == 0
  {
    RunInv(events);
    FillProgress(Run(events), needed, schedule);
  }

  /** A writer that offers an empty chunk before every round. */
  function Stalling(k: nat): seq<Act> {
    if k == 0 then [] else Stalling(k - 1) + [Write(Offer([])), Round]
  }

  predicate Drained(f: Filling, needed: nat) {
    f.left == needed && f.player.leftover == [] && f.player.queue == [] && f.player.writer.Idle?
  }

  lemma StallOnce(f: Filling, needed: nat)
    requires Drained(f, needed) && needed > 0
    ensures Drained(ActStep(ActStep(f, Write(Offer([]))), Round), needed)
  {
    var g := ActStep(f, Write(Offer([])));
    assert g.player.queue == [|f.player.written|] && g.player.written[|f.player.written|] == [];
  }

  /** Why empty chunks count: such a writer keeps a request going for any number of rounds. */
  lemma {:induction false} EmptyOffersStall(p: Player, needed: nat, k: nat)
    requires p.leftover == [] && p.queue == [] && p.writer.Idle? && needed > 0
    ensures RoundsIn(Stalling(k)) == k && EmptyOffersIn(Stalling(k)) == k
    ensures Drained(Fill(p, needed, Stalling(k)), needed)
  {
    if k > 0 {
      EmptyOffersStall(p, needed, k - 1);
      var front, offer := Stalling(k - 1), Write(Offer([]));
      assert Stalling(k) == front + [offer] + [Round];
      CountsSnoc(front, offer);
      CountsSnoc(front + [offer], Round);
      FillSnoc(p, needed, front, offer);
      FillSnoc(p, needed, front + [offer], Round);
      StallOnce(Fill(p, needed, front), needed);
    }
  }

  // ---------- The objects ----------

  function Low(s: Sample): Byte {
    s % 256
  }

  function High(s: Sample): Byte {
    (s / 256) % 256
  }

  /** The two bytes, low one first, are the signed sample. */
  lemma BytesBack(s: Sample)
    ensures var n := Low(s) + 256 * High(s); s == if n >= 32768 then n - 65536 else n
  {
  }

  /** The buffer's i-th sample. */
  predicate SampleAt(out: array<Byte>, i: nat, s: Sample)
    reads out
  {
    2 * i + 1 < out.Length && out[2 * i] == Low(s) && out[2 * i + 1] == High(s)
  }

  class PlayerObject {
    var pcm: seq<Chunk>
    var leftover: seq<Sample>
    var closed: bool

    ghost function Pending(): seq<Sample>
      reads this
    {
      leftover + Concat(pcm)
    }

    constructor ()
      ensures pcm == [] && leftover == [] && !closed
    {
      pcm, leftover, closed := [], [], false;
    }

    /** Queues a decoded chunk, dropping the oldest one if there is no room; a closed player takes nothing. */
    method WriteOpus(chunk: Chunk)
      requires |pcm| <= QUEUE_SIZE
      modifies this
      ensures |pcm| <= 8 && leftover == old(leftover) && closed == old(closed)
      ensures pcm == if closed then old(pcm)
                     else if |old(pcm)| < 8 then old(pcm) + [chunk]
                     else old(pcm)[1..] + [chunk]
    {
      if closed {
        return;
      }
      if |pcm| < QUEUE_SIZE {
        pcm := pcm + [chunk];
        return;
      }
      if |pcm| > 0 {
        pcm := pcm[1..];
      }
      if |pcm| < QUEUE_SIZE {
        pcm := pcm + [chunk];
      }
    }

    /**
     Fills the buffer. `seen` is what the writer makes of the queue while the request goes on: what
     the callback finds there in its first rounds, until the writer rests; it may be anything. The
     samples come, in order, from what was left over and the chunks that were taken, and stop only
     when nothing is left over and the queue is empty; then every other byte is zero. Otherwise the
     bytes after them are not touched. If the writer does nothing, this is exactly what a request
     of that many samples puts out.
     */
    method OnAudioRequest(out: array<Byte>, frames: nat, seen: seq<seq<Chunk>>)
        returns (ghost taken: seq<Chunk>, ghost played: nat)
      requires out.Length >= 2 * frames * CHANNELS
      modifies this, out
      ensures var source, needed := old(leftover) + Concat(taken), frames * CHANNELS;
              && played <= needed && played <= |source| && leftover == source[played..]
              && (forall i :: 0 <= i < played ==> SampleAt(out, i, source[i]))
              && (played < needed ==> leftover == [] && pcm == [])
              && (forall i :: 2 * played <= i < out.Length ==> out[i] == if played < needed then 0 else old(out[i]))
      ensures var all, needed := old(Pending()), frames * CHANNELS;
              seen == [] ==>
                && Pending() == Unplayed(all, needed) && |Answer(all, needed)| == needed
                && (forall i :: 0 <= i < needed ==> OutputAt(out, i, Answer(all, needed)[i]))
                && (forall i :: 2 * needed <= i < out.Length ==> out[i] == if |all| < needed then 0 else old(out[i]))
      ensures closed == old(closed)
    {
      ghost var source;
      taken, played, source := FillBuffer(out, frames * CHANNELS, seen);
      if seen == [] {
        WholeAnswer(old(leftover), taken, pcm, source, frames * CHANNELS, played);
        AnswerInBytes(out, old(Pending()), source, frames * CHANNELS, played);
      }
    }

    /** The loop; `source` is what was left over and all that was taken. */
    method FillBuffer(out: array<Byte>, needed: nat, seen: seq<seq<Chunk>>)
        returns (ghost taken: seq<Chunk>, ghost played: nat, ghost source: seq<Sample>)
      requires out.Length >= 2 * needed
      modifies this, out
      ensures source == old(leftover) + Concat(taken)
      ensures played <= needed && played <= |source| && leftover == source[played..]
      ensures forall i :: 0 <= i < played ==> SampleAt(out, i, source[i])
      ensures played < needed ==> leftover == [] && pcm == []
      ensures forall i :: 2 * played <= i < out.Length ==> out[i] == if played < needed then 0 else old(out[i])
      ensures seen == [] ==> taken + pcm == old(pcm)
      ensures closed == old(closed)
    {
      taken, source := [], leftover;
      assert old(leftover) + Concat([]) == source;
      var index, round := 0, 0;
      while index < needed
        invariant 0 <= index <= needed && 0 <= round <= |seen| && closed == old(closed)
        invariant source == old(leftover) + Concat(taken) && index <= |source| && leftover == source[index..]
        invariant seen == [] ==> taken + pcm == old(pcm)
        invariant forall i :: 0 <= i < index ==> SampleAt(out, i, source[i])
        invariant forall i :: 2 * index <= i < out.Length ==> out[i] == old(out[i])
        decreases |seen| - round, needed - index, |pcm|
      {
        if round < |seen| {
          pcm, round := seen[round], round + 1;
        }
        if leftover == [] {
          if pcm == [] {
            FillSilence(out, 2 * index);
            played := index;
            return;
          }
          TakeOne(old(leftover), taken, pcm[0]);
          Longer(out, source, pcm[0], index);
          taken, source := taken + [pcm[0]], source + pcm[0];
          leftover, pcm := pcm[0], pcm[1..];
        }
        index := CopyRound(out, index, needed, source);
      }
      played := index;
    }

    /** Copies as much as is left over and asked for. */
    method CopyRound(out: array<Byte>, index: nat, needed: nat, ghost source: seq<Sample>) returns (next: nat)
      requires index < needed && 2 * needed <= out.Length && index <= |source| && leftover == source[index..]
      requires forall i :: 0 <= i < index ==> SampleAt(out, i, source[i])
      modifies this`leftover, out
      ensures next == index + Min(|old(leftover)|, needed - index)
      ensures next <= |source| && leftover == source[next..]
      ensures forall i :: 0 <= i < next ==> SampleAt(out, i, source[i])
      ensures forall i :: 2 * next <= i < out.Length ==> out[i] == old(out[i])
    {
      var take := if needed - index > |leftover| then |leftover| else needed - index;
      Slice(source, index, take);
      CopySamples(out, index, leftover[..take]);
      leftover := leftover[take..];
      next := index + take;
    }
  }

  predicate OutputAt(out: array<Byte>, i: nat, o: Output)
    reads out
  {
    match o
    case Played(s) => SampleAt(out, i, s)
    case Silence => 2 * i + 1 < out.Length && out[2 * i] == 0 && out[2 * i + 1] == 0
  }

  lemma {:induction false} ConcatAppend(a: seq<Chunk>, b: seq<Chunk>)
    ensures Concat(a + b) == Concat(a) + Concat(b)
  {
    if b == [] {
      assert a + b == a;
    } else {
      var front, last := b[..|b| - 1], b[|b| - 1];
      assert a + b == (a + front) + [last];
      ConcatSnoc(a + front, last);
      ConcatAppend(a, front);
      Reassociate(Concat(a), Concat(front), last);
    }
  }

  lemma Longer(out: array<Byte>, source: seq<Sample>, c: Chunk, index: nat)
    requires index == |source| && forall i :: 0 <= i < index ==> SampleAt(out, i, source[i])
    ensures (source + c)[index..] == c && forall i :: 0 <= i < index ==> SampleAt(out, i, (source + c)[i])
  {
  }

  lemma Slice(source: seq<Sample>, index: nat, take: nat)
    requires index + take <= |source|
    ensures source[index..][take..] == source[index + take..]
    ensures forall i :: index <= i < index + take ==> source[i] == source[index..][..take][i - index]
  {
  }

  lemma TakeOne(start: seq<Sample>, taken: seq<Chunk>, c: Chunk)
    ensures start + Concat(taken + [c]) == start + Concat(taken) + c
  {
    ConcatSnoc(taken, c);
    Reassociate(start, Concat(taken), c);
  }

  /** A request that nobody disturbed, seen from its end. */
  lemma WholeAnswer(
      start: seq<Sample>, taken: seq<Chunk>, rest: seq<Chunk>, source: seq<Sample>, needed: nat, played: nat)
    requires source == start + Concat(taken) && played <= |source| && played <= needed
    requires played < needed ==> played == |source| && rest == []
    ensures var all := start + Concat(taken + rest);
            && source[played..] + Concat(rest) == Unplayed(all, needed)
            && (played < needed <==> |all| < needed) && (played < needed ==> played == |all|)
            && source <= all
  {
    var all := start + Concat(taken + rest);
    ConcatAppend(taken, rest);
    Reassociate(start, Concat(taken), Concat(rest));
    assert all == source + Concat(rest);
    if played == needed {
      assert all[needed..] == source[needed..] + Concat(rest);
    }
  }

  lemma AnswerInBytes(out: array<Byte>, all: seq<Sample>, source: seq<Sample>, needed: nat, played: nat)
    requires source <= all && played <= |source| && played <= needed && 2 * needed <= out.Length
    requires forall i :: 0 <= i < played ==> SampleAt(out, i, source[i])
    requires played < needed ==> played == |all| && forall i :: 2 * played <= i < out.Length ==> out[i] == 0
    ensures |Answer(all, needed)| == needed
    ensures forall i :: 0 <= i < needed ==> OutputAt(out, i, Answer(all, needed)[i])
  {
    AnswerAt(all, needed);
  }

  lemma AnswerAt(all: seq<Sample>, needed: nat)
    ensures |Answer(all, needed)| == needed
    ensures forall i :: 0 <= i < needed ==> Answer(all, needed)[i] == if i < |all| then Played(all[i]) else Silence
  {
  }

  /** Zeroes the buffer from the given byte on. */
  method FillSilence(out: array<Byte>, start: nat)
    requires start <= out.Length
    modifies out
    ensures forall i :: 0 <= i < out.Length ==> out[i] == if i < start then old(out[i]) else 0
  {
    for i := start to out.Length
      invariant forall j :: 0 <= j < out.Length ==> out[j] == if start <= j < i then 0 else old(out[j])
    {
      out[i] := 0;
    }
  }

  /** Writes samples from the given position on, two bytes each. */
  method CopySamples(out: array<Byte>, index: nat, samples: seq<Sample>)
    requires 2 * (index + |samples|) <= out.Length
    modifies out
    ensures forall i :: 0 <= i < |samples| ==> SampleAt(out, index + i, samples[i])
    ensures forall i: nat, s :: i < index && old(SampleAt(out, i, s)) ==> SampleAt(out, i, s)
    ensures forall i :: 0 <= i < 2 * index || 2 * (index + |samples|) <= i < out.Length ==> out[i] == old(out[i])
  {
    for i := 0 to |samples|
      invariant forall j :: 0 <= j < i ==> SampleAt(out, index + j, samples[j])
      invariant forall j :: 0 <= j < 2 * index || 2 * (index + i) <= j < out.Length ==> out[j] == old(out[j])
    {
      var byteIndex := (index + i) * 2;
      out[byteIndex] := Low(samples[i]);
      out[byteIndex + 1] := High(samples[i]);
    }
  }
}
