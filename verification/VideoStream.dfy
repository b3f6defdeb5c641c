/**
 The video stream as a whole: a sender that encodes, tags and broadcasts; a channel that may lose,
 reorder and duplicate; and a receiver that filters on the tag and decodes. An event sequence is
 one run; every delivery of a frame already sent is allowed at any time.
 */
module VideoStream {
  import opened Wrappers
  import opened Text
  import opened Frames
  import opened DeltaCodec
  import opened FrameTag
  import ReplayFilter

  // ---------- The "Camera off" frame ----------

  function Printable(message: string, limit: nat): (p: string)
    ensures |p| <= limit && forall i :: 0 <= i < |p| ==> 32 <= p[i] as int <= 126
  {
    if message == "" || limit == 0 then ""
    else if 32 <= message[0] as int <= 126 then [message[0]] + Printable(message[1..], limit - 1)
    else Printable(message[1..], limit)
  }

  const BLANK := Cell(32, -1, -1)

  predicate IsCaption(c: string) {
    0 < |c| <= 40 && forall i :: 0 <= i < |c| ==> 32 <= c[i] as int <= 126
  }

  function Caption(message: string): (c: string)
    ensures IsCaption(c)
  {
    var printable := Printable(message, 40);
    if printable == "" then "Unavailable" else printable
  }

  /** StatusFrame's grid: three rows with the printable part of the message centred in the middle one. */
  function StatusGrid(message: string): Grid {
    Framed(Caption(message))
  }

  function Framed(caption: string): Grid
    requires IsCaption(caption)
  {
    var width := if |caption| + 4 < 16 then 16 else |caption| + 4;
    var start := (width - |caption|) / 2;
    var blank := seq(width, _ => BLANK);
    var middle := seq(width, x requires 0 <= x < width =>
                        if start <= x < start + |caption| then Cell(caption[x - start] as int, -1, -1) else BLANK);
    [blank, middle, blank]
  }

  /** A status frame is a legal ASCII grid for every message, so its text is a keyframe that decodes. */
  lemma StatusGridLegal(message: string)
    ensures LegalGrid(StatusGrid(message), MODE_ASCII)
  {
  }

  lemma {:induction false} PrintableAll(message: string, limit: nat)
    requires |message| <= limit && forall i :: 0 <= i < |message| ==> 32 <= message[i] as int <= 126
    ensures Printable(message, limit) == message
  {
    if message != "" {
      PrintableAll(message[1..], limit - 1);
    }
  }

  /**
   The status grid of a printable message of at most 40 characters: three rows, the message centred
   in the middle one, with a margin and at least 16 columns, all in default colours.
   */
  lemma StatusGridExactly(message: string, y: nat, x: nat)
    requires IsCaption(message)
    requires y < 3 && x < if |message| < 12 then 16 else |message| + 4
    ensures var g, n := StatusGrid(message), |message|;
            var w := if n < 12 then 16 else n + 4;
            && |g| == 3 && |g[y]| == w
            && g[y][x] == if y == 1 && (w - n) / 2 <= x < (w - n) / 2 + n
                          then Cell(message[x - (w - n) / 2] as int, -1, -1) else Cell(32, -1, -1)
  {
    PrintableAll(message, 40);
    FramedExactly(message, y, x);
  }

  lemma FramedExactly(caption: string, y: nat, x: nat)
    requires IsCaption(caption) && y < 3 && x < if |caption| < 12 then 16 else |caption| + 4
    ensures var g, n := Framed(caption), |caption|;
            var w := if n < 12 then 16 else n + 4;
            && |g| == 3 && |g[y]| == w
            && g[y][x] == if y == 1 && (w - n) / 2 <= x < (w - n) / 2 + n
                          then Cell(caption[x - (w - n) / 2] as int, -1, -1) else Cell(32, -1, -1)
  {
  }

  function StatusText(message: string): string {
    KeyframeText(StatusGrid(message), MODE_ASCII)
  }

  // ---------- States and steps ----------

  /**
   What a sent frame carries. `base` is the index of the frame that a delta was taken against and
   `age` counts the deltas since the last keyframe; a keyframe has no base and age 0.
   */
  datatype Content =
    | Video(grid: Grid, mode: int, base: Option<nat>, age: nat)
    | Status

  datatype Frame = Frame(text: string, content: Content)
  type Log = seq<Frame>

  /** `log[i]` is broadcast with tag i + 1; `source` is the log index of the encoder's previous frame. */
  datatype Sender = Sender(encoder: EncoderState, source: Option<nat>, log: Log)

  /** `passed` and `decoded` record the log indices that got past the filter and past the decoder. */
  datatype Receiver = Receiver(
    lastSeq: nat, decoder: DecoderState, shown: Option<(Grid, int)>,
    passed: seq<nat>, decoded: seq<nat>, keyAt: nat)

  /** `off` is the text that both ends use to say that the camera is off. */
  datatype State = State(sender: Sender, receiver: Receiver, off: string)

  datatype Event = Capture(cells: Grid) | Reset | SetMode(mode: int) | CameraOff | Deliver(index: nat)

  function Start(mode: int, interval: int, off: string): State {
    State(Sender(FreshEncoder(mode, interval), None, []), Receiver(0, FRESH_DECODER, None, [], [], 0), off)
  }

  predicate IsVideo(log: Log, i: int) {
    0 <= i < |log| && log[i].content.Video?
  }

  predicate IsKey(log: Log, i: int) {
    IsVideo(log, i) && log[i].content.base.None?
  }

  function Broadcast(s: Sender, f: Frame): Sender {
    if |f.text| == 0 || |f.text| > MAX_ENCODED_FRAME_BYTES then s else s.(log := s.log + [f])
  }

  function SendCells(s: Sender, cells: Grid): Sender
    requires ValidEncoder(s.encoder)
  {
    var (encoder, text) := EncodeStep(s.encoder, cells);
    if text == "" then s
    else
      var base := if NeedsKeyframe(s.encoder, cells) then None else s.source;
      Broadcast(s.(encoder := encoder, source := Some(|s.log|)),
                Frame(text, Video(cells, encoder.mode, base, encoder.frameCount)))
  }

  function Forget(s: Sender, mode: int): Sender {
    s.(encoder := ResetEncoder(s.encoder.(mode := mode)), source := None)
  }

  /** What the receiver makes of frame `index` once its tag is off and the filter let it pass. */
  function Accept(r: Receiver, index: nat, text: string, off: string): Receiver
    requires ValidDecoder(r.decoder)
  {
    var r := r.(lastSeq := index + 1, passed := r.passed + [index]);
    if text == off then r.(shown := None)
    else match Decode(r.decoder, text)
      case Err(_) => r
      case Ok(d) =>
        r.(decoder := d, shown := Some((d.grid, d.mode)), decoded := r.decoded + [index],
           keyAt := if IsKeyframe(text) then index else r.keyAt)
  }

  /** The data channel's message handler followed by the call screen's. */
  function Receive(r: Receiver, raw: string, off: string): Receiver
    requires ValidDecoder(r.decoder)
  {
    Filter(r, ParseTag(raw), off)
  }

  function Filter(r: Receiver, parsed: Option<(nat, string)>, off: string): Receiver
    requires ValidDecoder(r.decoder)
  {
    match parsed
    case None => r
    case Some((sequence, frame)) =>
      if sequence <= r.lastSeq then r else Accept(r, sequence - 1, frame, off)
  }

  lemma ReceiveKeepsValid(r: Receiver, raw: string, off: string)
    requires ValidDecoder(r.decoder)
    ensures ValidDecoder(Receive(r, raw, off).decoder)
  {
    if ParseTag(raw).Some? {
      DecodeKeepsValid(r.decoder, ParseTag(raw).value.1);
    }
  }

  predicate Running(s: State) {
    ValidEncoder(s.sender.encoder) && ValidDecoder(s.receiver.decoder)
  }

  function Step(s: State, e: Event): (r: State)
    requires Running(s)
    ensures Running(r)
  {
    match e
    case Capture(cells) => s.(sender := SendCells(s.sender, cells))
    case Reset => s.(sender := Forget(s.sender, s.sender.encoder.mode))
    case SetMode(mode) => s.(sender := Forget(s.sender, mode))
    case CameraOff => s.(sender := Broadcast(Forget(s.sender, s.sender.encoder.mode), Frame(s.off, Status)))
    case Deliver(i) => if i >= |s.sender.log| then s else DeliverStep(s, i)
  }

  function DeliverStep(s: State, i: nat): (r: State)
    requires Running(s) && i < |s.sender.log|
    ensures Running(r)
  {
    var raw := Tag(i + 1, s.sender.log[i].text);
    ReceiveKeepsValid(s.receiver, raw, s.off);
    s.(receiver := Receive(s.receiver, raw, s.off))
  }

  // ---------- Handlers at the same time ----------

  lemma FilterKeepsValid(r: Receiver, parsed: Option<(nat, string)>, off: string)
    requires ValidDecoder(r.decoder)
    ensures ValidDecoder(Filter(r, parsed, off).decoder)
  {
    if parsed.Some? {
      DecodeKeepsValid(r.decoder, parsed.value.1);
    }
  }

  /** The receiver after these calls of the filter, one at a time; `frame` is what each caller brings. */
  function Feed(r: Receiver, history: seq<ReplayFilter.Op>, frame: nat -> string, off: string): (next: Receiver)
    requires ValidDecoder(r.decoder)
    ensures ValidDecoder(next.decoder)
  {
    if history == [] then r
    else
      var op := history[|history| - 1];
      var before := Feed(r, history[..|history| - 1], frame, off);
      var parsed := Some((op.sequence, frame(op.caller)));
      FilterKeepsValid(before, parsed, off);
      Filter(before, parsed, off)
  }

  /** The log indices that a history accepted. */
  function Accepted(history: seq<ReplayFilter.Op>): seq<nat> {
    if history == [] then []
    else
      var op := history[|history| - 1];
      Accepted(history[..|history| - 1]) + if op.accepted && op.sequence > 0 then [op.sequence - 1] else []
  }

  lemma {:induction false} FeedSequential(r: Receiver, history: seq<ReplayFilter.Op>, frame: nat -> string, off: string)
    requires ValidDecoder(r.decoder) && r.lastSeq == 0 && ReplayFilter.Sequential(history)
    ensures var next := Feed(r, history, frame, off);
            next.lastSeq == ReplayFilter.Highest(history) && next.passed == r.passed + Accepted(history)
  {
    if history == [] {
      assert r.passed + [] == r.passed;
    } else {
      var n := |history| - 1;
      FeedSequential(r, history[..n], frame, off);
      FeedOne(Feed(r, history[..n], frame, off), history[n], frame(history[n].caller), off);
      var op := history[n];
      Reassociate(r.passed, Accepted(history[..n]), if op.accepted then [op.sequence - 1] else []);
    }
  }

  lemma Reassociate(a: seq<nat>, b: seq<nat>, c: seq<nat>)
    ensures (a + b) + c == a + (b + c)
  {
  }

  lemma FeedOne(r: Receiver, op: ReplayFilter.Op, frame: string, off: string)
    requires ValidDecoder(r.decoder) && (op.accepted <==> op.sequence > r.lastSeq)
    ensures var next := Filter(r, Some((op.sequence, frame)), off);
            && next.lastSeq == (if op.accepted then op.sequence else r.lastSeq)
            && next.passed == r.passed + if op.accepted then [op.sequence - 1] else []
  {
  }

  /**
   Message handlers that race on the filter, in any interleaving of their atomic accesses, let
   through exactly the frames, and leave exactly the last tag, that this model's filter would with
   the calls made one after the other in the order in which they took effect.
   */
  lemma RacingHandlers(sequences: seq<nat>, schedule: seq<nat>, r: Receiver, frame: nat -> string, off: string)
    requires ValidDecoder(r.decoder) && r.lastSeq == 0
    ensures var s := ReplayFilter.Run(ReplayFilter.Start(sequences), schedule);
            var next := Feed(r, s.history, frame, off);
            next.lastSeq == s.last && next.passed == r.passed + Accepted(s.history)
  {
    ReplayFilter.RunInv(sequences, schedule);
    FeedSequential(r, ReplayFilter.Run(ReplayFilter.Start(sequences), schedule).history, frame, off);
  }

  // ---------- What every step keeps ----------

  /** A delta against frame b, which is the video frame just before it. */
  ghost predicate GoodDelta(log: Log, i: int, b: int)
    requires IsVideo(log, i)
  {
    var Video(grid, mode, _, age) := log[i].content;
    && b < i && IsVideo(log, b) && age == log[b].content.age + 1
    && log[b].content.mode == mode && LegalGrid(log[b].content.grid, mode)
    && SameShape(log[b].content.grid, grid) && |grid| > 0
    && (forall j :: b < j < i ==> !IsVideo(log, j))
    && var changes := GridChanges(log[b].content.grid, grid, |grid|);
       |changes| <= |grid[0]| * |grid| / 2 && log[i].text == DeltaText(|grid[0]|, |grid|, changes)
  }

  /** A log entry prints its grid, as a keyframe or as the delta from the video frame just before it. */
  ghost predicate GoodEntry(log: Log, i: int, interval: int, off: string)
    requires 0 <= i < |log|
  {
    match log[i].content
    case Status => log[i].text == off
    case Video(grid, mode, base, age) =>
      && LegalGrid(grid, mode)
      && age < interval
      && match base
         case None => log[i].text == KeyframeText(grid, mode) && age == 0
         case Some(b) => GoodDelta(log, i, b)
  }

  ghost predicate GoodLog(log: Log, interval: int, off: string) {
    forall i :: 0 <= i < |log| ==> GoodEntry(log, i, interval, off)
  }

  /** The encoder's previous grid is that of the last video frame in the log. */
  ghost predicate Sourced(s: Sender) {
    match s.source
    case None => s.encoder.prev.None?
    case Some(b) =>
      && IsVideo(s.log, b)
      && s.encoder.prev == Some(s.log[b].content.grid)
      && s.log[b].content.mode == s.encoder.mode
      && s.log[b].content.age == s.encoder.frameCount
      && forall j :: b < j < |s.log| ==> !IsVideo(s.log, j)
  }

  ghost predicate ValidSender(s: Sender, off: string) {
    ValidEncoder(s.encoder) && Sourced(s) && GoodLog(s.log, s.encoder.keyframeEvery, off)
  }

  /** Filtered indices strictly increase and stay below the filter's last tag. */
  ghost predicate Filtered(r: Receiver, sent: nat) {
    && r.lastSeq <= sent
    && (forall i, j :: 0 <= i < j < |r.passed| ==> r.passed[i] < r.passed[j])
    && (forall j :: j in r.passed ==> j < r.lastSeq) && (r.lastSeq > 0 ==> r.lastSeq - 1 in r.passed)
  }

  /** From keyframe k on, every video frame up to n got past the filter, and n is the last one that did. */
  ghost predicate Through(log: Log, passed: seq<nat>, k: int, n: int) {
    && IsKey(log, k) && IsVideo(log, n) && k <= n
    && (forall j :: k <= j <= n && IsVideo(log, j) ==> j in passed)
    && (forall j :: j in passed && j > n ==> !IsVideo(log, j))
  }

  /** The same, and none of these frames reads like the status frame. */
  ghost predicate Caught(log: Log, passed: seq<nat>, off: string, k: int, n: int) {
    && IsKey(log, k) && IsVideo(log, n) && k <= n
    && (forall j :: k <= j <= n && IsVideo(log, j) ==> j in passed && log[j].text != off)
    && (forall j :: j in passed && j > n ==> !IsVideo(log, j))
  }

  ghost predicate InSync(log: Log, r: Receiver, off: string) {
    forall k, n :: Caught(log, r.passed, off, k, n) ==>
      r.decoder == Holding(log[n].content.grid, log[n].content.mode) && n in r.decoded
  }

  /** A frame was decoded and no status text has passed since. */
  ghost predicate OnScreen(log: Log, r: Receiver, off: string) {
    exists i :: i in r.decoded && NotClearedSince(log, r.passed, off, i)
  }

  ghost predicate NotClearedSince(log: Log, passed: seq<nat>, off: string, i: nat) {
    forall j :: j in passed && i < j < |log| ==> log[j].text != off
  }

  /** What is shown is what the decoder holds, from a decoded frame on until the next status text. */
  ghost predicate ShownOk(log: Log, r: Receiver, off: string) {
    r.shown == if OnScreen(log, r, off) then Some((r.decoder.grid, r.decoder.mode)) else None
  }

  /** Cell (y, x) is the cell of frame i, which was decoded at or after the last decoded keyframe. */
  ghost predicate From(log: Log, r: Receiver, y: int, x: int, i: nat) {
    var g := r.decoder.grid;
    && i in r.decoded && r.keyAt <= i && IsVideo(log, i)
    && SameShape(log[i].content.grid, g)
    && 0 <= y < |g| && 0 <= x < |g[y]| && log[i].content.grid[y][x] == g[y][x]
  }

  ghost predicate Traced(log: Log, r: Receiver, y: int, x: int) {
    exists i :: From(log, r, y, x, i)
  }

  /** The last decoded keyframe fixes the mode and the size; every cell can be traced to a frame since. */
  ghost predicate Traceable(log: Log, r: Receiver) {
    && (forall i :: i in r.decoded ==> i in r.passed && IsVideo(log, i))
    && (r.decoder.has ==>
          && IsKey(log, r.keyAt) && r.keyAt in r.decoded
          && (forall i :: i in r.decoded && IsKey(log, i) ==> i <= r.keyAt)
          && r.decoder.mode == log[r.keyAt].content.mode
          && SameShape(r.decoder.grid, log[r.keyAt].content.grid)
          && forall y, x {:trigger Traced(log, r, y, x)} ::
               0 <= y < |r.decoder.grid| && 0 <= x < |r.decoder.grid[y]| ==> Traced(log, r, y, x))
  }

  ghost predicate Inv(s: State) {
    && 0 < |s.off| <= MAX_ENCODED_FRAME_BYTES
    && ValidSender(s.sender, s.off)
    && ShownOk(s.sender.log, s.receiver, s.off)
    && ValidDecoder(s.receiver.decoder)
    && Filtered(s.receiver, |s.sender.log|)
    && InSync(s.sender.log, s.receiver, s.off)
    && Traceable(s.sender.log, s.receiver)
  }

  // ---------- Sending keeps it ----------

  /** Appending to the log changes nothing about the entries already in it. */
  lemma GoodLogGrows(log: Log, f: Frame, interval: int, off: string)
    requires GoodLog(log, interval, off)
    requires GoodEntry(log + [f], |log|, interval, off)
    ensures GoodLog(log + [f], interval, off)
  {
    var longer := log + [f];
    forall i | 0 <= i < |log|
      ensures GoodEntry(longer, i, interval, off)
    {
      assert GoodEntry(log, i, interval, off);
      assert forall j :: 0 <= j < |log| ==> (IsVideo(longer, j) <==> IsVideo(log, j));
    }
  }

  lemma SendCellsValid(s: Sender, cells: Grid, off: string)
    requires ValidSender(s, off)
    ensures ValidSender(SendCells(s, cells), off)
    ensures s.log <= SendCells(s, cells).log
  {
    var (encoder, text) := EncodeStep(s.encoder, cells);
    EncodeSize(s.encoder, cells);
    if text != "" {
      var base := if NeedsKeyframe(s.encoder, cells) then None else s.source;
      var f := Frame(text, Video(cells, encoder.mode, base, encoder.frameCount));
      var longer := s.log + [f];
      if base.Some? {
        assert forall j :: 0 <= j < |s.log| ==> (IsVideo(longer, j) <==> IsVideo(s.log, j));
        assert GoodDelta(longer, |s.log|, base.value);
      }
      assert GoodEntry(longer, |s.log|, s.encoder.keyframeEvery, off);
      GoodLogGrows(s.log, f, s.encoder.keyframeEvery, off);
    }
  }

  lemma StatusValid(s: Sender, off: string)
    requires ValidSender(s, off) && s.source.None?
    ensures ValidSender(Broadcast(s, Frame(off, Status)), off)
    ensures s.log <= Broadcast(s, Frame(off, Status)).log
  {
    if 0 < |off| <= MAX_ENCODED_FRAME_BYTES {
      GoodLogGrows(s.log, Frame(off, Status), s.encoder.keyframeEvery, off);
    }
  }

  lemma SyncGrows(log: Log, longer: Log, r: Receiver, off: string)
    requires log <= longer && Filtered(r, |log|) && InSync(log, r, off)
    ensures InSync(longer, r, off)
  {
    forall k, n | Caught(longer, r.passed, off, k, n)
      ensures r.decoder == Holding(longer[n].content.grid, longer[n].content.mode) && n in r.decoded
    {
      assert n in r.passed;
      assert forall j :: 0 <= j < |log| ==> (IsVideo(longer, j) <==> IsVideo(log, j)) && longer[j] == log[j];
      assert Caught(log, r.passed, off, k, n);
    }
  }

  lemma ShownGrows(log: Log, longer: Log, r: Receiver, off: string)
    requires log <= longer && Filtered(r, |log|) && ShownOk(log, r, off)
    ensures ShownOk(longer, r, off)
  {
    forall i
      ensures NotClearedSince(longer, r.passed, off, i) <==> NotClearedSince(log, r.passed, off, i)
    {
      assert forall j :: j in r.passed ==> j < |log| && longer[j] == log[j];
    }
  }

  lemma TraceGrows(log: Log, longer: Log, r: Receiver)
    requires log <= longer && Traceable(log, r)
    ensures Traceable(longer, r)
  {
    assert forall j :: 0 <= j < |log| ==> longer[j] == log[j];
    forall y, x | r.decoder.has && 0 <= y < |r.decoder.grid| && 0 <= x < |r.decoder.grid[y]|
      ensures Traced(longer, r, y, x)
    {
      assert Traced(log, r, y, x);
      var i :| From(log, r, y, x, i);
      assert From(longer, r, y, x, i);
    }
  }

  /** A longer log leaves the receiver's side of the invariant alone. */
  lemma SendingInv(s: State, sender: Sender)
    requires Inv(s) && ValidSender(sender, s.off) && s.sender.log <= sender.log
    ensures Inv(s.(sender := sender))
  {
    SyncGrows(s.sender.log, sender.log, s.receiver, s.off);
    ShownGrows(s.sender.log, sender.log, s.receiver, s.off);
    TraceGrows(s.sender.log, sender.log, s.receiver);
  }

  // ---------- Receiving keeps it ----------

  lemma EntryText(log: Log, i: nat, interval: int, off: string)
    requires i < |log| && GoodEntry(log, i, interval, off) && 0 < |off| <= MAX_ENCODED_FRAME_BYTES
    ensures 0 < |log[i].text| <= MAX_ENCODED_FRAME_BYTES
    ensures IsVideo(log, i) ==> (IsKey(log, i) <==> IsKeyframe(log[i].text))
  {
    if IsKey(log, i) {
      var Video(grid, mode, _, _) := log[i].content;
      KeyframeSize(grid, mode);
      HeaderStart("K", |grid[0]|, |grid|, mode);
    } else if IsVideo(log, i) {
      var Video(grid, mode, base, _) := log[i].content;
      var changes := GridChanges(log[base.value].content.grid, grid, |grid|);
      GridChangesInBounds(log[base.value].content.grid, grid, |grid|, |grid[0]|, mode);
      AreaBound(|grid|, |grid[0]|);
      DeltaSize(|grid[0]|, |grid|, changes, mode);
      HeaderStart("D", |grid[0]|, |grid|, |changes|);
    }
  }

  lemma FilterIsAccept(r: Receiver, i: nat, text: string, off: string)
    requires ValidDecoder(r.decoder)
    ensures i + 1 <= r.lastSeq ==> Filter(r, Some((i + 1, text)), off) == r
    ensures r.lastSeq < i + 1 ==> Filter(r, Some((i + 1, text)), off) == Accept(r, i, text, off)
  {
  }

  /** A delivered frame is accepted unless its tag is not above the filter or does not fit in 64 bits. */
  lemma ReceiveIsAccept(r: Receiver, i: nat, text: string, off: string)
    requires ValidDecoder(r.decoder) && 0 < |text| <= MAX_ENCODED_FRAME_BYTES
    ensures i + 1 <= r.lastSeq || i + 1 > MAX_UINT64 ==> Receive(r, Tag(i + 1, text), off) == r
    ensures r.lastSeq < i + 1 <= MAX_UINT64 ==> Receive(r, Tag(i + 1, text), off) == Accept(r, i, text, off)
  {
    FilterIsAccept(r, i, text, off);
    if i + 1 <= MAX_UINT64 {
      TagRoundTrip(i + 1, text);
      ReceiveParsed(r, Tag(i + 1, text), Some((i + 1, text)), off);
    } else {
      TagOverflow(i + 1, text);
      ReceiveParsed(r, Tag(i + 1, text), None, off);
    }
  }

  lemma ReceiveParsed(r: Receiver, raw: string, parsed: Option<(nat, string)>, off: string)
    requires ValidDecoder(r.decoder) && ParseTag(raw) == parsed
    ensures Receive(r, raw, off) == Filter(r, parsed, off)
  {
  }

  /** Decoding a caught-up delta, or any keyframe, gives the frame's grid. */
  lemma DecodeInSync(log: Log, interval: int, off: string, r: Receiver, i: nat, k: int)
    requires GoodLog(log, interval, off) && ValidDecoder(r.decoder) && Filtered(r, |log|)
    requires InSync(log, r, off)
    requires r.lastSeq <= i && IsVideo(log, i) && Caught(log, r.passed + [i], off, k, i)
    ensures Decode(r.decoder, log[i].text) == Ok(Holding(log[i].content.grid, log[i].content.mode))
  {
    assert GoodEntry(log, i, interval, off);
    var Video(grid, mode, base, age) := log[i].content;
    if base.None? {
      KeyframeRoundTrip(r.decoder, grid, mode);
    } else {
      var b := base.value;
      assert GoodDelta(log, i, b) && k <= b;
      CaughtBefore(log, r, off, i, k, b);
      DeltaRoundTrip(log[b].content.grid, grid, mode);
    }
  }

  lemma CaughtBefore(log: Log, r: Receiver, off: string, i: nat, k: int, b: int)
    requires Filtered(r, |log|) && r.lastSeq <= i && Caught(log, r.passed + [i], off, k, i)
    requires k <= b < i && IsVideo(log, b) && forall j :: b < j < i ==> !IsVideo(log, j)
    ensures Caught(log, r.passed, off, k, b)
  {
  }

  lemma AcceptInSync(log: Log, interval: int, off: string, r: Receiver, i: nat)
    requires GoodLog(log, interval, off) && ValidDecoder(r.decoder) && Filtered(r, |log|)
    requires InSync(log, r, off)
    requires r.lastSeq <= i < |log|
    ensures InSync(log, Accept(r, i, log[i].text, off), off)
  {
    var next := Accept(r, i, log[i].text, off);
    var d, passed := next.decoder, r.passed + [i];
    forall k, n | Caught(log, passed, off, k, n)
      ensures d == Holding(log[n].content.grid, log[n].content.mode) && n in next.decoded
    {
      if n == i {
        DecodeInSync(log, interval, off, r, i, k);
      } else {
        assert n in passed && n < i && i in passed;
        assert GoodEntry(log, i, interval, off) && d == r.decoder;
        forall j | k <= j <= n && IsVideo(log, j)
          ensures j in r.passed
        {
          assert j in passed;
        }
        assert forall j :: j in r.passed ==> j in passed;
        assert Caught(log, r.passed, off, k, n);
      }
    }
  }

  lemma AcceptShown(log: Log, off: string, r: Receiver, i: nat)
    requires ValidDecoder(r.decoder) && Filtered(r, |log|) && r.lastSeq <= i < |log|
    requires ShownOk(log, r, off) && forall j :: j in r.decoded ==> j in r.passed
    ensures ShownOk(log, Accept(r, i, log[i].text, off), off)
  {
    var next := Accept(r, i, log[i].text, off);
    assert next.passed == r.passed + [i];
    assert forall j :: j in next.passed ==> j <= i;
    if log[i].text == off {
      assert i in next.passed;
      assert forall j :: j in next.decoded ==> !NotClearedSince(log, next.passed, off, j);
    } else if Decode(r.decoder, log[i].text).Ok? {
      assert i in next.decoded && NotClearedSince(log, next.passed, off, i);
    } else {
      forall j
        ensures NotClearedSince(log, next.passed, off, j) <==> NotClearedSince(log, r.passed, off, j)
      {
        assert forall k :: k in next.passed <==> k in r.passed || k == i;
      }
    }
  }

  /** Each cell after a decoded frame is the frame's own or one that the decoder held before. */
  lemma DecodedCells(log: Log, interval: int, off: string, d: DecoderState, i: nat)
    requires IsVideo(log, i) && GoodEntry(log, i, interval, off) && ValidDecoder(d)
    requires Decode(d, log[i].text).Ok?
    ensures var d' := Decode(d, log[i].text).value;
            var Video(grid, mode, base, _) := log[i].content;
            if base.None? then d' == Holding(grid, mode)
            else
              && d.has && SameShape(d.grid, grid) && d' == d.(grid := d'.grid) && SameShape(d'.grid, grid)
              && forall y, x :: 0 <= y < |grid| && 0 <= x < |grid[y]| ==>
                   d'.grid[y][x] == d.grid[y][x] || d'.grid[y][x] == grid[y][x]
  {
    var Video(grid, mode, base, age) := log[i].content;
    if base.None? {
      KeyframeRoundTrip(d, grid, mode);
    } else {
      DeltaOnAnyDecoder(d, log[base.value].content.grid, grid, mode);
    }
  }

  lemma AcceptTraceable(log: Log, interval: int, off: string, r: Receiver, i: nat)
    requires r.lastSeq <= i < |log| && Filtered(r, |log|)
    requires GoodEntry(log, i, interval, off) && 0 < |off| <= MAX_ENCODED_FRAME_BYTES
    requires ValidDecoder(r.decoder) && Traceable(log, r)
    ensures Traceable(log, Accept(r, i, log[i].text, off))
  {
    var next := Accept(r, i, log[i].text, off);
    EntryText(log, i, interval, off);
    if log[i].text != off && Decode(r.decoder, log[i].text).Ok? {
      DecodedCells(log, interval, off, r.decoder, i);
      DecodedTraceable(log, r, next, i);
    } else {
      assert next.decoder == r.decoder && next.decoded == r.decoded && next.keyAt == r.keyAt;
      forall y, x | r.decoder.has && 0 <= y < |r.decoder.grid| && 0 <= x < |r.decoder.grid[y]|
        ensures Traced(log, next, y, x)
      {
        assert Traced(log, r, y, x);
        var j :| From(log, r, y, x, j);
        assert From(log, next, y, x, j);
      }
    }
  }

  /** The tracing argument for a decoded frame, free of how it was decoded. */
  lemma DecodedTraceable(log: Log, r: Receiver, next: Receiver, i: nat)
    requires Traceable(log, r) && IsVideo(log, i) && forall j :: j in r.passed ==> j < i
    requires next.passed == r.passed + [i] && next.decoded == r.decoded + [i] && next.decoder.has
    requires var Video(grid, mode, base, _) := log[i].content;
             if base.None? then next.keyAt == i && next.decoder.grid == grid && next.decoder.mode == mode
             else
               && next.keyAt == r.keyAt && r.decoder.has && next.decoder.mode == r.decoder.mode
               && SameShape(r.decoder.grid, grid) && SameShape(next.decoder.grid, grid)
               && forall y, x :: 0 <= y < |grid| && 0 <= x < |grid[y]| ==>
                    next.decoder.grid[y][x] == r.decoder.grid[y][x] || next.decoder.grid[y][x] == grid[y][x]
    ensures Traceable(log, next)
  {
    var g := next.decoder.grid;
    forall y, x | 0 <= y < |g| && 0 <= x < |g[y]|
      ensures Traced(log, next, y, x)
    {
      if g[y][x] == log[i].content.grid[y][x] {
        assert From(log, next, y, x, i);
      } else {
        assert Traced(log, r, y, x);
        var j :| From(log, r, y, x, j);
        assert From(log, next, y, x, j);
      }
    }
  }

  lemma AcceptFiltered(r: Receiver, i: nat, text: string, off: string, sent: nat)
    requires ValidDecoder(r.decoder) && Filtered(r, sent) && r.lastSeq <= i < sent
    ensures Filtered(Accept(r, i, text, off), sent)
  {
    assert forall j :: 0 <= j < |r.passed| ==> r.passed[j] in r.passed;
    assert Accept(r, i, text, off).passed == r.passed + [i];
  }

  lemma ReceivingInv(s: State, i: nat)
    requires Inv(s) && s.receiver.lastSeq <= i < |s.sender.log|
    ensures Inv(s.(receiver := Accept(s.receiver, i, s.sender.log[i].text, s.off)))
  {
    var log, r, interval := s.sender.log, s.receiver, s.sender.encoder.keyframeEvery;
    DecodeKeepsValid(r.decoder, log[i].text);
    AcceptFiltered(r, i, log[i].text, s.off, |log|);
    AcceptInSync(log, interval, s.off, r, i);
    AcceptShown(log, s.off, r, i);
    AcceptTraceable(log, interval, s.off, r, i);
  }

  // ---------- Runs ----------

  lemma DeliverInv(s: State, i: nat)
    requires Inv(s) && i < |s.sender.log|
    ensures Inv(DeliverStep(s, i)) && DeliverStep(s, i).off == s.off
  {
    var text := s.sender.log[i].text;
    EntryText(s.sender.log, i, s.sender.encoder.keyframeEvery, s.off);
    ReceiveIsAccept(s.receiver, i, text, s.off);
    if s.receiver.lastSeq <= i && i + 1 <= MAX_UINT64 {
      ReceivingInv(s, i);
      assert DeliverStep(s, i) == s.(receiver := Accept(s.receiver, i, text, s.off));
    } else {
      assert DeliverStep(s, i) == s;
    }
  }

  lemma CameraOffInv(s: State)
    requires Inv(s)
    ensures Inv(s.(sender := Broadcast(Forget(s.sender, s.sender.encoder.mode), Frame(s.off, Status))))
  {
    var quiet := Forget(s.sender, s.sender.encoder.mode);
    StatusValid(quiet, s.off);
    SendingInv(s, Broadcast(quiet, Frame(s.off, Status)));
  }

  lemma StepInv(s: State, e: Event)
    requires Inv(s)
    ensures Inv(Step(s, e)) && Step(s, e).off == s.off
  {
    match e
    case Capture(cells) =>
      SendCellsValid(s.sender, cells, s.off);
      SendingInv(s, SendCells(s.sender, cells));
    case Reset => SendingInv(s, Forget(s.sender, s.sender.encoder.mode));
    case SetMode(mode) => SendingInv(s, Forget(s.sender, mode));
    case CameraOff => CameraOffInv(s);
    case Deliver(i) =>
      if i < |s.sender.log| {
        DeliverInv(s, i);
      }
  }

  function Run(s: State, events: seq<Event>): (r: State)
    requires Running(s)
    ensures Running(r)
  {
    if events == [] then s else Step(Run(s, events[..|events| - 1]), events[|events| - 1])
  }

  /** The state after a run of the program, in which "Camera off" is announced with the text `off`. */
  function Reach(mode: int, interval: int, off: string, events: seq<Event>): State {
    Run(Start(mode, interval, off), events)
  }

  lemma {:induction false} ReachInv(mode: int, interval: int, off: string, events: seq<Event>)
    requires 0 < |off| <= MAX_ENCODED_FRAME_BYTES
    ensures Inv(Reach(mode, interval, off, events)) && Reach(mode, interval, off, events).off == off
  {
    if events != [] {
      var front := events[..|events| - 1];
      ReachInv(mode, interval, off, front);
      StepInv(Reach(mode, interval, off, front), events[|events| - 1]);
    }
  }

  /**
   End to end, for every run and every schedule of losses, reorderings and duplications: once
   keyframe k and every video frame after it up to n got past the filter, and n is the newest that
   did, the receiver holds exactly the sender's grid and mode of frame n, and shows it unless a
   status frame has passed since.
   */
  lemma EndToEnd(mode: int, interval: int, off: string, events: seq<Event>, k: int, n: int)
    requires 0 < |off| <= MAX_ENCODED_FRAME_BYTES
    requires var s := Reach(mode, interval, off, events);
             Caught(s.sender.log, s.receiver.passed, off, k, n)
    ensures var s := Reach(mode, interval, off, events);
            && s.receiver.decoder == Holding(s.sender.log[n].content.grid, s.sender.log[n].content.mode)
            && ShowsFrame(s, n)
  {
    var s := Reach(mode, interval, off, events);
    ReachInv(mode, interval, off, events);
    assert InSync(s.sender.log, s.receiver, off);
    CaughtIsShown(s, k, n);
  }

  /** Frame n is on the screen, if nothing has passed since; otherwise nothing is. */
  ghost predicate ShowsFrame(s: State, n: nat)
    requires IsVideo(s.sender.log, n)
  {
    s.receiver.shown ==
    if exists j :: j in s.receiver.passed && j > n then None
    else Some((s.sender.log[n].content.grid, s.sender.log[n].content.mode))
  }

  lemma CaughtIsShown(s: State, k: int, n: int)
    requires Inv(s) && Caught(s.sender.log, s.receiver.passed, s.off, k, n)
    ensures ShowsFrame(s, n)
  {
    var log, r := s.sender.log, s.receiver;
    assert n in r.decoded;
    if j :| j in r.passed && j > n {
      assert GoodEntry(log, j, s.sender.encoder.keyframeEvery, s.off) && log[j].text == s.off;
      assert forall i :: i in r.decoded ==> i <= n && !NotClearedSince(log, r.passed, s.off, i);
    } else {
      assert NotClearedSince(log, r.passed, s.off, n);
    }
  }

  /**
   What is shown, for every run and schedule: something if and only if a frame was decoded and no
   status text has passed the filter since, and then the decoder's grid and mode.
   */
  lemma ShownExactly(mode: int, interval: int, off: string, events: seq<Event>)
    requires 0 < |off| <= MAX_ENCODED_FRAME_BYTES
    ensures var s := Reach(mode, interval, off, events);
            && s.receiver.shown == (if OnScreen(s.sender.log, s.receiver, off)
                                    then Some((s.receiver.decoder.grid, s.receiver.decoder.mode)) else None)
            && forall j :: j in s.receiver.passed ==> j < |s.sender.log|
  {
    ReachInv(mode, interval, off, events);
  }

  /**
   Stale but never invented, for every run and schedule: each cell that the receiver holds is the
   sender's cell at that position in some decoded frame no older than the last decoded keyframe.
   */
  lemma NeverInvented(mode: int, interval: int, off: string, events: seq<Event>, y: int, x: int) returns (i: nat)
    requires 0 < |off| <= MAX_ENCODED_FRAME_BYTES
    requires var d := Reach(mode, interval, off, events).receiver.decoder;
             d.has && 0 <= y < |d.grid| && 0 <= x < |d.grid[y]|
    ensures var s := Reach(mode, interval, off, events);
            From(s.sender.log, s.receiver, y, x, i)
    ensures var s := Reach(mode, interval, off, events);
            && IsKey(s.sender.log, s.receiver.keyAt) && s.receiver.keyAt in s.receiver.decoded
            && forall j :: j in s.receiver.decoded && IsKey(s.sender.log, j) ==> j <= s.receiver.keyAt
  {
    var s := Reach(mode, interval, off, events);
    ReachInv(mode, interval, off, events);
    assert Traced(s.sender.log, s.receiver, y, x);
    i :| From(s.sender.log, s.receiver, y, x, i);
  }

  // ---------- Resynchronisation ----------

  /** How many of the frames a .. n - 1 are video. */
  function Videos(log: Log, a: nat, n: nat): nat
    requires a <= n <= |log|
  {
    if a == n then 0 else Videos(log, a, n - 1) + (if IsVideo(log, n - 1) then 1 else 0)
  }

  lemma {:induction false} VideosGap(log: Log, a: nat, b: nat, n: nat)
    requires a <= b <= n <= |log|
    requires forall j :: b <= j < n ==> !IsVideo(log, j)
    ensures Videos(log, a, n) == Videos(log, a, b)
  {
    if b < n {
      VideosGap(log, a, b, n - 1);
    }
  }

  lemma VideosSince(log: Log, a: nat, b: nat, n: nat)
    requires a <= n && b < n && IsVideo(log, n) && IsVideo(log, b) && forall j :: b < j < n ==> !IsVideo(log, j)
    ensures Videos(log, a, n + 1) == if a <= b then Videos(log, a, b + 1) + 1 else 1
  {
    VideosGap(log, a, if a <= b then b + 1 else a, n);
  }

  /** Going back from a video frame, its keyframe comes within its age in video frames. */
  lemma {:induction false} KeyframeBehind(log: Log, interval: int, off: string, a: nat, n: nat) returns (k: nat)
    requires GoodLog(log, interval, off) && a <= n && IsVideo(log, n)
    requires Videos(log, a, n + 1) > log[n].content.age
    ensures a <= k <= n && IsKey(log, k)
    decreases n
  {
    assert GoodEntry(log, n, interval, off);
    match log[n].content.base
    case None => k := n;
    case Some(b) =>
      VideosSince(log, a, b, n);
      k := KeyframeBehind(log, interval, off, a, b);
  }

  /**
   A receiver that loses no video frame from frame a on holds the sender's grid as soon as
   `keyframeEvery` video frames have been sent since a.
   */
  lemma Resynchronises(mode: int, interval: int, off: string, events: seq<Event>, a: nat, n: nat)
    requires 0 < |off| <= MAX_ENCODED_FRAME_BYTES
    requires var log := Reach(mode, interval, off, events).sender.log;
             var passed := Reach(mode, interval, off, events).receiver.passed;
             && a <= n && IsVideo(log, n)
             && Videos(log, a, n + 1) >= Reach(mode, interval, off, events).sender.encoder.keyframeEvery
             && (forall j :: a <= j <= n && IsVideo(log, j) ==> j in passed && log[j].text != off)
             && (forall j :: j in passed && j > n ==> !IsVideo(log, j))
    ensures var s := Reach(mode, interval, off, events);
            s.receiver.decoder == Holding(s.sender.log[n].content.grid, s.sender.log[n].content.mode)
  {
    var s := Reach(mode, interval, off, events);
    var every := s.sender.encoder.keyframeEvery;
    ReachInv(mode, interval, off, events);
    assert GoodEntry(s.sender.log, n, every, off);
    var k := KeyframeBehind(s.sender.log, every, off, a, n);
    assert Caught(s.sender.log, s.receiver.passed, off, k, n);
  }

  // ---------- What gets through ----------

  /**
   In every run, a delivered frame gets past the filter if and only if it is newer than everything
   that has and its tag fits in 64 bits; otherwise the receiver stays as it is.
   */
  lemma PassesExactly(mode: int, interval: int, off: string, events: seq<Event>, i: nat)
    requires 0 < |off| <= MAX_ENCODED_FRAME_BYTES
    requires i < |Reach(mode, interval, off, events).sender.log|
    ensures GetsThrough(Reach(mode, interval, off, events), Reach(mode, interval, off, events + [Deliver(i)]), i)
  {
    assert (events + [Deliver(i)])[..|events|] == events;
    ReachInv(mode, interval, off, events);
    DeliverExactly(Reach(mode, interval, off, events), i);
  }

  ghost predicate GetsThrough(s: State, t: State, i: nat) {
    && t.sender == s.sender
    && if (forall j :: j in s.receiver.passed ==> j < i) && i < 0xFFFF_FFFF_FFFF_FFFF
       then t.receiver.passed == s.receiver.passed + [i]
       else t.receiver == s.receiver
  }

  lemma DeliverExactly(s: State, i: nat)
    requires Inv(s) && i < |s.sender.log|
    ensures GetsThrough(s, Step(s, Deliver(i)), i)
  {
    var text, r := s.sender.log[i].text, s.receiver;
    EntryText(s.sender.log, i, s.sender.encoder.keyframeEvery, s.off);
    ReceiveIsAccept(r, i, text, s.off);
    assert r.lastSeq <= i <==> forall j :: j in r.passed ==> j < i;
    assert Accept(r, i, text, s.off).passed == r.passed + [i];
  }

  // ---------- What is sent ----------

  /**
   Every capture of a legal grid is sent as one video frame of that grid in the encoder's mode,
   stopping the camera as one status frame, and nothing else is sent.
   */
  lemma SentExactly(s: State, e: Event)
    requires Inv(s)
    ensures var log, sent := s.sender.log, Step(s, e).sender.log;
            match e
            case Capture(cells) =>
              if !LegalGrid(cells, s.sender.encoder.mode) then sent == log
              else
                && |sent| == |log| + 1 && sent[..|log|] == log && IsVideo(sent, |log|)
                && sent[|log|].content.grid == cells && sent[|log|].content.mode == s.sender.encoder.mode
            case CameraOff => sent == log + [Frame(s.off, Status)]
            case _ => sent == log
  {
    if e.Capture? {
      EncodeSize(s.sender.encoder, e.cells);
    }
  }

  /** The first video frame after a reset, a mode change or the camera's stop is a keyframe. */
  lemma KeyframeAfterForgetting(s: State, e: Event, cells: Grid)
    requires Inv(s) && (e.Reset? || e.SetMode? || e.CameraOff?)
    requires LegalGrid(cells, if e.SetMode? then e.mode else s.sender.encoder.mode)
    ensures var log := Step(Step(s, e), Capture(cells)).sender.log;
            log != [] && IsKey(log, |log| - 1) && log[|log| - 1].content.grid == cells
  {
    StepInv(s, e);
    FirstIsKey(Step(s, e), cells);
  }

  lemma FirstIsKey(s: State, cells: Grid)
    requires Inv(s) && s.sender.encoder.prev.None? && LegalGrid(cells, s.sender.encoder.mode)
    ensures var log := Step(s, Capture(cells)).sender.log;
            log != [] && IsKey(log, |log| - 1) && log[|log| - 1].content.grid == cells
  {
    SentExactly(s, Capture(cells));
  }

  // ---------- The frame that looks like "Camera off" ----------

  /**
   When `off` is a status frame's text, a video frame is taken for it exactly when it is a keyframe
   of that very status grid in ASCII mode; a frame of any other size never is.
   */
  lemma LooksLikeStatus(log: Log, i: nat, interval: int, message: string)
    requires IsVideo(log, i) && GoodEntry(log, i, interval, StatusText(message))
    ensures log[i].text == StatusText(message) <==>
              IsKey(log, i) && log[i].content.grid == StatusGrid(message) && log[i].content.mode == MODE_ASCII
  {
    var g := StatusGrid(message);
    StatusGridLegal(message);
    KeyframeSize(g, MODE_ASCII);
    EntryText(log, i, interval, StatusText(message));
    HeaderStart("K", |g[0]|, |g|, MODE_ASCII);
    if IsKey(log, i) && log[i].text == StatusText(message) {
      KeyframeTextInjective(log[i].content.grid, log[i].content.mode, g, MODE_ASCII);
    }
  }

  /**
   Video frame i is the grid of one capture of the run, in the mode the encoder had then: the capture
   that came when i frames had been sent.
   */
  lemma {:induction false} SentWasCaptured(mode: int, interval: int, off: string, events: seq<Event>, i: nat)
      returns (e: nat)
    requires IsVideo(Reach(mode, interval, off, events).sender.log, i)
    ensures var sent := Reach(mode, interval, off, events).sender.log[i].content;
            && e < |events| && events[e] == Capture(sent.grid)
            && sent.mode == Reach(mode, interval, off, events[..e]).sender.encoder.mode
            && |Reach(mode, interval, off, events[..e]).sender.log| == i
  {
    var n := |events| - 1;
    var before := Reach(mode, interval, off, events[..n]);
    if i < |before.sender.log| {
      LogGrows(before, events[n]);
      e := SentWasCaptured(mode, interval, off, events[..n], i);
      assert events[..n][..e] == events[..e];
    } else {
      e := n;
      LastWasCaptured(before, events[n], i);
    }
  }

  lemma LogGrows(s: State, e: Event)
    requires Running(s)
    ensures s.sender.log <= Step(s, e).sender.log
  {
  }

  lemma LastWasCaptured(s: State, e: Event, i: nat)
    requires Running(s) && i >= |s.sender.log| && IsVideo(Step(s, e).sender.log, i)
    ensures e == Capture(Step(s, e).sender.log[i].content.grid) && i == |s.sender.log|
    ensures Step(s, e).sender.log[i].content.mode == s.sender.encoder.mode
  {
  }

  /** Nobody captured a picture of the status frame. */
  predicate NoLookalike(events: seq<Event>, message: string) {
    forall e :: 0 <= e < |events| ==> events[e] != Capture(StatusGrid(message))
  }

  lemma NoneReadsLikeStatus(mode: int, interval: int, message: string, events: seq<Event>, i: nat)
    requires NoLookalike(events, message) && IsVideo(Reach(mode, interval, StatusText(message), events).sender.log, i)
    ensures Reach(mode, interval, StatusText(message), events).sender.log[i].text != StatusText(message)
  {
    var off := StatusText(message);
    StatusTextFits(message);
    ReachInv(mode, interval, off, events);
    var s := Reach(mode, interval, off, events);
    assert GoodEntry(s.sender.log, i, s.sender.encoder.keyframeEvery, off);
    LooksLikeStatus(s.sender.log, i, s.sender.encoder.keyframeEvery, message);
    var e := SentWasCaptured(mode, interval, off, events, i);
  }

  lemma StatusTextFits(message: string)
    ensures 0 < |StatusText(message)| <= MAX_ENCODED_FRAME_BYTES
  {
    StatusGridLegal(message);
    KeyframeSize(StatusGrid(message), MODE_ASCII);
  }

  /** End to end for runs in which no captured grid is the status grid: nothing is asked of the text of frames. */
  lemma EndToEndUnlessLookalike(mode: int, interval: int, message: string, events: seq<Event>, k: int, n: int)
    requires NoLookalike(events, message)
    requires var s := Reach(mode, interval, StatusText(message), events);
             Through(s.sender.log, s.receiver.passed, k, n)
    ensures var s := Reach(mode, interval, StatusText(message), events);
            && s.receiver.decoder == Holding(s.sender.log[n].content.grid, s.sender.log[n].content.mode)
            && ShowsFrame(s, n)
  {
    var off := StatusText(message);
    var s := Reach(mode, interval, off, events);
    StatusTextFits(message);
    forall j | k <= j <= n && IsVideo(s.sender.log, j)
      ensures s.sender.log[j].text != off
    {
      NoneReadsLikeStatus(mode, interval, message, events, j);
    }
    assert Caught(s.sender.log, s.receiver.passed, off, k, n);
    EndToEnd(mode, interval, off, events, k, n);
  }

  /** And so for resynchronisation. */
  lemma ResynchronisesUnlessLookalike(mode: int, interval: int, message: string, events: seq<Event>, a: nat, n: nat)
    requires NoLookalike(events, message)
    requires var log := Reach(mode, interval, StatusText(message), events).sender.log;
             var passed := Reach(mode, interval, StatusText(message), events).receiver.passed;
             && a <= n && IsVideo(log, n)
             && Videos(log, a, n + 1) >= Reach(mode, interval, StatusText(message), events).sender.encoder.keyframeEvery
             && (forall j :: a <= j <= n && IsVideo(log, j) ==> j in passed)
             && (forall j :: j in passed && j > n ==> !IsVideo(log, j))
    ensures var s := Reach(mode, interval, StatusText(message), events);
            s.receiver.decoder == Holding(s.sender.log[n].content.grid, s.sender.log[n].content.mode)
  {
    var off := StatusText(message);
    var s := Reach(mode, interval, off, events);
    StatusTextFits(message);
    forall j | a <= j <= n && IsVideo(s.sender.log, j)
      ensures s.sender.log[j].text != off
    {
      NoneReadsLikeStatus(mode, interval, message, events, j);
    }
    Resynchronises(mode, interval, off, events, a, n);
  }

  lemma SkippedOnDelivery(s: State, i: nat, off: string)
    requires Running(s) && s.off == off && s.receiver.lastSeq <= i < MAX_UINT64 && 0 < |off| <= MAX_ENCODED_FRAME_BYTES
    requires i < |s.sender.log| && s.sender.log[i].text == off
    ensures var t := Step(s, Deliver(i));
            && t.sender == s.sender && t.receiver.passed == s.receiver.passed + [i]
            && t.receiver.decoder == s.receiver.decoder
  {
    ReceiveIsAccept(s.receiver, i, off, off);
  }

  /**
   Why captures of the status grid have to be excluded: handed to the encoder, that grid is sent as
   video and passes the filter, but the receiver takes it for the status frame and never decodes it.
   The call itself never captures such a grid; see module Call.
   */
  lemma StatusLookalikeIsSkipped(message: string)
    ensures 0 < |StatusText(message)| <= MAX_ENCODED_FRAME_BYTES
    ensures var s := Reach(MODE_ASCII, 30, StatusText(message), [Capture(StatusGrid(message)), Deliver(0)]);
            IsKey(s.sender.log, 0) && s.receiver.passed == [0] && !s.receiver.decoder.has
  {
    var g, off := StatusGrid(message), StatusText(message);
    StatusGridLegal(message);
    StatusTextFits(message);
    var start := Start(MODE_ASCII, 30, off);
    var events := [Capture(g), Deliver(0)];
    assert events[..1] == [Capture(g)] && events[..1][..0] == [];
    var sent := Step(start, Capture(g));
    assert sent.sender.log == [Frame(off, Video(g, MODE_ASCII, None, 0))];
    SkippedOnDelivery(sent, 0, off);
    assert Run(start, events[..1]) == Step(Run(start, events[..1][..0]), Capture(g)) == sent;
    assert Run(start, events) == Step(sent, Deliver(0));
  }
}
