/**
 The call screen over the renderer and the stream: pictures are rendered at the size of the largest
 frame, stabilised, encoded and broadcast; the renderer is reset when the camera starts or stops,
 and a status frame goes out when it stops. What arrives is decoded unless it reads like that
 status frame.
 */
module Call {
  import opened Wrappers
  import opened Frames
  import opened DeltaCodec
  import opened Renderer
  import V = VideoStream

  /** What happens in a call: on the sender's side, or that a sent frame is delivered. */
  datatype Happening =
    | Picture(image: Image)
    | CameraStarted
    | CameraStopped
    | ModeChanged(mode: int)
    | Delivered(index: nat)

  function NewRenderer(mode: int): RendererState {
    RendererState(mode, None, 1, FreshEncoder(mode, 30))
  }

  /** The picture as the renderer draws it for sending. */
  function Drawn(r: RendererState, image: Image): Grid {
    Rendered(image, r.mode, MAX_FRAME_WIDTH, MAX_FRAME_HEIGHT)
  }

  lemma DrawnReady(r: RendererState, image: Image)
    ensures Even(Drawn(r, image)) && Ready(Drawn(r, image), r.mode)
    ensures |Drawn(r, image)| == if ValidMode(r.mode) then 30 else 0
    ensures ValidMode(r.mode) ==> |Drawn(r, image)[0]| == 100
  {
    RenderingReady(image, r.mode, MAX_FRAME_WIDTH, MAX_FRAME_HEIGHT);
  }

  lemma ConvertedValid(r: RendererState, rendered: Grid)
    requires ValidRenderer(r) && Even(rendered) && Ready(rendered, r.mode)
    ensures ValidRenderer(Converted(r, rendered).0) && Converted(r, rendered).0.mode == r.mode
    ensures Converted(r, rendered).0.threshold == r.threshold
  {
  }

  function Next(r: RendererState, h: Happening): (next: RendererState)
    requires ValidRenderer(r)
    ensures ValidRenderer(next) && next.threshold == r.threshold
  {
    match h
    case Picture(image) =>
      DrawnReady(r, image);
      ConvertedValid(r, Drawn(r, image));
      Converted(r, Drawn(r, image)).0
    case CameraStarted => RendererReset(r)
    case CameraStopped => RendererReset(r)
    case ModeChanged(mode) => ModeSet(r, mode)
    case Delivered(_) => r
  }

  /** What it means for the stream. */
  function EventOf(r: RendererState, h: Happening): V.Event
    requires ValidRenderer(r)
  {
    match h
    case Picture(image) =>
      DrawnReady(r, image);
      V.Capture(Converted(r, Drawn(r, image)).1)
    case CameraStarted => V.Reset
    case CameraStopped => V.CameraOff
    case ModeChanged(mode) => V.SetMode(mode)
    case Delivered(index) => V.Deliver(index)
  }

  function After(mode: int, call: seq<Happening>): (r: RendererState)
    ensures ValidRenderer(r) && r.threshold == 1
  {
    if call == [] then NewRenderer(mode) else Next(After(mode, call[..|call| - 1]), call[|call| - 1])
  }

  function Events(mode: int, call: seq<Happening>): (events: seq<V.Event>)
    ensures |events| == |call|
  {
    seq(|call|, i requires 0 <= i < |call| => EventOf(After(mode, call[..i]), call[i]))
  }

  /** The stream after a call in which the stopped camera is announced with this message. */
  function Reached(mode: int, call: seq<Happening>, message: string): V.State {
    V.Reach(mode, 30, V.StatusText(message), Events(mode, call))
  }

  lemma EventsBefore(mode: int, call: seq<Happening>, n: nat)
    requires n <= |call|
    ensures Events(mode, call)[..n] == Events(mode, call[..n])
  {
    forall i | 0 <= i < n
      ensures Events(mode, call)[i] == Events(mode, call[..n])[i]
    {
      assert call[..n][..i] == call[..i];
    }
  }

  /** The stream's encoder is the renderer's. */
  lemma {:induction false} SameEncoder(mode: int, call: seq<Happening>, message: string)
    ensures Reached(mode, call, message).sender.encoder == After(mode, call).encoder
    ensures After(mode, call).mode == After(mode, call).encoder.mode
  {
    if call != [] {
      var n := |call| - 1;
      SameEncoder(mode, call[..n], message);
      EventsBefore(mode, call, n);
      var s, r := Reached(mode, call[..n], message), After(mode, call[..n]);
      assert Reached(mode, call, message) == V.Step(s, EventOf(r, call[n]));
      SameEncoderStep(s, r, call[n]);
    }
  }

  lemma SameEncoderStep(s: V.State, r: RendererState, h: Happening)
    requires V.Running(s) && ValidRenderer(r) && s.sender.encoder == r.encoder
    ensures V.Step(s, EventOf(r, h)).sender.encoder == Next(r, h).encoder
  {
  }

  /** No picture of a call looks like the status frame: it has thirty rows and not three. */
  lemma NoPictureLooksLikeStatus(mode: int, call: seq<Happening>, message: string)
    ensures V.NoLookalike(Events(mode, call), message)
  {
  }

  /** The grid shows the picture to within one palette step in every cell. */
  predicate Shows(g: Grid, drawn: Grid, threshold: int) {
    SameShape(drawn, g) && forall y, x :: 0 <= y < |g| && 0 <= x < |g[y]| ==> Near(drawn[y][x], g[y][x], threshold)
  }

  /**
   A whole call, end to end: for every sequence of pictures, camera starts and stops, mode changes
   and deliveries, under every loss, reordering and duplication, once a keyframe and every video
   frame after it up to n got through, the receiver holds the sender's grid and mode of frame n and
   shows it until a status frame passes, and that is the picture sent as frame n, drawn in that mode,
   to within one palette step in every cell.
   */
  lemma CallEndToEnd(mode: int, call: seq<Happening>, message: string, k: int, n: int) returns (i: nat)
    requires var s := Reached(mode, call, message);
             V.Through(s.sender.log, s.receiver.passed, k, n)
    ensures var s := Reached(mode, call, message);
            && s.receiver.decoder == Holding(s.sender.log[n].content.grid, s.sender.log[n].content.mode)
            && V.ShowsFrame(s, n)
    ensures i < |call| && call[i].Picture? && |Reached(mode, call[..i], message).sender.log| == n
    ensures var d := Reached(mode, call, message).receiver.decoder;
            d.mode == After(mode, call[..i]).mode && Shows(d.grid, Drawn(After(mode, call[..i]), call[i].image), 1)
  {
    NoPictureLooksLikeStatus(mode, call, message);
    V.EndToEndUnlessLookalike(mode, 30, message, Events(mode, call), k, n);
    i := PictureOf(mode, call, message, n);
  }

  /** Each video frame of a call is the picture that was taken when as many frames had been sent. */
  lemma PictureOf(mode: int, call: seq<Happening>, message: string, n: nat) returns (i: nat)
    requires V.IsVideo(Reached(mode, call, message).sender.log, n)
    ensures i < |call| && call[i].Picture? && |Reached(mode, call[..i], message).sender.log| == n
    ensures var sent := Reached(mode, call, message).sender.log[n].content;
            && sent.mode == After(mode, call[..i]).mode
            && Shows(sent.grid, Drawn(After(mode, call[..i]), call[i].image), 1)
  {
    i := V.SentWasCaptured(mode, 30, V.StatusText(message), Events(mode, call), n);
    EventsBefore(mode, call, i);
    SameEncoder(mode, call[..i], message);
    CaptureShows(After(mode, call[..i]), call[i], Reached(mode, call, message).sender.log[n].content.grid);
  }

  lemma CaptureShows(r: RendererState, h: Happening, g: Grid)
    requires ValidRenderer(r) && EventOf(r, h) == V.Capture(g)
    ensures h.Picture? && Shows(g, Drawn(r, h.image), r.threshold)
  {
    DrawnReady(r, h.image);
    ConvertedShows(r, Drawn(r, h.image));
  }

  lemma ConvertedShows(r: RendererState, drawn: Grid)
    requires ValidRenderer(r) && Even(drawn)
    ensures Shows(Converted(r, drawn).1, drawn, r.threshold)
  {
  }

  /** And a receiver that loses no video frame from frame a on is in step after thirty of them. */
  lemma CallResynchronises(mode: int, call: seq<Happening>, message: string, a: nat, n: nat)
    requires var s := Reached(mode, call, message);
             && a <= n && V.IsVideo(s.sender.log, n) && V.Videos(s.sender.log, a, n + 1) >= 30
             && (forall j :: a <= j <= n && V.IsVideo(s.sender.log, j) ==> j in s.receiver.passed)
             && (forall j :: j in s.receiver.passed && j > n ==> !V.IsVideo(s.sender.log, j))
    ensures var s := Reached(mode, call, message);
            s.receiver.decoder == Holding(s.sender.log[n].content.grid, s.sender.log[n].content.mode)
  {
    NoPictureLooksLikeStatus(mode, call, message);
    SameEncoder(mode, call, message);
    Thirty(mode, call);
    V.ResynchronisesUnlessLookalike(mode, 30, message, Events(mode, call), a, n);
  }

  lemma {:induction false} Thirty(mode: int, call: seq<Happening>)
    ensures After(mode, call).encoder.keyframeEvery == 30
  {
    if call != [] {
      Thirty(mode, call[..|call| - 1]);
    }
  }
}
