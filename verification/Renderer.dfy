/**
 From camera images to frames: pixels become cells, the stabiliser holds back changes too small to
 be motion, and the encoder prints what is left. Sampling and rounding are over exact fractions.
 */
module Renderer {
  import opened Wrappers
  import opened Frames
  import opened DeltaCodec
  import T = Terminal

  // ---------- The palette ----------

  type Channel = c: int | 0 <= c <= 65535
  datatype Pixel = Pixel(r: Channel, g: Channel, b: Channel)

  /** n / d rounded to the nearest integer, halves up. */
  function RoundedQuotient(n: nat, d: nat): nat
    requires d > 0
  {
    (2 * n + d) / (2 * d)
  }

  /** With an odd divisor there are no halves: the result is strictly the nearest integer. */
  lemma Nearest(n: nat, d: nat)
    requires d > 0 && d % 2 == 1
    ensures var q := RoundedQuotient(n, d);
            2 * d * q < 2 * n + d < 2 * d * q + 2 * d
  {
    var q := RoundedQuotient(n, d);
    assert 2 * n + d == 2 * d * q + (2 * n + d) % (2 * d);
    assert (2 * n + d) % 2 == 1;
    assert 2 * d * q == 2 * (d * q);
  }

  function Level(v: nat): nat {
    RoundedQuotient(v * 5, 255)
  }

  function GreyLevel(v: nat): nat
    requires v >= 8
  {
    RoundedQuotient((v - 8) * 24, 247)
  }

  /** rgbToANSI256. */
  function PaletteIndex(p: Pixel): int {
    var r, g, b := p.r / 256, p.g / 256, p.b / 256;
    if r == g == b then
      if r < 8 then 16 else if r > 248 then 231 else GreyLevel(r) + 232
    else 16 + 36 * Level(r) + 6 * Level(g) + Level(b)
  }

  /**
   The index is always one of the 240 fixed palette entries. A colour goes to the cube entry whose
   coordinates are each strictly the nearest to its channels; a grey to the strictly nearest step of
   the grey ramp, but the darkest ones to the cube's black and the lightest to its white.
   */
  lemma PaletteNearest(p: Pixel)
    ensures 16 <= PaletteIndex(p) <= 255
    ensures var r, g, b := p.r / 256, p.g / 256, p.b / 256;
            !(r == g == b) ==>
              var cube := PaletteIndex(p) - 16;
              && 0 <= cube <= 215
              && NearestLevel(cube / 36, r) && NearestLevel(cube / 6 % 6, g) && NearestLevel(cube % 6, b)
    ensures var r := p.r / 256;
            r == p.g / 256 == p.b / 256 ==>
              && (r < 8 ==> PaletteIndex(p) == 16 + 36 * 0 + 6 * 0 + 0)
              && (r > 248 ==> PaletteIndex(p) == 16 + 36 * 5 + 6 * 5 + 5)
              && (8 <= r <= 248 ==>
                    var step := PaletteIndex(p) - 232;
                    0 <= step <= 23 && 2 * 247 * step < 2 * 24 * (r - 8) + 247 < 2 * 247 * step + 2 * 247)
  {
    var r, g, b := p.r / 256, p.g / 256, p.b / 256;
    if r == g == b {
      if 8 <= r <= 248 {
        Nearest((r - 8) * 24, 247);
      }
    } else {
      LevelNearest(r);
      LevelNearest(g);
      LevelNearest(b);
      CubeCoordinates(Level(r), Level(g), Level(b));
    }
  }

  /** The level, of 0 to 5, is strictly the nearest to a channel value of 0 to 255. */
  predicate NearestLevel(level: int, v: nat) {
    2 * 255 * level < 2 * 5 * v + 255 < 2 * 255 * level + 2 * 255
  }

  lemma LevelNearest(v: nat)
    requires v <= 255
    ensures NearestLevel(Level(v), v) && Level(v) <= 5
  {
  }

  lemma CubeCoordinates(r: nat, g: nat, b: nat)
    requires r <= 5 && g <= 5 && b <= 5
    ensures var cube := 36 * r + 6 * g + b;
            0 <= cube <= 215 && cube / 36 == r && cube / 6 % 6 == g && cube % 6 == b
  {
  }

  // ---------- Cells ----------

  const GRADIENT := " .:-=+*#%@"

  /** The position on the ramp from dark to light. */
  function Shade(p: Pixel): int {
    (299 * p.r + 587 * p.g + 114 * p.b) * 9 / (255 * 256 * 1000)
  }

  /** Every pixel has a place on the ramp without any clamping, and a brighter one is never darker there. */
  lemma ShadeInRange(p: Pixel, q: Pixel)
    ensures 0 <= Shade(p) < |GRADIENT|
    ensures p.r <= q.r && p.g <= q.g && p.b <= q.b ==> Shade(p) <= Shade(q)
    ensures Shade(Pixel(0, 0, 0)) == 0 && Shade(Pixel(65535, 65535, 65535)) == |GRADIENT| - 1
  {
  }

  function GradientByte(p: Pixel): (b: Byte)
    ensures 32 <= b <= 126
  {
    ShadeInRange(p, p);
    GRADIENT[Shade(p)] as int
  }

  /** The character of a pixel is the one at k on the ramp if its luminance, scaled to the ramp, is k or a bit more. */
  lemma GradientExactly(p: Pixel, k: nat)
    requires k <= 9 && 65_280_000 * k <= 9 * (299 * p.r + 587 * p.g + 114 * p.b) < 65_280_000 * (k + 1)
    ensures GradientByte(p) == [' ', '.', ':', '-', '=', '+', '*', '#', '%', '@'][k] as int
  {
    assert Shade(p) == k;
  }

  datatype Image = Image(minX: int, minY: int, width: nat, height: nat, at: (int, int) -> Pixel)

  /** The pixel s of an axis of the given length is the one under position x of `target` ones. */
  predicate Under(s: int, x: nat, length: nat, target: nat) {
    s * target <= x * length < (s + 1) * target
  }

  /** The source coordinate for position x of `target` ones, along an axis of the given length. */
  function Sample(x: nat, length: nat, target: nat): (s: nat)
    requires x < target
    ensures length > 0 ==> s < length
    ensures Under(s, x, length, target)
  {
    SampleBound(x, length, target);
    SampleUnder(x, length, target);
    x * length / target
  }

  lemma SampleUnder(x: nat, length: nat, target: nat)
    requires x < target
    ensures Under(x * length / target, x, length, target)
  {
    var n := x * length;
    var s := n / target;
    assert n == target * s + n % target;
    assert s * target == target * s && (s + 1) * target == target * s + target;
  }

  lemma OnlyUnder(s: int, t: int, x: nat, length: nat, target: nat)
    requires target > 0 && Under(s, x, length, target) && Under(t, x, length, target)
    ensures s == t
  {
    AtLeast(target, s - t);
    AtLeast(target, t - s);
    assert (s - t) * target == s * target - t * target && (t - s) * target == t * target - s * target;
    assert (s + 1) * target == s * target + target && (t + 1) * target == t * target + target;
  }

  lemma AtLeast(d: nat, k: int)
    ensures k >= 1 ==> k * d >= d
  {
  }

  lemma SampleBound(x: nat, length: nat, target: nat)
    requires x < target
    ensures x * length / target >= 0
    ensures length > 0 ==> x * length / target < length
  {
  }

  function PixelAt(img: Image, x: nat, w: nat, y: nat, h: nat): Pixel
    requires x < w && y < h
  {
    img.at(img.minX + Sample(x, img.width, w), img.minY + Sample(y, img.height, h))
  }

  /** What one cell of a w by h rendering shows. */
  function RenderedCell(img: Image, mode: int, x: nat, w: nat, y: nat, h: nat): Cell
    requires x < w && y < h
  {
    if mode == MODE_HALF_BLOCK then
      var top := PixelAt(img, x, w, 2 * y, 2 * h);
      var bottom := PixelAt(img, x, w, 2 * y + 1, 2 * h);
      Cell(0, PaletteIndex(bottom), PaletteIndex(top))
    else
      var p := PixelAt(img, x, w, y, h);
      Cell(GradientByte(p), if mode == MODE_COLOR256 then PaletteIndex(p) else -1, -1)
  }

  /**
   Half blocks double the rows: pixel (x, v) of the w by 2h sampling is the upper half of its cell,
   which a lower half block leaves to the background, when v is even, and the lower half otherwise.
   */
  lemma HalfBlockPixels(img: Image, x: nat, w: nat, v: nat, h: nat)
    requires x < w && v < 2 * h
    ensures var c := RenderedCell(img, MODE_HALF_BLOCK, x, w, v / 2, h);
            && PaletteIndex(PixelAt(img, x, w, v, 2 * h)) == (if v % 2 == 0 then c.bg else c.fg)
            && T.GlyphOf(T.HalfBlock, c) == T.LOWER_HALF
  {
  }

  /** Cells of this mode that carry all the colours its serialiser prints. */
  predicate ReadyCell(c: Cell, mode: int) {
    && LegalCell(c, mode)
    && (mode != MODE_ASCII ==> c.fg >= 0)
    && (mode == MODE_HALF_BLOCK ==> c.bg >= 0)
  }

  predicate Ready(g: Grid, mode: int) {
    forall y, x :: 0 <= y < |g| && 0 <= x < |g[y]| ==> ReadyCell(g[y][x], mode)
  }

  predicate Even(g: Grid) {
    |g| > 0 ==> Rectangular(g, |g[0]|, |g|)
  }

  lemma RenderedReady(img: Image, mode: int, x: nat, w: nat, y: nat, h: nat)
    requires x < w && y < h && ValidMode(mode)
    ensures ReadyCell(RenderedCell(img, mode, x, w, y, h), mode)
  {
  }

  function Side(target: int, usual: nat): nat {
    if target <= 0 then usual else target
  }

  function RenderedRow(img: Image, mode: int, w: nat, y: nat, h: nat): (row: seq<Cell>)
    requires y < h
    ensures |row| == w
  {
    seq(w, x requires 0 <= x < w => RenderedCell(img, mode, x, w, y, h))
  }

  /** The rendering of an image; a mode that does not exist has none, and a size that is not positive is 80 by 24. */
  function Rendered(img: Image, mode: int, targetWidth: int, targetHeight: int): (g: Grid)
    ensures ValidMode(mode) ==> Rectangular(g, Side(targetWidth, 80), Side(targetHeight, 24))
  {
    var w, h := Side(targetWidth, 80), Side(targetHeight, 24);
    if ValidMode(mode) then seq(h, y requires 0 <= y < h => RenderedRow(img, mode, w, y, h)) else []
  }

  /**
   What a rendering shows at row y and column x, in terms of the image: in plain and 256-colour mode
   the pixel in column s and row t of the image, those under x of w and y of h; with half blocks the
   pixels in that column and the rows under 2y and 2y + 1 of 2h, the upper one as background.
   */
  lemma RenderedPixels(
      img: Image, mode: int, targetWidth: int, targetHeight: int, y: nat, x: nat, s: int, t: int, u: int)
    requires var w, h := Side(targetWidth, 80), Side(targetHeight, 24);
             && y < h && x < w && Under(s, x, img.width, w)
             && (if mode == MODE_HALF_BLOCK
                 then Under(t, 2 * y, img.height, 2 * h) && Under(u, 2 * y + 1, img.height, 2 * h)
                 else Under(t, y, img.height, h))
    requires ValidMode(mode)
    ensures var c := Rendered(img, mode, targetWidth, targetHeight)[y][x];
            var p := img.at(img.minX + s, img.minY + t);
            && (mode == MODE_ASCII ==> c == Cell(GradientByte(p), -1, -1))
            && (mode == MODE_COLOR256 ==> c == Cell(GradientByte(p), PaletteIndex(p), -1))
            && (mode == MODE_HALF_BLOCK ==>
                  c == Cell(0, PaletteIndex(img.at(img.minX + s, img.minY + u)), PaletteIndex(p)))
  {
    var w, h := Side(targetWidth, 80), Side(targetHeight, 24);
    OnlyUnder(s, Sample(x, img.width, w), x, img.width, w);
    if mode == MODE_HALF_BLOCK {
      OnlyUnder(t, Sample(2 * y, img.height, 2 * h), 2 * y, img.height, 2 * h);
      OnlyUnder(u, Sample(2 * y + 1, img.height, 2 * h), 2 * y + 1, img.height, 2 * h);
    } else {
      OnlyUnder(t, Sample(y, img.height, h), y, img.height, h);
    }
  }

  /** Whatever the image, the rendering is legal cell by cell and has all the colours of its mode. */
  lemma RenderingReady(img: Image, mode: int, targetWidth: int, targetHeight: int)
    ensures var g := Rendered(img, mode, targetWidth, targetHeight); Even(g) && Ready(g, mode)
  {
    if ValidMode(mode) {
      var w, h := Side(targetWidth, 80), Side(targetHeight, 24);
      forall y, x | 0 <= y < h && 0 <= x < w
        ensures ReadyCell(Rendered(img, mode, targetWidth, targetHeight)[y][x], mode)
      {
        RenderedReady(img, mode, x, w, y, h);
      }
    }
  }

  /** renderCells, for the three modes. */
  method RenderCells(img: Image, mode: int, targetWidth: int, targetHeight: int) returns (cells: Grid)
    ensures cells == Rendered(img, mode, targetWidth, targetHeight)
  {
    cells := [];
    if !ValidMode(mode) {
      return;
    }
    var w, h := Side(targetWidth, 80), Side(targetHeight, 24);
    for y := 0 to h
      invariant cells == Rendered(img, mode, targetWidth, targetHeight)[..y]
    {
      var row := [];
      for x := 0 to w
        invariant row == RenderedRow(img, mode, w, y, h)[..x]
      {
        row := row + [RenderedCell(img, mode, x, w, y, h)];
      }
      assert row == RenderedRow(img, mode, w, y, h);
      cells := cells + [row];
    }
  }

  // ---------- The stabiliser ----------

  function Abs(x: int): nat {
    if x < 0 then -x else x
  }

  predicate Near(a: Cell, b: Cell, threshold: int) {
    Abs(a.fg - b.fg) <= threshold && Abs(a.bg - b.bg) <= threshold && a.ch == b.ch
  }

  /** Near cells have the same character, and either colour is at most so many palette entries away. */
  lemma NearExactly(a: Cell, b: Cell, threshold: int)
    ensures Near(a, b, threshold) <==>
              a.ch == b.ch && -threshold <= a.fg - b.fg <= threshold && -threshold <= a.bg - b.bg <= threshold
  {
  }

  function Merged(prev: Cell, cell: Cell, threshold: int): Cell {
    if Near(cell, prev, threshold) then prev else cell
  }

  function MergedGrid(prev: Grid, cells: Grid, threshold: int): (g: Grid)
    requires SameShape(prev, cells)
    ensures SameShape(g, cells)
  {
    seq(|cells|, y requires 0 <= y < |cells| =>
      seq(|cells[y]|, x requires 0 <= x < |cells[y]| => Merged(prev[y][x], cells[y][x], threshold)))
  }

  function Width(g: Grid): int {
    if |g| > 0 then |g[0]| else 0
  }

  /** The frame that goes out for a camera frame, and becomes the baseline for the next one. */
  function Stabilised(prev: Option<Grid>, cells: Grid, threshold: int): (g: Grid)
    requires Even(cells) && (prev.Some? ==> Even(prev.value))
    ensures SameShape(g, cells)
  {
    if prev.Some? && Width(prev.value) == Width(cells) && |prev.value| == |cells|
    then MergedGrid(prev.value, cells, threshold) else cells
  }

  class Stabiliser {
    var prev: Option<Grid>
    var w: int
    var h: int
    const threshold: int

    ghost predicate Valid()
      reads this
    {
      prev.Some? ==> Even(prev.value) && h == |prev.value| && w == Width(prev.value)
    }

    constructor (threshold: int)
      ensures Valid() && prev == None && this.threshold == threshold
    {
      prev, w, h := None, 0, 0;
      this.threshold := threshold;
    }

    method Reset()
      modifies this
      ensures Valid() && prev == None
    {
      prev, w, h := None, 0, 0;
    }

    method Stabilise(cells: Grid) returns (out: Grid)
      requires Valid() && Even(cells)
      modifies this
      ensures Valid() && out == Stabilised(old(prev), cells, threshold) && prev == Some(out)
    {
      var height, width := |cells|, Width(cells);
      if prev == None || w != width || h != height {
        prev, w, h := Some(cells), width, height;
        return cells;
      }
      out := [];
      for y := 0 to height
        invariant out == MergedGrid(prev.value, cells, threshold)[..y]
        invariant prev == old(prev)
      {
        var row := [];
        for x := 0 to width
          invariant row == MergedGrid(prev.value, cells, threshold)[y][..x]
          invariant prev == old(prev)
        {
          var n, o := cells[y][x], prev.value[y][x];
          row := row + [if Near(n, o, threshold) then o else n];
        }
        assert row == MergedGrid(prev.value, cells, threshold)[y];
        out := out + [row];
      }
      prev := Some(out);
    }
  }

  // ---------- Stabilised runs ----------

  predicate AllEven(frames: seq<Grid>) {
    forall i :: 0 <= i < |frames| ==> Even(frames[i])
  }

  /** What the stabiliser sends for the last of these frames, the first being the first after a reset. */
  function Sent(frames: seq<Grid>, threshold: int): (g: Grid)
    requires |frames| > 0 && AllEven(frames)
    ensures SameShape(g, frames[|frames| - 1]) && Even(g)
  {
    var n := |frames| - 1;
    Stabilised(if n == 0 then None else Some(Sent(frames[..n], threshold)), frames[n], threshold)
  }

  predicate HasCell(g: Grid, y: nat, x: nat) {
    y < |g| && x < |g[y]|
  }

  /** From frame m on, the size was that of g and the camera's cell within the threshold of g's. */
  predicate HeldSince(frames: seq<Grid>, m: nat, g: Grid, y: nat, x: nat, threshold: int)
    requires HasCell(g, y, x)
  {
    forall k :: m <= k < |frames| ==> SameShape(frames[k], g) && Near(frames[k][y][x], g[y][x], threshold)
  }

  /**
   Over a whole run, no cell is made up and small differences never add up: each cell sent is the
   camera's cell in some frame m, and in every frame from m on the grid had the same size and the
   camera's cell was within the threshold of it.
   */
  lemma {:induction false} NoDrift(frames: seq<Grid>, threshold: nat, y: nat, x: nat) returns (m: nat)
    requires |frames| > 0 && AllEven(frames) && HasCell(Sent(frames, threshold), y, x)
    ensures m < |frames| && HeldSince(frames, m, Sent(frames, threshold), y, x, threshold)
    ensures frames[m][y][x] == Sent(frames, threshold)[y][x]
  {
    var n := |frames| - 1;
    m := n;
    if n > 0 {
      var cells, prev := frames[n], Sent(frames[..n], threshold);
      if Width(prev) == Width(cells) && |prev| == |cells| && Near(cells[y][x], prev[y][x], threshold) {
        m := NoDrift(frames[..n], threshold, y, x);
        HeldOneMore(frames, m, prev, Sent(frames, threshold), y, x, threshold);
      }
    }
  }

  lemma HeldOneMore(frames: seq<Grid>, m: nat, prev: Grid, g: Grid, y: nat, x: nat, threshold: int)
    requires |frames| > 0 && m < |frames| && SameShape(prev, g) && HasCell(g, y, x) && prev[y][x] == g[y][x]
    requires HeldSince(frames[..|frames| - 1], m, prev, y, x, threshold)
    requires SameShape(frames[|frames| - 1], g) && Near(frames[|frames| - 1][y][x], g[y][x], threshold)
    ensures HeldSince(frames, m, g, y, x, threshold)
  {
  }

  /** As long as the camera's cells stay within the threshold of what was sent, exactly that is sent again. */
  lemma StillPicture(prev: Grid, cells: Grid, threshold: nat)
    requires Even(prev) && Even(cells) && SameShape(prev, cells)
    requires forall y, x :: 0 <= y < |cells| && 0 <= x < |cells[y]| ==> Near(cells[y][x], prev[y][x], threshold)
    ensures Stabilised(Some(prev), cells, threshold) == prev
  {
    assert MergedGrid(prev, cells, threshold) == prev by {
      forall y | 0 <= y < |prev|
        ensures MergedGrid(prev, cells, threshold)[y] == prev[y]
      {
      }
    }
  }

  // ---------- The renderer ----------

  datatype RendererState = RendererState(mode: int, baseline: Option<Grid>, threshold: int, encoder: EncoderState)

  ghost predicate ValidRenderer(r: RendererState) {
    && ValidEncoder(r.encoder) && r.encoder.mode == r.mode && r.threshold >= 0
    && (r.baseline.Some? ==> Even(r.baseline.value) && Ready(r.baseline.value, r.mode))
  }

  /** A new mode starts from nothing: no baseline and no previous frame. */
  function ModeSet(r: RendererState, mode: int): RendererState {
    r.(mode := mode, baseline := None, encoder := ResetEncoder(r.encoder.(mode := mode)))
  }

  function RendererReset(r: RendererState): RendererState {
    r.(baseline := None, encoder := ResetEncoder(r.encoder))
  }

  function Converted(r: RendererState, rendered: Grid): (RendererState, Grid, string)
    requires Even(rendered) && (r.baseline.Some? ==> Even(r.baseline.value)) && ValidEncoder(r.encoder)
  {
    var cells := Stabilised(r.baseline, rendered, r.threshold);
    var (encoder, text) := EncodeStep(r.encoder, cells);
    (r.(baseline := Some(cells), encoder := encoder), cells, text)
  }

  lemma StabilisedCell(prev: Option<Grid>, cells: Grid, threshold: nat, y: nat, x: nat)
    requires Even(cells) && (prev.Some? ==> Even(prev.value)) && HasCell(cells, y, x)
    ensures Near(cells[y][x], Stabilised(prev, cells, threshold)[y][x], threshold)
    ensures Stabilised(prev, cells, threshold)[y][x] == cells[y][x]
         || (prev.Some? && HasCell(prev.value, y, x) && Stabilised(prev, cells, threshold)[y][x] == prev.value[y][x])
  {
  }

  /**
   Exactly what the stabiliser sends: the cell it sent before, if that was of a grid of the same size
   and has the same character and both colours within the threshold, and otherwise the camera's.
   */
  lemma StabilisedExactly(prev: Option<Grid>, cells: Grid, threshold: int, y: nat, x: nat)
    requires Even(cells) && (prev.Some? ==> Even(prev.value)) && HasCell(cells, y, x)
    ensures var sent, n := Stabilised(prev, cells, threshold)[y][x], cells[y][x];
            if prev.Some? && SameShape(prev.value, cells) then
              var o := prev.value[y][x];
              if n.ch == o.ch && -threshold <= n.fg - o.fg <= threshold && -threshold <= n.bg - o.bg <= threshold
              then sent == o else sent == n
            else sent == n
  {
    if prev.Some? && SameShape(prev.value, cells) {
      NearExactly(cells[y][x], prev.value[y][x], threshold);
    }
  }

  lemma StabilisedReady(prev: Option<Grid>, cells: Grid, threshold: nat, mode: int)
    requires Even(cells) && Ready(cells, mode) && (prev.Some? ==> Even(prev.value) && Ready(prev.value, mode))
    ensures Even(Stabilised(prev, cells, threshold)) && Ready(Stabilised(prev, cells, threshold), mode)
  {
  }

  lemma ReadyIsLegal(g: Grid, mode: int)
    requires ValidMode(mode) && |g| > 0 && Even(g) && ValidDimensions(|g[0]|, |g|) && Ready(g, mode)
    ensures LegalGrid(g, mode)
  {
  }

  /**
   Sending one image, at any legal size and from any reachable state of the renderer: a receiver
   that holds the sender's previous frame, or any receiver when the renderer has just been reset or
   set to another mode, then holds exactly the sender's stabilised grid, every cell of which is
   within the threshold of what the camera saw.
   */
  lemma ConvertedArrives(r: RendererState, rendered: Grid, d: DecoderState)
    requires ValidRenderer(r) && ValidMode(r.mode) && ValidDecoder(d)
    requires |rendered| > 0 && Even(rendered) && ValidDimensions(|rendered[0]|, |rendered|) && Ready(rendered, r.mode)
    requires r.encoder.prev.None? || d == Holding(r.encoder.prev.value, r.mode)
    ensures var (next, cells, text) := Converted(r, rendered);
            && ValidRenderer(next)
            && Decode(d, text) == Ok(Holding(cells, r.mode))
            && SameShape(cells, rendered)
            && (r.encoder.prev.None? ==> IsKeyframe(text))
            && forall y, x :: 0 <= y < |cells| && 0 <= x < |cells[y]| ==> Near(rendered[y][x], cells[y][x], r.threshold)
  {
    var cells := Stabilised(r.baseline, rendered, r.threshold);
    StabilisedReady(r.baseline, rendered, r.threshold, r.mode);
    ReadyIsLegal(cells, r.mode);
    EncodeThenDecode(r.encoder, cells, d);
    if r.encoder.prev.None? {
      KeyframeAfterChange(r.encoder, cells);
    }
    forall y, x | 0 <= y < |cells| && 0 <= x < |cells[y]|
      ensures Near(rendered[y][x], cells[y][x], r.threshold)
    {
      StabilisedCell(r.baseline, rendered, r.threshold, y, x);
    }
  }

  /** What the renderer sends is shown as meant by the serialiser of its mode. */
  lemma ReadyShowsAsMeant(g: Grid, mode: int)
    requires |g| > 0 && Ready(g, mode) && (mode == MODE_COLOR256 || mode == MODE_HALF_BLOCK)
    ensures var style := if mode == MODE_COLOR256 then T.Colour256 else T.HalfBlock;
            var t := T.Interpret(T.BLANK, T.Output(style, g));
            t.pen == T.PLAIN && T.Picture(t) == T.MeantRows(style, g)
  {
    var style := if mode == MODE_COLOR256 then T.Colour256 else T.HalfBlock;
    assert T.ShowableGrid(g);
    T.ElisionExactly(style, g);
    assert T.GridNeverFades(style, g);
  }

  class ColorRenderer {
    var mode: int
    const stabiliser: Stabiliser
    const delta: DeltaEncoder

    ghost function State(): RendererState
      reads this, stabiliser, delta
    {
      RendererState(mode, stabiliser.prev, stabiliser.threshold, delta.State())
    }

    ghost predicate Valid()
      reads this, stabiliser, delta
    {
      ValidRenderer(State()) && stabiliser.Valid()
    }

    constructor (mode: int)
      ensures Valid() && State() == RendererState(mode, None, 1, FreshEncoder(mode, 30))
      ensures fresh(stabiliser) && fresh(delta)
    {
      this.mode := mode;
      stabiliser := new Stabiliser(1);
      delta := new DeltaEncoder(mode, 30);
    }

    method SetMode(mode: int)
      requires Valid()
      modifies this, stabiliser, delta
      ensures Valid() && State() == ModeSet(old(State()), mode)
    {
      this.mode := mode;
      delta.mode := mode;
      delta.Reset();
      stabiliser.Reset();
    }

    method Reset()
      requires Valid()
      modifies stabiliser, delta
      ensures Valid() && State() == RendererReset(old(State()))
    {
      delta.Reset();
      stabiliser.Reset();
    }

    /** Renders an image at the given size, returning the stabilised cells and the frame to send. */
    method ConvertCells(img: Image, width: int, height: int) returns (cells: Grid, text: string)
      requires Valid()
      modifies this, stabiliser, delta
      ensures Valid() && Even(Rendered(img, mode, width, height))
      ensures (State(), cells, text) == Converted(old(State()), Rendered(img, mode, width, height))
    {
      RenderingReady(img, mode, width, height);
      var drawn := RenderCells(img, mode, width, height);
      StabilisedReady(stabiliser.prev, drawn, stabiliser.threshold, mode);
      cells := stabiliser.Stabilise(drawn);
      text := delta.Encode(cells);
    }
  }
}
