/**
 The sending end of the video stream: DeltaEncoder turns grids into keyframes and deltas.
 */
module DeltaCodec {
  import opened Wrappers
  import opened Text
  import opened Frames

  // ---------- What the encoder does, on values ----------

  datatype EncoderState = EncoderState(
    prev: Option<Grid>, w: int, h: int, mode: int, frameCount: int, keyframeEvery: int)

  /** Holds between calls: the frame counter stays below the interval and `prev` is a legal grid. */
  predicate ValidEncoder(e: EncoderState) {
    && 0 <= e.frameCount < e.keyframeEvery
    && match e.prev
       case None => e.frameCount == 0
       case Some(g) => LegalGrid(g, e.mode) && e.h == |g| && e.w == |g[0]|
  }

  function FreshEncoder(mode: int, interval: int): EncoderState {
    EncoderState(None, 0, 0, mode, 0, if interval < 1 then 30 else interval)
  }

  function ResetEncoder(e: EncoderState): EncoderState {
    e.(prev := None, w := 0, h := 0, frameCount := 0)
  }

  function Changed(e: EncoderState, cells: Grid): seq<Change>
    requires e.prev.Some? && SameShape(e.prev.value, cells)
  {
    GridChanges(e.prev.value, cells, |cells|)
  }

  /** A legal grid must go out whole: no previous frame of its size, interval over, or more than half changed. */
  predicate NeedsKeyframe(e: EncoderState, cells: Grid)
    requires ValidEncoder(e) && LegalGrid(cells, e.mode)
  {
    || e.prev.None? || e.w != |cells[0]| || e.h != |cells|
    || e.frameCount + 1 >= e.keyframeEvery
    || |Changed(e, cells)| > |cells[0]| * |cells| / 2
  }

  function EncodeStep(e: EncoderState, cells: Grid): (r: (EncoderState, string))
    requires ValidEncoder(e)
    ensures ValidEncoder(r.0) && r.0.mode == e.mode && r.0.keyframeEvery == e.keyframeEvery
  {
    if !LegalGrid(cells, e.mode) then (e, "")
    else if NeedsKeyframe(e, cells) then
      (e.(prev := Some(cells), w := |cells[0]|, h := |cells|, frameCount := 0), KeyframeText(cells, e.mode))
    else
      (e.(prev := Some(cells), frameCount := e.frameCount + 1), DeltaText(e.w, e.h, Changed(e, cells)))
  }

  /** Every emitted string fits the frame limit with room to spare, and only an illegal grid emits nothing. */
  lemma EncodeSize(e: EncoderState, cells: Grid)
    requires ValidEncoder(e)
    ensures |EncodeStep(e, cells).1| <= 36_011 < MAX_ENCODED_FRAME_BYTES
    ensures EncodeStep(e, cells).1 == "" <==> !LegalGrid(cells, e.mode)
  {
    if LegalGrid(cells, e.mode) {
      var w, h := |cells[0]|, |cells|;
      if NeedsKeyframe(e, cells) {
        KeyframeSize(cells, e.mode);
      } else {
        GridChangesInBounds(e.prev.value, cells, h, w, e.mode);
        AreaBound(h, w);
        DeltaSize(w, h, Changed(e, cells), e.mode);
      }
    }
  }

  predicate IsKeyframe(text: string) {
    text != "" && text[0] == 'K'
  }

  /** The first letter of an emitted frame tells which branch printed it. */
  lemma EncodeKind(e: EncoderState, cells: Grid)
    requires ValidEncoder(e) && LegalGrid(cells, e.mode)
    ensures IsKeyframe(EncodeStep(e, cells).1) <==> NeedsKeyframe(e, cells)
  {
    HeaderStart("K", |cells[0]|, |cells|, e.mode);
    if !NeedsKeyframe(e, cells) {
      HeaderStart("D", e.w, e.h, |Changed(e, cells)|);
    }
  }

  /** A decoder that holds the encoder's previous grid holds its current one after reading what it emits. */
  lemma EncodeThenDecode(e: EncoderState, cells: Grid, d: DecoderState)
    requires ValidEncoder(e) && LegalGrid(cells, e.mode) && ValidDecoder(d)
    requires NeedsKeyframe(e, cells) || d == Holding(e.prev.value, e.mode)
    ensures Decode(d, EncodeStep(e, cells).1) == Ok(Holding(cells, e.mode))
  {
    if NeedsKeyframe(e, cells) {
      KeyframeRoundTrip(d, cells, e.mode);
    } else {
      DeltaRoundTrip(e.prev.value, cells, e.mode);
    }
  }

  // ---------- Resynchronisation ----------

  /** What the owner of an encoder can do to it. */
  datatype EncoderOp = EncodeOp(cells: Grid) | ResetOp | SetModeOp(mode: int)

  function Do(e: EncoderState, op: EncoderOp): (r: (EncoderState, string))
    requires ValidEncoder(e)
    ensures ValidEncoder(r.0) && r.0.keyframeEvery == e.keyframeEvery
  {
    match op
    case EncodeOp(cells) => EncodeStep(e, cells)
    case ResetOp => (ResetEncoder(e), "")
    case SetModeOp(mode) => (ResetEncoder(e.(mode := mode)), "")
  }

  /** The frames that a run of operations emits, in order. */
  function Emitted(e: EncoderState, ops: seq<EncoderOp>): seq<string>
    requires ValidEncoder(e)
    decreases |ops|
  {
    if ops == [] then []
    else
      var (next, text) := Do(e, ops[0]);
      (if text == "" then [] else [text]) + Emitted(next, ops[1..])
  }

  /** Up to the next keyframe an encoder emits fewer deltas than are left in its interval. */
  lemma {:induction false} DeltasBeforeKeyframe(e: EncoderState, ops: seq<EncoderOp>, n: nat)
    requires ValidEncoder(e) && n <= |Emitted(e, ops)|
    requires forall i :: 0 <= i < n ==> !IsKeyframe(Emitted(e, ops)[i])
    ensures n < e.keyframeEvery - e.frameCount
    ensures e.prev.None? ==> n == 0
    decreases |ops|
  {
    if ops != [] && n > 0 {
      var (next, text) := Do(e, ops[0]);
      var rest := Emitted(next, ops[1..]);
      var m := if text == "" then n else n - 1;
      assert Emitted(e, ops) == (if text == "" then [] else [text]) + rest;
      forall i | 0 <= i < m
        ensures !IsKeyframe(rest[i])
      {
        assert rest[i] == Emitted(e, ops)[i + n - m];
      }
      DeltasBeforeKeyframe(next, ops[1..], m);
      if text != "" {
        assert !IsKeyframe(Emitted(e, ops)[0]);
        EncodeKind(e, ops[0].cells);
      }
    }
  }

  lemma {:induction false} EmittedSuffix(e: EncoderState, ops: seq<EncoderOp>, from: nat)
      returns (later: EncoderState, tail: seq<EncoderOp>)
    requires ValidEncoder(e) && from <= |Emitted(e, ops)|
    ensures ValidEncoder(later) && later.keyframeEvery == e.keyframeEvery
    ensures Emitted(later, tail) == Emitted(e, ops)[from..]
    decreases |ops|
  {
    if from == 0 {
      later, tail := e, ops;
    } else {
      var (next, text) := Do(e, ops[0]);
      var skip := if text == "" then from else from - 1;
      later, tail := EmittedSuffix(next, ops[1..], skip);
    }
  }

  /**
   In every run of encodes, resets and mode changes, any `keyframeEvery` consecutive emitted
   frames contain a keyframe.
   */
  lemma KeyframeWithinInterval(e: EncoderState, ops: seq<EncoderOp>, from: nat)
    requires ValidEncoder(e) && from + e.keyframeEvery <= |Emitted(e, ops)|
    ensures exists i :: from <= i < from + e.keyframeEvery && IsKeyframe(Emitted(e, ops)[i])
  {
    var later, tail := EmittedSuffix(e, ops, from);
    if forall i :: 0 <= i < e.keyframeEvery ==> !IsKeyframe(Emitted(later, tail)[i]) {
      DeltasBeforeKeyframe(later, tail, e.keyframeEvery);
      assert false;
    }
    var i :| 0 <= i < e.keyframeEvery && IsKeyframe(Emitted(later, tail)[i]);
    assert Emitted(e, ops)[from + i] == Emitted(later, tail)[i];
  }

  /** The first frame after a reset, a mode change or a change of size is a keyframe. */
  lemma KeyframeAfterChange(e: EncoderState, cells: Grid)
    requires ValidEncoder(e) && LegalGrid(cells, e.mode)
    requires e.prev.None? || e.w != |cells[0]| || e.h != |cells|
    ensures IsKeyframe(EncodeStep(e, cells).1)
  {
    EncodeKind(e, cells);
  }

  // ---------- Exactly when a keyframe goes out ----------

  /** The positions where two grids differ. */
  function Differing(prev: Grid, cur: Grid): set<Position>
    requires SameShape(prev, cur)
  {
    set y, x | 0 <= y < |cur| && 0 <= x < |cur[y]| && prev[y][x] != cur[y][x] :: (y, x)
  }

  lemma {:induction false} PositionsCount(changes: seq<Change>)
    requires Ascending(changes)
    ensures |Positions(changes)| == |changes|
  {
    if changes != [] {
      PositionNotSeen(changes);
      PositionsCount(changes[..|changes| - 1]);
    }
  }

  lemma NamedPositions(changes: seq<Change>, y: nat, x: nat)
    ensures Names(changes, y, x) <==> (y, x) in Positions(changes)
  {
    if i :| 0 <= i < |changes| && changes[i].row == y && changes[i].col == x {
      assert changes[i] in changes && At(changes[i]) == (y, x);
    }
    if (y, x) in Positions(changes) {
      var c :| c in changes && At(c) == (y, x);
      var i :| 0 <= i < |changes| && changes[i] == c;
      assert changes[i].row == y && changes[i].col == x;
    }
  }

  /** As many changes are listed as there are positions where the grids differ. */
  lemma ChangesCount(prev: Grid, cur: Grid, mode: int)
    requires LegalGrid(cur, mode) && SameShape(prev, cur)
    ensures |GridChanges(prev, cur, |cur|)| == |Differing(prev, cur)|
  {
    var changes, w := GridChanges(prev, cur, |cur|), |cur[0]|;
    GridChangesInBounds(prev, cur, |cur|, w, mode);
    PositionsCount(changes);
    forall y, x | 0 <= y < |cur| && 0 <= x < w
      ensures (y, x) in Positions(changes) <==> (y, x) in Differing(prev, cur)
    {
      GridChangesName(prev, cur, |cur|, w, mode, y, x);
      NamedPositions(changes, y, x);
    }
    forall p | p in Positions(changes)
      ensures 0 <= p.0 < |cur| && 0 <= p.1 < w
    {
      var c :| c in changes && At(c) == p;
    }
    assert Positions(changes) == Differing(prev, cur);
  }

  /** No previous grid has this one's size, the interval is over, or more than half of the positions differ. */
  ghost predicate WholeIsDue(prev: Option<Grid>, frameCount: int, keyframeEvery: int, cells: Grid)
    requires |cells| > 0
  {
    || prev.None? || !SameShape(prev.value, cells)
    || frameCount + 1 >= keyframeEvery
    || |Differing(prev.value, cells)| > |cells[0]| * |cells| / 2
  }

  /**
   Exactly when a legal grid is sent whole: when there is no previous grid of its size, when the
   interval is over, or when more than half of the positions differ. Either way it becomes the
   previous grid, and the frames since the last keyframe are counted.
   */
  lemma KeyframeExactly(e: EncoderState, cells: Grid)
    requires ValidEncoder(e) && LegalGrid(cells, e.mode)
    ensures var (next, text) := EncodeStep(e, cells);
            && (IsKeyframe(text) <==> WholeIsDue(e.prev, e.frameCount, e.keyframeEvery, cells))
            && next.prev == Some(cells)
            && next.frameCount == if IsKeyframe(text) then 0 else e.frameCount + 1
  {
    EncodeKind(e, cells);
    if e.prev.Some? && SameShape(e.prev.value, cells) {
      ChangesCount(e.prev.value, cells, e.mode);
    }
  }

  /** The encoder after these grids, and what it prints for the next one. */
  function After(e: EncoderState, grids: seq<Grid>): (r: EncoderState)
    requires ValidEncoder(e)
    ensures ValidEncoder(r) && r.mode == e.mode && r.keyframeEvery == e.keyframeEvery
  {
    if grids == [] then e else EncodeStep(After(e, grids[..|grids| - 1]), grids[|grids| - 1]).0
  }

  function Printed(e: EncoderState, grids: seq<Grid>, i: nat): string
    requires ValidEncoder(e) && i < |grids|
  {
    EncodeStep(After(e, grids[..i]), grids[i]).1
  }

  /** Grid i has the size of the one before and differs from it in at most half the positions. */
  predicate SteadyAt(grids: seq<Grid>, i: nat, mode: int)
    requires i < |grids|
  {
    && LegalGrid(grids[i], mode)
    && (i > 0 ==>
          && SameShape(grids[i - 1], grids[i])
          && |Differing(grids[i - 1], grids[i])| <= |grids[i][0]| * |grids[i]| / 2)
  }

  lemma AfterOneMore(e: EncoderState, grids: seq<Grid>, i: nat)
    requires ValidEncoder(e) && i < |grids|
    ensures After(e, grids[..i + 1]) == EncodeStep(After(e, grids[..i]), grids[i]).0
  {
    assert grids[..i + 1][..i] == grids[..i];
  }

  lemma SteadyStep(e: EncoderState, prev: Grid, cells: Grid)
    requires ValidEncoder(e) && LegalGrid(cells, e.mode) && e.prev == Some(prev) && SameShape(prev, cells)
    requires |Differing(prev, cells)| <= |cells[0]| * |cells| / 2
    ensures var (next, text) := EncodeStep(e, cells);
            && (IsKeyframe(text) <==> e.frameCount + 1 >= e.keyframeEvery) && next.prev == Some(cells)
            && next.frameCount == if e.frameCount + 1 >= e.keyframeEvery then 0 else e.frameCount + 1
  {
    KeyframeExactly(e, cells);
  }

  lemma AtLeastOnce(d: nat, k: int)
    ensures k >= 1 ==> d * k >= d
  {
  }

  lemma RemainderIs(d: nat, q: int, r: nat)
    requires r < d
    ensures (d * q + r) % d == r
  {
    var a := d * q + r;
    var q', r' := a / d, a % d;
    assert a == d * q' + r' && d * (q - q') == d * q - d * q' && d * (q' - q) == d * q' - d * q;
    AtLeastOnce(d, q - q');
    AtLeastOnce(d, q' - q);
  }

  lemma NextRemainder(i: nat, d: nat)
    requires d > 0
    ensures (i + 1) % d == if i % d + 1 == d then 0 else i % d + 1
  {
    var q, r := i / d, i % d;
    assert i == d * q + r && d * (q + 1) == d * q + d;
    if r + 1 == d {
      RemainderIs(d, q + 1, 0);
    } else {
      RemainderIs(d, q, r + 1);
    }
  }

  /**
   Over a whole run from a fresh or reset encoder, a steady picture goes out as a keyframe exactly
   every `keyframeEvery` frames and as deltas in between.
   */
  lemma {:induction false} SteadyStream(e: EncoderState, grids: seq<Grid>, i: nat)
    requires ValidEncoder(e) && e.prev.None? && i < |grids|
    requires forall j :: 0 <= j < |grids| ==> SteadyAt(grids, j, e.mode)
    ensures IsKeyframe(Printed(e, grids, i)) <==> i % e.keyframeEvery == 0
    ensures After(e, grids[..i + 1]).prev == Some(grids[i])
    ensures After(e, grids[..i + 1]).frameCount == i % e.keyframeEvery
  {
    AfterOneMore(e, grids, i);
    assert SteadyAt(grids, i, e.mode);
    if i == 0 {
      KeyframeExactly(e, grids[0]);
      RemainderIs(e.keyframeEvery, 0, 0);
    } else {
      SteadyStream(e, grids, i - 1);
      SteadyStep(After(e, grids[..i]), grids[i - 1], grids[i]);
      NextRemainder(i - 1, e.keyframeEvery);
    }
  }

  // ---------- The encoder object ----------

  method ValidateGrid(cells: Grid, mode: int) returns (r: Result<(int, int)>)
    ensures r.Ok? <==> LegalGrid(cells, mode)
    ensures r.Ok? ==> r.value == (|cells[0]|, |cells|)
  {
    if !ValidMode(mode) || |cells| == 0 {
      return Err(InvalidFrameValue);
    }
    var h, w := |cells|, |cells[0]|;
    if !ValidDimensions(w, h) {
      return Err(FrameTooLarge);
    }
    for y := 0 to h
      invariant forall i :: 0 <= i < y ==> |cells[i]| == w && LegalCells(cells[i], mode)
    {
      if |cells[y]| != w {
        return Err(MalformedFrame);
      }
      var checked := ValidateRow(cells[y], mode);
      if checked.Err? {
        return Err(checked.error);
      }
    }
    return Ok((w, h));
  }

  /** Checks a cell by printing and parsing it, as the decoder will. */
  method ValidateCell(c: Cell, mode: int) returns (r: Result<Cell>)
    ensures r.Ok? <==> LegalCell(c, mode)
  {
    ParsePrintedCellFields(c, mode);
    r := ParseCellFields(Itoa(c.fg), Itoa(c.bg), Itoa(c.ch), mode);
  }

  method ValidateRow(row: seq<Cell>, mode: int) returns (r: Result<()>)
    ensures r.Ok? <==> LegalCells(row, mode)
  {
    for x := 0 to |row|
      invariant forall i :: 0 <= i < x ==> LegalCell(row[i], mode)
    {
      var parsed := ValidateCell(row[x], mode);
      if parsed.Err? {
        return Err(parsed.error);
      }
    }
    return Ok(());
  }

  /** Storing the grid and counting after printing is the encoder's step. */
  lemma StoredIsStep(e: EncoderState, cells: Grid, next: EncoderState, text: string, whole: bool)
    requires ValidEncoder(e) && LegalGrid(cells, e.mode)
    requires whole <==> NeedsKeyframe(e, cells)
    requires text == if whole then KeyframeText(cells, e.mode) else DeltaText(e.w, e.h, Changed(e, cells))
    requires next == e.(prev := Some(cells), w := |cells[0]|, h := |cells|,
                        frameCount := if whole then 0 else e.frameCount + 1)
    ensures (next, text) == EncodeStep(e, cells) && ValidEncoder(next)
    ensures IsKeyframe(text) <==> WholeIsDue(e.prev, e.frameCount, e.keyframeEvery, cells)
  {
    KeyframeExactly(e, cells);
  }

  class DeltaEncoder {
    var prev: Option<Grid>
    var w: int
    var h: int
    var mode: int
    var frameCount: int
    var keyframeEvery: int

    ghost function State(): EncoderState
      reads this
    {
      EncoderState(prev, w, h, mode, frameCount, keyframeEvery)
    }

    ghost predicate Valid()
      reads this
    {
      ValidEncoder(State())
    }

    constructor (mode: int, keyframeInterval: int)
      ensures Valid() && State() == FreshEncoder(mode, keyframeInterval)
      ensures prev == None && keyframeEvery == if keyframeInterval < 1 then 30 else keyframeInterval
    {
      prev, w, h, frameCount := None, 0, 0, 0;
      this.mode := mode;
      keyframeEvery := if keyframeInterval < 1 then 30 else keyframeInterval;
    }

    method Reset()
      requires keyframeEvery >= 1
      modifies this
      ensures Valid() && State() == ResetEncoder(old(State()))
    {
      prev, w, h, frameCount := None, 0, 0, 0;
    }

    method Encode(cells: Grid) returns (text: string)
      requires Valid()
      modifies this
      ensures Valid() && (State(), text) == EncodeStep(old(State()), cells)
      ensures LegalGrid(cells, mode) ==>
                (IsKeyframe(text) <==> WholeIsDue(old(prev), old(frameCount), keyframeEvery, cells))
    {
      var size := ValidateGrid(cells, mode);
      if size.Err? {
        return "";
      }
      text := EncodeLegal(cells, size.value.0, size.value.1);
    }

    method EncodeLegal(cells: Grid, width: int, height: int) returns (text: string)
      requires Valid() && LegalGrid(cells, mode) && width == |cells[0]| && height == |cells|
      modifies this
      ensures Valid() && keyframeEvery == old(keyframeEvery) && mode == old(mode)
      ensures (State(), text) == EncodeStep(old(State()), cells)
      ensures IsKeyframe(text) <==> WholeIsDue(old(prev), old(frameCount), old(keyframeEvery), cells)
    {
      ghost var before := State();
      var whole;
      text, whole := PrintFrame(cells, width, height);
      frameCount := if whole then 0 else frameCount + 1;
      prev, w, h := Some(cells), width, height;
      StoredIsStep(before, cells, State(), text, whole);
    }

    /** The text for a legal grid: a delta if one is due and small enough, or else a keyframe. */
    method PrintFrame(cells: Grid, width: int, height: int) returns (text: string, whole: bool)
      requires Valid() && LegalGrid(cells, mode) && width == |cells[0]| && height == |cells|
      ensures whole <==> NeedsKeyframe(State(), cells)
      ensures text == if whole then KeyframeText(cells, mode) else DeltaText(w, h, Changed(State(), cells))
    {
      whole := prev == None || w != width || h != height || frameCount + 1 >= keyframeEvery;
      if !whole {
        text := EncodeDelta(prev.value, cells, mode);
        whole := text == "";
      }
      if whole {
        text := EncodeKeyframe(cells, mode);
      }
    }
  }

  method EncodeKeyframe(cells: Grid, mode: int) returns (text: string)
    requires |cells| > 0
    ensures text == KeyframeText(cells, mode)
  {
    var body := "";
    for y := 0 to |cells|
      invariant body == Lines(RowTexts(cells[..y]))
    {
      var line := EncodeRow(cells[y]);
      RowTextsSnoc(cells, y);
      body := body + line + "\n";
    }
    assert cells[..|cells|] == cells;
    var header := EncodeHeader("K", |cells[0]|, |cells|, mode);
    text := header + body;
  }

  method EncodeHeader(kind: string, a: int, b: int, c: int) returns (line: string)
    ensures line == Header(kind, a, b, c) + "\n"
  {
    HeaderText(kind, a, b, c);
    line := kind + " " + Itoa(a) + " " + Itoa(b) + " " + Itoa(c) + "\n";
  }

  method EncodeRow(row: seq<Cell>) returns (line: string)
    ensures line == RowText(row)
  {
    line := "";
    for x := 0 to |row|
      invariant line == RowText(row[..x])
    {
      var cell := row[x];
      RowTextSnoc(row, x);
      CellTextPrinted(cell);
      line := line + (if x > 0 then ";" else "") + (Itoa(cell.fg) + "," + Itoa(cell.bg) + "," + Itoa(cell.ch));
    }
    assert row[..|row|] == row;
  }

  lemma RowTextSnoc(row: seq<Cell>, x: nat)
    requires x < |row|
    ensures RowText(row[..x + 1]) == RowText(row[..x]) + (if x > 0 then ";" else "") + CellText(row[x])
  {
    assert CellTexts(row[..x + 1]) == CellTexts(row[..x]) + [CellText(row[x])];
    JoinSnoc(CellTexts(row[..x]), CellText(row[x]), ';');
  }

  lemma RowTextsSnoc(cells: Grid, y: nat)
    requires y < |cells|
    ensures Lines(RowTexts(cells[..y + 1])) == Lines(RowTexts(cells[..y])) + RowText(cells[y]) + "\n"
  {
    assert RowTexts(cells[..y + 1]) == RowTexts(cells[..y]) + [RowText(cells[y])];
    LinesSnoc(RowTexts(cells[..y]), RowText(cells[y]));
  }

  lemma ChangeTextsSnoc(changes: seq<Change>, c: Change)
    ensures Lines(ChangeTexts(changes + [c])) == Lines(ChangeTexts(changes)) + ChangeText(c) + "\n"
  {
    assert ChangeTexts(changes + [c]) == ChangeTexts(changes) + [ChangeText(c)];
    LinesSnoc(ChangeTexts(changes), ChangeText(c));
  }

  method EncodeChange(y: nat, x: nat, cell: Cell) returns (line: string)
    ensures line == ChangeText(Change(y, x, cell))
  {
    ChangeTextPrinted(Change(y, x, cell));
    line := Itoa(y) + " " + Itoa(x) + " " + Itoa(cell.fg) + " " + Itoa(cell.bg) + " " + Itoa(cell.ch);
  }

  method EncodeRowChanges(prev: seq<Cell>, row: seq<Cell>, y: nat) returns (text: string, count: nat)
    requires |prev| == |row|
    ensures text == Lines(ChangeTexts(RowChanges(prev, row, y, |row|)))
    ensures count == |RowChanges(prev, row, y, |row|)|
  {
    text, count := "", 0;
    for x := 0 to |row|
      invariant text == Lines(ChangeTexts(RowChanges(prev, row, y, x)))
      invariant count == |RowChanges(prev, row, y, x)|
    {
      var cell := row[x];
      if cell != prev[x] {
        var line := EncodeChange(y, x, cell);
        ChangeTextsSnoc(RowChanges(prev, row, y, x), Change(y, x, cell));
        text := text + line + "\n";
        count := count + 1;
      }
    }
  }

  lemma ChangeTextsOfBoth(a: seq<Change>, b: seq<Change>)
    ensures ChangeTexts(a + b) == ChangeTexts(a) + ChangeTexts(b)
  {
  }

  lemma ChangeTextsAppend(a: seq<Change>, b: seq<Change>)
    ensures Lines(ChangeTexts(a + b)) == Lines(ChangeTexts(a)) + Lines(ChangeTexts(b))
  {
    ChangeTextsOfBoth(a, b);
    LinesAppend(ChangeTexts(a), ChangeTexts(b));
  }

  method EncodeChanges(prev: Grid, cells: Grid) returns (text: string, count: nat)
    requires SameShape(prev, cells)
    ensures text == Lines(ChangeTexts(GridChanges(prev, cells, |cells|)))
    ensures count == |GridChanges(prev, cells, |cells|)|
  {
    text, count := "", 0;
    for y := 0 to |cells|
      invariant text == Lines(ChangeTexts(GridChanges(prev, cells, y)))
      invariant count == |GridChanges(prev, cells, y)|
    {
      var rowText, rowCount := EncodeRowChanges(prev[y], cells[y], y);
      ChangeTextsAppend(GridChanges(prev, cells, y), RowChanges(prev[y], cells[y], y, |cells[y]|));
      text, count := text + rowText, count + rowCount;
    }
  }

  /** The delta of (prev, cells), or "" when more than half of the cells changed. */
  method EncodeDelta(prev: Grid, cells: Grid, mode: int) returns (text: string)
    requires LegalGrid(cells, mode) && SameShape(prev, cells)
    ensures var changes := GridChanges(prev, cells, |cells|);
            text == if |changes| > |cells[0]| * |cells| / 2 then "" else DeltaText(|cells[0]|, |cells|, changes)
    ensures text == "" <==> |GridChanges(prev, cells, |cells|)| > |cells[0]| * |cells| / 2
  {
    var h, w := |cells|, |cells[0]|;
    var changes, count := EncodeChanges(prev, cells);
    if count > w * h / 2 {
      return "";
    }
    var header := EncodeHeader("D", w, h, count);
    text := header + changes;
  }
}
