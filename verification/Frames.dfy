/**
 The text of video frames: what the encoder prints for a grid of cells and what the decoder
 reads back. Everything here is a function of values; DeltaCodec and DeltaReader hold the stateful objects.
 */
module Frames {
  import opened Wrappers
  import opened Text

  const MAX_FRAME_WIDTH := 100
  const MAX_FRAME_HEIGHT := 30
  const MAX_FRAME_CELLS := MAX_FRAME_WIDTH * MAX_FRAME_HEIGHT
  const MAX_ENCODED_FRAME_BYTES := 128 * 1024

  const MODE_ASCII := 0
  const MODE_COLOR256 := 1
  const MODE_HALF_BLOCK := 2

  type Byte = b: int | 0 <= b < 256

  datatype Cell = Cell(ch: Byte, fg: int, bg: int)
  type Grid = seq<seq<Cell>>
  datatype Change = Change(row: nat, col: nat, cell: Cell)

  datatype FrameError =
    | FrameTooLarge
    | MalformedFrame
    | UnsupportedFrame
    | MissingKeyframe
    | InvalidFrameValue

  datatype Result<+T> = Ok(value: T) | Err(error: FrameError) {
    predicate IsFailure() {
      Err?
    }

    function PropagateFailure<U>(): Result<U>
      requires Err?
    {
      Err(error)
    }

    function Extract(): T
      requires Ok?
    {
      value
    }
  }

  // ---------- Legal grids ----------

  predicate ValidMode(mode: int) {
    MODE_ASCII <= mode <= MODE_HALF_BLOCK
  }

  predicate ValidDimensions(w: int, h: int) {
    0 < w <= MAX_FRAME_WIDTH && 0 < h <= MAX_FRAME_HEIGHT && w * h <= MAX_FRAME_CELLS
  }

  predicate LegalCell(c: Cell, mode: int) {
    && -1 <= c.fg <= 255
    && -1 <= c.bg <= 255
    && (32 <= c.ch <= 126 || (c.ch == 0 && mode == MODE_HALF_BLOCK))
  }

  predicate Rectangular(g: Grid, w: int, h: int) {
    |g| == h && forall y :: 0 <= y < h ==> |g[y]| == w
  }

  predicate LegalCells(row: seq<Cell>, mode: int) {
    forall x :: 0 <= x < |row| ==> LegalCell(row[x], mode)
  }

  /** The grids that the encoder prints and the decoder holds. */
  predicate LegalGrid(g: Grid, mode: int) {
    && ValidMode(mode)
    && |g| > 0
    && ValidDimensions(|g[0]|, |g|)
    && Rectangular(g, |g[0]|, |g|)
    && forall y :: 0 <= y < |g| ==> LegalCells(g[y], mode)
  }

  /** The legal grids, in numbers: up to 100 by 30, colours -1 to 255, printable characters or, with half blocks, 0. */
  lemma LegalExactly(g: Grid, mode: int)
    ensures LegalGrid(g, mode) <==>
              && (mode == 0 || mode == 1 || mode == 2)
              && 1 <= |g| <= 30 && 1 <= |g[0]| <= 100
              && forall y :: 0 <= y < |g| ==>
                   && |g[y]| == |g[0]|
                   && forall x :: 0 <= x < |g[y]| ==>
                        && -1 <= g[y][x].fg <= 255 && -1 <= g[y][x].bg <= 255
                        && (32 <= g[y][x].ch <= 126 || (g[y][x].ch == 0 && mode == 2))
  {
    if 1 <= |g| <= 30 && 1 <= |g[0]| <= 100 {
      AreaWithin(|g[0]|, |g|);
    }
  }

  lemma AreaWithin(w: nat, h: nat)
    requires w <= 100 && h <= 30
    ensures w * h <= 3000
  {
    assert w * h <= 100 * h;
  }

  // ---------- Printing ----------

  function CellFields(c: Cell): (fields: seq<string>)
    ensures |fields| == 3
  {
    [Itoa(c.fg), Itoa(c.bg), Itoa(c.ch)]
  }

  function CellText(c: Cell): string {
    Join(CellFields(c), ',')
  }

  function CellTexts(row: seq<Cell>): (texts: seq<string>)
    ensures |texts| == |row|
  {
    seq(|row|, x requires 0 <= x < |row| => CellText(row[x]))
  }

  function RowText(row: seq<Cell>): string {
    Join(CellTexts(row), ';')
  }

  function RowTexts(g: Grid): (texts: seq<string>)
    ensures |texts| == |g|
  {
    seq(|g|, y requires 0 <= y < |g| => RowText(g[y]))
  }

  function Header(kind: string, a: int, b: int, c: int): string {
    Join([kind, Itoa(a), Itoa(b), Itoa(c)], ' ')
  }

  function KeyframeText(g: Grid, mode: int): string
    requires |g| > 0
  {
    Header("K", |g[0]|, |g|, mode) + "\n" + Lines(RowTexts(g))
  }

  function ChangeFields(c: Change): (fields: seq<string>)
    ensures |fields| == 5
  {
    [Itoa(c.row), Itoa(c.col)] + CellFields(c.cell)
  }

  function ChangeText(c: Change): string {
    Join(ChangeFields(c), ' ')
  }

  function ChangeTexts(changes: seq<Change>): (texts: seq<string>)
    ensures |texts| == |changes|
  {
    seq(|changes|, i requires 0 <= i < |changes| => ChangeText(changes[i]))
  }

  function DeltaText(w: int, h: int, changes: seq<Change>): string {
    Header("D", w, h, |changes|) + "\n" + Lines(ChangeTexts(changes))
  }

  /** The changed cells among the first `n` of row `y`, in order. */
  function RowChanges(prev: seq<Cell>, cur: seq<Cell>, y: nat, n: nat): seq<Change>
    requires n <= |prev| && n <= |cur|
  {
    if n == 0 then []
    else if cur[n - 1] == prev[n - 1] then RowChanges(prev, cur, y, n - 1)
    else RowChanges(prev, cur, y, n - 1) + [Change(y, n - 1, cur[n - 1])]
  }

  predicate SameShape(a: Grid, b: Grid) {
    |a| == |b| && forall y :: 0 <= y < |a| ==> |a[y]| == |b[y]|
  }

  /** The changed cells of the first `n` rows, in row-major order. */
  function GridChanges(prev: Grid, cur: Grid, n: nat): seq<Change>
    requires SameShape(prev, cur) && n <= |cur|
  {
    if n == 0 then []
    else GridChanges(prev, cur, n - 1) + RowChanges(prev[n - 1], cur[n - 1], n - 1, |cur[n - 1]|)
  }

  // ---------- Parsing ----------

  function ParseInt(s: string): Result<int> {
    match Atoi(s)
    case Some(v) => Ok(v)
    case None => Err(MalformedFrame)
  }

  function ParseCellFields(fgText: string, bgText: string, chText: string, mode: int): (r: Result<Cell>)
    ensures r.Ok? ==> LegalCell(r.value, mode)
  {
    var fg :- ParseInt(fgText);
    var bg :- ParseInt(bgText);
    var ch :- ParseInt(chText);
    if fg < -1 || fg > 255 || bg < -1 || bg > 255 then Err(InvalidFrameValue)
    else if ch < 0 || ch > 126 then Err(InvalidFrameValue)
    else if ch != 0 && ch < 32 then Err(InvalidFrameValue)
    else if ch == 0 && mode != MODE_HALF_BLOCK then Err(InvalidFrameValue)
    else Ok(Cell(ch, fg, bg))
  }

  function ParseCell(encoded: string, mode: int): (r: Result<Cell>)
    ensures r.Ok? ==> LegalCell(r.value, mode)
  {
    var fields := Split(encoded, ',');
    if |fields| != 3 then Err(MalformedFrame)
    else ParseCellFields(fields[0], fields[1], fields[2], mode)
  }

  /** The values of the items, or the error of the first item that cannot be read. */
  function ReadAll<T>(items: seq<string>, read: string -> Result<T>): (r: Result<seq<T>>)
    ensures r.Ok? ==> |r.value| == |items|
  {
    if items == [] then Ok([])
    else
      var front :- ReadAll(items[..|items| - 1], read);
      var last :- read(items[|items| - 1]);
      Ok(front + [last])
  }

  function CellReader(mode: int): string -> Result<Cell> {
    encoded => ParseCell(encoded, mode)
  }

  function ParseRow(line: string, w: int, mode: int): (r: Result<seq<Cell>>)
    ensures r.Ok? ==> |r.value| == w
  {
    var encoded := Split(line, ';');
    if |encoded| != w then Err(MalformedFrame) else ReadAll(encoded, CellReader(mode))
  }

  function RowReader(w: int, mode: int): string -> Result<seq<Cell>> {
    line => ParseRow(line, w, mode)
  }

  function ParseRows(lines: seq<string>, w: int, mode: int): (r: Result<Grid>)
    ensures r.Ok? ==> |r.value| == |lines|
  {
    ReadAll(lines, RowReader(w, mode))
  }

  function PayloadLines(body: string): seq<string> {
    Split(TrimNewline(body), '\n')
  }

  /** The four fields of the first line and the text after it. */
  function ParseHeader(data: string, kind: string): Result<(int, int, int, string)> {
    match IndexOf(data, '\n')
    case None => Err(MalformedFrame)
    case Some(newline) =>
      var fields := Fields(data[..newline]);
      if |fields| != 4 || fields[0] != kind then Err(MalformedFrame)
      else
        var a :- ParseInt(fields[1]);
        var b :- ParseInt(fields[2]);
        var c :- ParseInt(fields[3]);
        Ok((a, b, c, data[newline + 1..]))
  }

  /** What a decoder holds. Until the first keyframe `has` is false and the grid is empty. */
  datatype DecoderState = DecoderState(grid: Grid, w: int, h: int, mode: int, has: bool)

  const FRESH_DECODER := DecoderState([], 0, 0, 0, false)

  predicate ValidDecoder(d: DecoderState) {
    if d.has then LegalGrid(d.grid, d.mode) && d.h == |d.grid| && d.w == |d.grid[0]|
    else d == FRESH_DECODER
  }

  function Holding(g: Grid, mode: int): DecoderState {
    DecoderState(g, if |g| == 0 then 0 else |g[0]|, |g|, mode, true)
  }

  /** The size, mode and row lines that a keyframe announces, if they are acceptable. */
  function KeyframePlan(data: string): (r: Result<(int, int, int, seq<string>)>)
    ensures r.Ok? ==> ValidDimensions(r.value.0, r.value.1) && ValidMode(r.value.2) && |r.value.3| == r.value.1
  {
    var (w, h, mode, body) :- ParseHeader(data, "K");
    if !ValidDimensions(w, h) then Err(FrameTooLarge)
    else if !ValidMode(mode) then Err(InvalidFrameValue)
    else
      var lines := PayloadLines(body);
      if |lines| != h then Err(MalformedFrame) else Ok((w, h, mode, lines))
  }

  function ParseKeyframe(data: string): Result<DecoderState> {
    var (w, h, mode, lines) :- KeyframePlan(data);
    var grid :- ParseRows(lines, w, mode);
    Ok(DecoderState(grid, w, h, mode, true))
  }

  function SetCell(g: Grid, c: Change): (r: Grid)
    requires c.row < |g| && c.col < |g[c.row]|
    ensures SameShape(r, g)
  {
    g[c.row := g[c.row][c.col := c.cell]]
  }

  function ParseChange(line: string, w: int, h: int, mode: int, seen: set<Position>): (r: Result<Change>)
    ensures r.Ok? ==> r.value.row < h && r.value.col < w && LegalCell(r.value.cell, mode)
    ensures r.Ok? ==> (r.value.row, r.value.col) !in seen
  {
    var fields := Fields(line);
    ParseChangeFields(fields, w, h, mode, seen)
  }

  function ParseChangeFields(fields: seq<string>, w: int, h: int, mode: int, seen: set<Position>): (r: Result<Change>)
    ensures r.Ok? ==> r.value.row < h && r.value.col < w && LegalCell(r.value.cell, mode)
    ensures r.Ok? ==> (r.value.row, r.value.col) !in seen
  {
    if |fields| != 5 then Err(MalformedFrame)
    else
      var row :- ParseInt(fields[0]);
      var col :- ParseInt(fields[1]);
      if row < 0 || row >= h || col < 0 || col >= w then Err(InvalidFrameValue)
      else if (row, col) in seen then Err(MalformedFrame)
      else
        var cell :- ParseCellFields(fields[2], fields[3], fields[4], mode);
        Ok(Change(row, col, cell))
  }

  type Position = (int, int)

  function At(c: Change): Position {
    (c.row, c.col)
  }

  /** The changes of the lines and the positions they take, or the error of the first bad line. */
  function ReadChanges(lines: seq<string>, read: (string, set<Position>) -> Result<Change>)
    : (r: Result<(seq<Change>, set<Position>)>)
    ensures r.Ok? ==> |r.value.0| == |lines|
  {
    if lines == [] then Ok(([], {}))
    else
      var (front, seen) :- ReadChanges(lines[..|lines| - 1], read);
      var change :- read(lines[|lines| - 1], seen);
      Ok((front + [change], seen + {At(change)}))
  }

  function ChangeReader(w: int, h: int, mode: int): (string, set<Position>) -> Result<Change> {
    (line, seen) => ParseChange(line, w, h, mode, seen)
  }

  function ParseChanges(lines: seq<string>, w: int, h: int, mode: int): (r: Result<(seq<Change>, set<Position>)>)
    ensures r.Ok? ==> InBounds(r.value.0, w, h) && LegalChanges(r.value.0, mode)
  {
    ReadChangesHold(lines, ChangeReader(w, h, mode), w, h, mode);
    ReadChanges(lines, ChangeReader(w, h, mode))
  }

  lemma {:induction false} ReadChangesHold(
      lines: seq<string>, read: (string, set<Position>) -> Result<Change>, w: int, h: int, mode: int)
    requires forall line, seen :: read(line, seen).Ok? ==>
               && read(line, seen).value.row < h && read(line, seen).value.col < w
               && LegalCell(read(line, seen).value.cell, mode)
    ensures var r := ReadChanges(lines, read);
            r.Ok? ==> InBounds(r.value.0, w, h) && LegalChanges(r.value.0, mode)
  {
    if lines != [] {
      ReadChangesHold(lines[..|lines| - 1], read, w, h, mode);
    }
  }

  predicate InBounds(changes: seq<Change>, w: int, h: int) {
    forall i :: 0 <= i < |changes| ==> changes[i].row < h && changes[i].col < w
  }

  function Apply(g: Grid, changes: seq<Change>, w: int): (r: Grid)
    requires Rectangular(g, w, |g|) && InBounds(changes, w, |g|)
    ensures Rectangular(r, w, |g|)
  {
    if changes == [] then g
    else SetCell(Apply(g, changes[..|changes| - 1], w), changes[|changes| - 1])
  }

  function DeltaLines(body: string, count: int): seq<string> {
    var lines := PayloadLines(body);
    if count == 0 && lines == [""] then [] else lines
  }

  /** The change lines of a delta for a decoder of size w by h, if they are acceptable. */
  function DeltaPlan(data: string, has: bool, w: int, h: int): Result<seq<string>> {
    var (w', h', count, body) :- ParseHeader(data, "D");
    if !ValidDimensions(w', h') then Err(FrameTooLarge)
    else if count < 0 || count > w' * h' then Err(InvalidFrameValue)
    else if !has || w != w' || h != h' then Err(MissingKeyframe)
    else
      var lines := DeltaLines(body, count);
      if |lines| != count then Err(MalformedFrame) else Ok(lines)
  }

  function ParseDelta(d: DecoderState, data: string): Result<DecoderState>
    requires ValidDecoder(d)
  {
    var lines :- DeltaPlan(data, d.has, d.w, d.h);
    var (changes, _) :- ParseChanges(lines, d.w, d.h, d.mode);
    Ok(d.(grid := Apply(d.grid, changes, d.w)))
  }

  /** The decoder after reading `data`, or the error that leaves it as it was. */
  function Decode(d: DecoderState, data: string): Result<DecoderState>
    requires ValidDecoder(d)
  {
    if |data| == 0 then Err(MalformedFrame)
    else if |data| > MAX_ENCODED_FRAME_BYTES then Err(FrameTooLarge)
    else if data[0] == 'K' then ParseKeyframe(data)
    else if data[0] == 'D' then ParseDelta(d, data)
    else Err(UnsupportedFrame)
  }

  // ---------- Applying changes ----------

  lemma {:induction false} ApplyKeepsLegal(g: Grid, changes: seq<Change>, w: int, mode: int)
    requires Rectangular(g, w, |g|) && InBounds(changes, w, |g|)
    requires forall y :: 0 <= y < |g| ==> LegalCells(g[y], mode)
    requires forall i :: 0 <= i < |changes| ==> LegalCell(changes[i].cell, mode)
    ensures forall y :: 0 <= y < |g| ==> LegalCells(Apply(g, changes, w)[y], mode)
  {
    if changes != [] {
      ApplyKeepsLegal(g, changes[..|changes| - 1], w, mode);
    }
  }

  lemma {:induction false} ReadAllEach<T>(items: seq<string>, read: string -> Result<T>)
    requires ReadAll(items, read).Ok?
    ensures forall i :: 0 <= i < |items| ==> read(items[i]) == Ok(ReadAll(items, read).value[i])
  {
    if items != [] {
      ReadAllEach(items[..|items| - 1], read);
    }
  }

  lemma ParsedRowLegal(line: string, w: int, mode: int)
    requires ParseRow(line, w, mode).Ok?
    ensures LegalCells(ParseRow(line, w, mode).value, mode)
  {
    var encoded, read := Split(line, ';'), CellReader(mode);
    ReadAllEach(encoded, read);
    forall x | 0 <= x < w
      ensures LegalCell(ParseRow(line, w, mode).value[x], mode)
    {
      assert read(encoded[x]) == ParseCell(encoded[x], mode);
    }
  }

  lemma ParsedRowsLegal(lines: seq<string>, w: int, mode: int)
    requires ParseRows(lines, w, mode).Ok?
    ensures var g := ParseRows(lines, w, mode).value;
            forall y :: 0 <= y < |g| ==> |g[y]| == w && LegalCells(g[y], mode)
  {
    var g, read := ParseRows(lines, w, mode).value, RowReader(w, mode);
    ReadAllEach(lines, read);
    forall y | 0 <= y < |g|
      ensures |g[y]| == w && LegalCells(g[y], mode)
    {
      assert read(lines[y]) == ParseRow(lines[y], w, mode);
      ParsedRowLegal(lines[y], w, mode);
    }
  }

  /** A keyframe that parses gives a valid decoder state. */
  lemma ParsedKeyframeValid(data: string)
    requires ParseKeyframe(data).Ok?
    ensures ParseKeyframe(data).value.has && ValidDecoder(ParseKeyframe(data).value)
  {
    var (w, h, mode, lines) := KeyframePlan(data).value;
    ParsedRowsLegal(lines, w, mode);
  }

  /** Whatever the bytes are, a decoder that accepts them holds a legal grid of a legal size. */
  lemma DecodeKeepsValid(d: DecoderState, data: string)
    requires ValidDecoder(d)
    ensures Decode(d, data).Ok? ==> Decode(d, data).value.has && ValidDecoder(Decode(d, data).value)
    ensures Decode(d, data).Ok? && data[0] == 'D' ==>
              Decode(d, data).value == d.(grid := Decode(d, data).value.grid)
  {
    var r := Decode(d, data);
    if r.Ok? && data[0] == 'K' {
      ParsedKeyframeValid(data);
    } else if r.Ok? {
      var lines := DeltaPlan(data, d.has, d.w, d.h).value;
      var (changes, _) := ParseChanges(lines, d.w, d.h, d.mode).value;
      ApplyKeepsLegal(d.grid, changes, d.w, d.mode);
    }
  }

  /** `cur` where it differs from `prev`, and `base` elsewhere. */
  function Overlay(base: Grid, prev: Grid, cur: Grid): (r: Grid)
    requires SameShape(base, cur) && SameShape(prev, cur)
    ensures SameShape(r, cur)
  {
    seq(|cur|, y requires 0 <= y < |cur| => OverlayRow(base[y], prev[y], cur[y]))
  }

  function OverlayRow(base: seq<Cell>, prev: seq<Cell>, cur: seq<Cell>): (r: seq<Cell>)
    requires |base| == |prev| == |cur|
    ensures |r| == |cur|
  {
    seq(|cur|, x requires 0 <= x < |cur| => if cur[x] == prev[x] then base[x] else cur[x])
  }

  lemma {:induction false} RowChangesInBounds(prev: seq<Cell>, cur: seq<Cell>, y: nat, n: nat, mode: int)
    requires n <= |prev| && n <= |cur| && LegalCells(cur, mode)
    ensures |RowChanges(prev, cur, y, n)| <= n
    ensures forall i :: 0 <= i < |RowChanges(prev, cur, y, n)| ==>
              var c := RowChanges(prev, cur, y, n)[i];
              c.row == y && c.col < n && c.cell == cur[c.col] && LegalCell(c.cell, mode)
    ensures forall i, j :: 0 <= i < j < |RowChanges(prev, cur, y, n)| ==>
              RowChanges(prev, cur, y, n)[i].col < RowChanges(prev, cur, y, n)[j].col
  {
    if n > 0 {
      RowChangesInBounds(prev, cur, y, n - 1, mode);
    }
  }

  /** Row-major order of the positions that a delta names. */
  predicate Before(a: Change, b: Change) {
    a.row < b.row || (a.row == b.row && a.col < b.col)
  }

  predicate Ascending(changes: seq<Change>) {
    forall i, j :: 0 <= i < j < |changes| ==> Before(changes[i], changes[j])
  }

  predicate LegalChanges(changes: seq<Change>, mode: int) {
    forall i :: 0 <= i < |changes| ==> LegalCell(changes[i].cell, mode)
  }

  lemma {:induction false} GridChangesInBounds(prev: Grid, cur: Grid, n: nat, w: nat, mode: int)
    requires SameShape(prev, cur) && n <= |cur| && Rectangular(cur, w, |cur|)
    requires forall y :: 0 <= y < |cur| ==> LegalCells(cur[y], mode)
    ensures InBounds(GridChanges(prev, cur, n), w, n)
    ensures LegalChanges(GridChanges(prev, cur, n), mode)
    ensures Ascending(GridChanges(prev, cur, n))
    ensures |GridChanges(prev, cur, n)| <= n * w
  {
    if n > 0 {
      GridChangesInBounds(prev, cur, n - 1, w, mode);
      RowChangesInBounds(prev[n - 1], cur[n - 1], n - 1, w, mode);
      assert n * w == (n - 1) * w + w;
    }
  }

  predicate Names(changes: seq<Change>, y: int, x: int) {
    exists i :: 0 <= i < |changes| && changes[i].row == y && changes[i].col == x
  }

  /** Applying changes that agree on a position gives it their value, and leaves it alone if they do not name it. */
  lemma {:induction false} ApplyAt(g: Grid, changes: seq<Change>, w: int, y: int, x: int, v: Cell)
    requires Rectangular(g, w, |g|) && InBounds(changes, w, |g|)
    requires 0 <= y < |g| && 0 <= x < w
    requires forall i :: 0 <= i < |changes| && changes[i].row == y && changes[i].col == x ==> changes[i].cell == v
    ensures Apply(g, changes, w)[y][x] == if Names(changes, y, x) then v else g[y][x]
  {
    if changes != [] {
      var front, c := changes[..|changes| - 1], changes[|changes| - 1];
      ApplyAt(g, front, w, y, x, v);
      assert Names(front, y, x) ==> Names(changes, y, x);
      if c.row == y && c.col == x {
        assert changes[|changes| - 1].row == y;
      } else if Names(changes, y, x) {
        var i :| 0 <= i < |changes| && changes[i].row == y && changes[i].col == x;
        assert front[i].row == y && front[i].col == x;
      }
    }
  }

  lemma {:induction false} RowChangesName(prev: seq<Cell>, cur: seq<Cell>, y: nat, n: nat, x: nat)
    requires n <= |prev| == |cur| && x < |cur|
    ensures Names(RowChanges(prev, cur, y, n), y, x) <==> x < n && cur[x] != prev[x]
  {
    if n > 0 {
      RowChangesName(prev, cur, y, n - 1, x);
      var last := [Change(y, n - 1, cur[n - 1])];
      NamesAppend(RowChanges(prev, cur, y, n - 1), last, y, x);
      assert last[0].row == y && last[0].col == n - 1;
    }
  }

  lemma NamesAppend(a: seq<Change>, b: seq<Change>, y: int, x: int)
    ensures Names(a + b, y, x) <==> Names(a, y, x) || Names(b, y, x)
  {
    if Names(a, y, x) {
      var i :| 0 <= i < |a| && a[i].row == y && a[i].col == x;
      assert (a + b)[i] == a[i];
    }
    if Names(b, y, x) {
      var i :| 0 <= i < |b| && b[i].row == y && b[i].col == x;
      assert (a + b)[|a| + i] == b[i];
    }
  }

  /** The changes of (prev, cur) name exactly the positions where the two differ, and carry cur's cells. */
  lemma {:induction false} GridChangesName(prev: Grid, cur: Grid, n: nat, w: nat, mode: int, y: nat, x: nat)
    requires SameShape(prev, cur) && n <= |cur| && Rectangular(cur, w, |cur|) && y < |cur| && x < w
    requires forall y :: 0 <= y < |cur| ==> LegalCells(cur[y], mode)
    ensures Names(GridChanges(prev, cur, n), y, x) <==> y < n && cur[y][x] != prev[y][x]
    ensures forall i :: 0 <= i < |GridChanges(prev, cur, n)| ==>
              var c := GridChanges(prev, cur, n)[i];
              c.row < n && c.col < w && c.cell == cur[c.row][c.col]
  {
    if n > 0 {
      GridChangesName(prev, cur, n - 1, w, mode, y, x);
      var row := RowChanges(prev[n - 1], cur[n - 1], n - 1, w);
      NamesAppend(GridChanges(prev, cur, n - 1), row, y, x);
      RowChangesInBounds(prev[n - 1], cur[n - 1], n - 1, w, mode);
      if y == n - 1 {
        RowChangesName(prev[y], cur[y], y, w, x);
      }
    }
  }

  lemma ApplyGridChanges(base: Grid, prev: Grid, cur: Grid, w: nat, mode: int)
    requires SameShape(base, cur) && SameShape(prev, cur) && Rectangular(cur, w, |cur|)
    requires forall y :: 0 <= y < |cur| ==> LegalCells(cur[y], mode)
    ensures InBounds(GridChanges(prev, cur, |cur|), w, |base|)
    ensures Apply(base, GridChanges(prev, cur, |cur|), w) == Overlay(base, prev, cur)
  {
    var changes := GridChanges(prev, cur, |cur|);
    GridChangesInBounds(prev, cur, |cur|, w, mode);
    var r := Apply(base, changes, w);
    var over := Overlay(base, prev, cur);
    forall y, x | 0 <= y < |cur| && 0 <= x < w
      ensures r[y][x] == over[y][x]
    {
      GridChangesName(prev, cur, |cur|, w, mode, y, x);
      ApplyAt(base, changes, w, y, x, cur[y][x]);
    }
    SameCells(r, over, w);
  }

  lemma SameCells(a: Grid, b: Grid, w: int)
    requires Rectangular(a, w, |b|) && Rectangular(b, w, |b|)
    requires forall y, x :: 0 <= y < |b| && 0 <= x < w ==> a[y][x] == b[y][x]
    ensures a == b
  {
    forall y | 0 <= y < |b|
      ensures a[y] == b[y]
    {
    }
  }

  // ---------- Round trips ----------

  lemma ParseIntInverse(n: int)
    requires Fits64(n)
    ensures ParseInt(Itoa(n)) == Ok(n)
  {
    AtoiInverse(n);
  }

  /**
   Reading back a printed cell gives the cell when it is legal for the mode and fails otherwise,
   with a value error if its numbers fit in 64 bits.
   */
  lemma ParsePrintedCellFields(c: Cell, mode: int)
    ensures ParseCellFields(Itoa(c.fg), Itoa(c.bg), Itoa(c.ch), mode)
         == if LegalCell(c, mode) then Ok(c)
            else if Fits64(c.fg) && Fits64(c.bg) then Err(InvalidFrameValue)
            else Err(MalformedFrame)
  {
    AtoiInverse(c.fg);
    AtoiInverse(c.bg);
    AtoiInverse(c.ch);
  }

  lemma ParsePrintedCell(c: Cell, mode: int)
    requires LegalCell(c, mode)
    ensures ParseCell(CellText(c), mode) == Ok(c)
  {
    SplitJoin(CellFields(c), ',');
    ParsePrintedCellFields(c, mode);
  }

  lemma CellTextFree(c: Cell, sep: char)
    requires sep == ';' || sep == '\n'
    ensures sep !in CellText(c)
  {
    JoinFree(CellFields(c), ',', sep);
  }

  lemma {:induction false} ReadAllOk<T>(items: seq<string>, values: seq<T>, read: string -> Result<T>)
    requires |items| == |values|
    requires forall i :: 0 <= i < |items| ==> read(items[i]) == Ok(values[i])
    ensures ReadAll(items, read) == Ok(values)
  {
    if items != [] {
      var n := |items| - 1;
      ReadAllOk(items[..n], values[..n], read);
      assert values == values[..n] + [values[n]];
    }
  }

  lemma ReadAllGood<T>(items: seq<string>, read: string -> Result<T>)
    requires forall i :: 0 <= i < |items| ==> read(items[i]).Ok?
    ensures ReadAll(items, read).Ok?
    ensures forall i :: 0 <= i < |items| ==> read(items[i]) == Ok(ReadAll(items, read).value[i])
  {
    var values := seq(|items|, i requires 0 <= i < |items| => read(items[i]).value);
    ReadAllOk(items, values, read);
  }

  lemma {:induction false} ReadAllErr<T>(items: seq<string>, n: nat, read: string -> Result<T>)
    requires n < |items| && read(items[n]).Err?
    requires forall i :: 0 <= i < n ==> read(items[i]).Ok?
    ensures ReadAll(items, read) == Err(read(items[n]).error)
  {
    var front := items[..|items| - 1];
    if n < |items| - 1 {
      ReadAllErr(front, n, read);
    } else {
      var values := seq(n, i requires 0 <= i < n => read(items[i]).value);
      ReadAllOk(front, values, read);
    }
  }

  lemma ParsePrintedRow(row: seq<Cell>, mode: int)
    requires |row| > 0 && LegalCells(row, mode)
    ensures ParseRow(RowText(row), |row|, mode) == Ok(row)
  {
    forall x | 0 <= x < |row|
      ensures ';' !in CellTexts(row)[x]
    {
      CellTextFree(row[x], ';');
    }
    var texts, read := CellTexts(row), CellReader(mode);
    SplitJoin(texts, ';');
    forall x | 0 <= x < |row|
      ensures read(texts[x]) == Ok(row[x])
    {
      ParsePrintedCell(row[x], mode);
    }
    ReadAllOk(texts, row, read);
  }

  lemma RowTextFree(row: seq<Cell>)
    ensures '\n' !in RowText(row)
  {
    forall x | 0 <= x < |row|
      ensures '\n' !in CellTexts(row)[x]
    {
      CellTextFree(row[x], '\n');
    }
    JoinFree(CellTexts(row), ';', '\n');
  }

  lemma ParsePrintedRows(g: Grid, w: int, mode: int)
    requires w > 0 && Rectangular(g, w, |g|)
    requires forall y :: 0 <= y < |g| ==> LegalCells(g[y], mode)
    ensures ParseRows(RowTexts(g), w, mode) == Ok(g)
  {
    var lines, read := RowTexts(g), RowReader(w, mode);
    forall y | 0 <= y < |g|
      ensures read(lines[y]) == Ok(g[y])
    {
      ParsePrintedRow(g[y], mode);
    }
    ReadAllOk(lines, g, read);
  }

  lemma PayloadOfLines(parts: seq<string>)
    requires |parts| > 0
    requires forall i :: 0 <= i < |parts| ==> '\n' !in parts[i]
    ensures PayloadLines(Lines(parts)) == parts
  {
    LinesAreJoined(parts);
    SplitJoin(parts, '\n');
    var text := Lines(parts);
    assert text[..|text| - 1] == Join(parts, '\n');
  }

  lemma HeaderRoundTrip(kind: string, a: int, b: int, c: int, body: string)
    requires IsWord(kind)
    requires Fits64(a) && Fits64(b) && Fits64(c)
    ensures ParseHeader(Header(kind, a, b, c) + "\n" + body, kind) == Ok((a, b, c, body))
  {
    var words := [kind, Itoa(a), Itoa(b), Itoa(c)];
    var header := Header(kind, a, b, c);
    var data := header + "\n" + body;
    assert '\n' !in kind;
    JoinFree(words, ' ', '\n');
    IndexOfFirst(header, '\n', body);
    FieldsJoin(words);
    ParseIntInverse(a);
    ParseIntInverse(b);
    ParseIntInverse(c);
    assert data[..|header|] == header;
    assert data[|header| + 1..] == body;
  }

  /** The header as one print statement writes it. */
  lemma HeaderText(kind: string, a: int, b: int, c: int)
    ensures Header(kind, a, b, c) == kind + " " + Itoa(a) + " " + Itoa(b) + " " + Itoa(c)
  {
    var words := [kind, Itoa(a), Itoa(b), Itoa(c)];
    assert words[..3] == [kind, Itoa(a), Itoa(b)];
    assert words[..3][..2] == [kind, Itoa(a)];
    assert words[..3][..2][..1] == [kind];
    assert Join(words[..3][..2], ' ') == kind + " " + Itoa(a);
    assert Join(words[..3], ' ') == kind + " " + Itoa(a) + " " + Itoa(b);
  }

  /** A printed header starts with its kind letter. */
  lemma HeaderStart(kind: string, a: int, b: int, c: int)
    requires |kind| == 1
    ensures |Header(kind, a, b, c)| > 1 && Header(kind, a, b, c)[0] == kind[0]
  {
    HeaderText(kind, a, b, c);
  }

  lemma HeaderLength(kind: string, a: int, b: int, c: int)
    ensures |Header(kind, a, b, c)| == |kind| + |Itoa(a)| + |Itoa(b)| + |Itoa(c)| + 3
  {
    HeaderText(kind, a, b, c);
  }

  lemma CellTextPrinted(c: Cell)
    ensures CellText(c) == Itoa(c.fg) + "," + Itoa(c.bg) + "," + Itoa(c.ch)
  {
    var f := CellFields(c);
    assert f[..2] == [Itoa(c.fg), Itoa(c.bg)];
    assert f[..2][..1] == [Itoa(c.fg)];
    assert Join(f[..2], ',') == Itoa(c.fg) + "," + Itoa(c.bg);
  }

  lemma ChangeTextPrinted(c: Change)
    ensures ChangeText(c)
         == Itoa(c.row) + " " + Itoa(c.col) + " " + Itoa(c.cell.fg) + " " + Itoa(c.cell.bg) + " " + Itoa(c.cell.ch)
  {
    var f := ChangeFields(c);
    assert f[..4] == [Itoa(c.row), Itoa(c.col), Itoa(c.cell.fg), Itoa(c.cell.bg)];
    assert f[..4][..3] == [Itoa(c.row), Itoa(c.col), Itoa(c.cell.fg)];
    assert f[..4][..3][..2] == [Itoa(c.row), Itoa(c.col)];
    assert f[..4][..3][..2][..1] == [Itoa(c.row)];
    assert Join(f[..4][..3][..2], ' ') == Itoa(c.row) + " " + Itoa(c.col);
    assert Join(f[..4][..3], ' ') == Itoa(c.row) + " " + Itoa(c.col) + " " + Itoa(c.cell.fg);
    assert Join(f[..4], ' ') == Itoa(c.row) + " " + Itoa(c.col) + " " + Itoa(c.cell.fg) + " " + Itoa(c.cell.bg);
  }

  // ---------- Sizes ----------

  lemma CellTextLength(c: Cell, mode: int)
    requires LegalCell(c, mode)
    ensures |CellText(c)| <= 11
  {
    ItoaShort(c.fg);
    ItoaShort(c.bg);
    ItoaShort(c.ch);
    JoinLength(CellFields(c), ',', 3);
  }

  lemma RowTextLength(row: seq<Cell>, mode: int)
    requires |row| > 0 && LegalCells(row, mode)
    ensures |RowText(row)| <= 12 * |row| - 1
  {
    forall x | 0 <= x < |row|
      ensures |CellTexts(row)[x]| <= 11
    {
      CellTextLength(row[x], mode);
    }
    JoinLength(CellTexts(row), ';', 11);
  }

  lemma AreaBound(h: nat, w: nat)
    requires h <= MAX_FRAME_HEIGHT && w <= MAX_FRAME_WIDTH
    ensures h * (12 * w) <= 36_000
    ensures w * h <= 3_000
  {
  }

  lemma SmallHeader(w: int, h: int)
    requires 0 < w <= MAX_FRAME_WIDTH && 0 < h <= MAX_FRAME_HEIGHT
    ensures |Itoa(w)| <= 3 && |Itoa(h)| <= 2
  {
    ItoaShort(w);
    assert Pow10(2) == 100 by { assert Pow10(1) == 10; }
    FormatNatLength(h, 2);
  }

  /** A keyframe takes at most 11 header bytes and 12 bytes per cell. */
  lemma KeyframeSize(g: Grid, mode: int)
    requires LegalGrid(g, mode)
    ensures 0 < |KeyframeText(g, mode)| <= 36_011
  {
    var w, h := |g[0]|, |g|;
    forall y | 0 <= y < h
      ensures |RowTexts(g)[y]| <= 12 * w - 1
    {
      RowTextLength(g[y], mode);
    }
    LinesLength(RowTexts(g), 12 * w - 1);
    AreaBound(h, w);
    SmallHeader(w, h);
    assert |Itoa(mode)| == 1;
    HeaderLength("K", w, h, mode);
  }

  lemma ChangeTextLength(c: Change, mode: int)
    requires c.row < MAX_FRAME_HEIGHT && c.col < MAX_FRAME_WIDTH && LegalCell(c.cell, mode)
    ensures |ChangeText(c)| <= 17
  {
    assert Pow10(2) == 100 by { assert Pow10(1) == 10; }
    FormatNatLength(c.row, 2);
    FormatNatLength(c.col, 2);
    ItoaShort(c.cell.fg);
    ItoaShort(c.cell.bg);
    ItoaShort(c.cell.ch);
    ChangeTextPrinted(c);
  }

  lemma CountShort(n: nat)
    requires n <= 1_500
    ensures |Itoa(n)| <= 4
  {
    assert Pow10(4) == 10_000 by { assert Pow10(2) == 100; }
    FormatNatLength(n, 4);
  }

  /** A delta that changes at most half of the cells is smaller than any keyframe limit. */
  lemma DeltaSize(w: int, h: int, changes: seq<Change>, mode: int)
    requires 0 < w <= MAX_FRAME_WIDTH && 0 < h <= MAX_FRAME_HEIGHT
    requires InBounds(changes, w, h) && LegalChanges(changes, mode)
    requires |changes| <= 1_500
    ensures 0 < |DeltaText(w, h, changes)| <= 27_014
  {
    var texts := ChangeTexts(changes);
    assert |Lines(texts)| <= 27_000 by {
      forall i | 0 <= i < |changes|
        ensures |texts[i]| <= 17
      {
        ChangeTextLength(changes[i], mode);
      }
      LinesLength(texts, 17);
    }
    SmallHeader(w, h);
    CountShort(|changes|);
    HeaderLength("D", w, h, |changes|);
  }

  /** Decoding a printed keyframe gives the printed grid and mode, whatever the decoder held. */
  lemma KeyframeRoundTrip(d: DecoderState, g: Grid, mode: int)
    requires ValidDecoder(d) && LegalGrid(g, mode)
    ensures Decode(d, KeyframeText(g, mode)) == Ok(Holding(g, mode))
  {
    var w, h := |g[0]|, |g|;
    KeyframeSize(g, mode);
    HeaderStart("K", w, h, mode);
    HeaderRoundTrip("K", w, h, mode, Lines(RowTexts(g)));
    forall y | 0 <= y < h
      ensures '\n' !in RowTexts(g)[y]
    {
      RowTextFree(g[y]);
    }
    PayloadOfLines(RowTexts(g));
    ParsePrintedRows(g, w, mode);
  }

  lemma ParsePrintedChangeFields(c: Change, w: int, h: int, mode: int, seen: set<Position>)
    requires c.row < h && c.col < w && w <= MAX_FRAME_WIDTH && h <= MAX_FRAME_HEIGHT
    requires (c.row, c.col) !in seen
    requires -1 <= c.cell.fg <= 255 && -1 <= c.cell.bg <= 255
    ensures ParseChangeFields(ChangeFields(c), w, h, mode, seen) == LegalOrError(c, mode)
  {
    ParseIntInverse(c.row);
    ParseIntInverse(c.col);
    ParsePrintedCellFields(c.cell, mode);
  }

  lemma ChangeFieldsAreWords(c: Change)
    ensures forall i :: 0 <= i < |ChangeFields(c)| ==> IsWord(ChangeFields(c)[i])
  {
  }

  lemma ChangeFieldsBack(c: Change)
    ensures Fields(ChangeText(c)) == ChangeFields(c)
  {
    ChangeFieldsAreWords(c);
    FieldsJoin(ChangeFields(c));
  }

  lemma ParsePrintedChange(c: Change, w: int, h: int, mode: int, seen: set<Position>)
    requires c.row < h && c.col < w && w <= MAX_FRAME_WIDTH && h <= MAX_FRAME_HEIGHT
    requires (c.row, c.col) !in seen
    requires -1 <= c.cell.fg <= 255 && -1 <= c.cell.bg <= 255
    ensures ParseChange(ChangeText(c), w, h, mode, seen) == LegalOrError(c, mode)
  {
    ChangeFieldsBack(c);
    ParsePrintedChangeFields(c, w, h, mode, seen);
  }

  lemma ChangeTextFree(c: Change)
    ensures '\n' !in ChangeText(c)
  {
    JoinFree(ChangeFields(c), ' ', '\n');
  }

  function Positions(changes: seq<Change>): set<Position> {
    set c | c in changes :: At(c)
  }

  lemma PositionNotSeen(changes: seq<Change>)
    requires Ascending(changes) && changes != []
    ensures var c := changes[|changes| - 1];
            var front := changes[..|changes| - 1];
            At(c) !in Positions(front) && Positions(changes) == Positions(front) + {At(c)}
  {
  }

  function LegalOrError(c: Change, mode: int): Result<Change> {
    if LegalCell(c.cell, mode) then Ok(c) else Err(InvalidFrameValue)
  }

  lemma {:induction false} ReadPrintedChanges(
      lines: seq<string>, changes: seq<Change>, read: (string, set<Position>) -> Result<Change>, mode: int)
    requires |lines| == |changes| && Ascending(changes)
    requires forall i, seen :: 0 <= i < |lines| && At(changes[i]) !in seen ==>
               read(lines[i], seen) == LegalOrError(changes[i], mode)
    ensures ReadChanges(lines, read)
         == if LegalChanges(changes, mode) then Ok((changes, Positions(changes))) else Err(InvalidFrameValue)
  {
    if changes == [] {
      assert Positions(changes) == {};
    } else {
      var n := |changes| - 1;
      var front, c := changes[..n], changes[n];
      ReadPrintedChanges(lines[..n], front, read, mode);
      PositionNotSeen(changes);
      assert changes == front + [c];
      assert LegalChanges(changes, mode) <==> LegalChanges(front, mode) && LegalCell(c.cell, mode);
    }
  }

  /**
   Reading back the lines of a delta gives its changes when every cell is legal for the
   decoder's mode, and a value error otherwise.
   */
  lemma ParsePrintedChanges(changes: seq<Change>, w: int, h: int, sent: int, mode: int)
    requires w <= MAX_FRAME_WIDTH && h <= MAX_FRAME_HEIGHT && InBounds(changes, w, h) && Ascending(changes)
    requires LegalChanges(changes, sent)
    ensures ParseChanges(ChangeTexts(changes), w, h, mode)
         == if LegalChanges(changes, mode) then Ok((changes, Positions(changes))) else Err(InvalidFrameValue)
  {
    var lines, read := ChangeTexts(changes), ChangeReader(w, h, mode);
    forall i, seen | 0 <= i < |lines| && At(changes[i]) !in seen
      ensures read(lines[i], seen) == LegalOrError(changes[i], mode)
    {
      ParsePrintedChange(changes[i], w, h, mode, seen);
    }
    ReadPrintedChanges(lines, changes, read, mode);
  }

  lemma DeltaLinesOfText(changes: seq<Change>)
    ensures DeltaLines(Lines(ChangeTexts(changes)), |changes|) == ChangeTexts(changes)
  {
    if changes != [] {
      forall i | 0 <= i < |changes|
        ensures '\n' !in ChangeTexts(changes)[i]
      {
        ChangeTextFree(changes[i]);
      }
      PayloadOfLines(ChangeTexts(changes));
    }
  }

  lemma PlanOfDeltaText(w: int, h: int, changes: seq<Change>, mode: int, has: bool, w': int, h': int)
    requires ValidDimensions(w, h) && |changes| <= 1_500 && |changes| <= w * h
    requires InBounds(changes, w, h) && LegalChanges(changes, mode)
    ensures var text := DeltaText(w, h, changes);
            && 0 < |text| <= MAX_ENCODED_FRAME_BYTES && text[0] == 'D'
            && DeltaPlan(text, has, w', h')
            == if has && w' == w && h' == h then Ok(ChangeTexts(changes)) else Err(MissingKeyframe)
  {
    DeltaSize(w, h, changes, mode);
    HeaderStart("D", w, h, |changes|);
    HeaderRoundTrip("D", w, h, |changes|, Lines(ChangeTexts(changes)));
    DeltaLinesOfText(changes);
  }

  /**
   Decoding the printed delta of (prev, cur) on any decoder: without a keyframe of that size it
   is refused; with one, the changed cells are overlaid on whatever the decoder holds, unless one
   of them is illegal for the decoder's mode.
   */
  lemma DeltaOnAnyDecoder(d: DecoderState, prev: Grid, cur: Grid, sent: int)
    requires ValidDecoder(d) && LegalGrid(cur, sent) && SameShape(prev, cur)
    requires |GridChanges(prev, cur, |cur|)| <= |cur[0]| * |cur| / 2
    ensures var changes := GridChanges(prev, cur, |cur|);
            var r := Decode(d, DeltaText(|cur[0]|, |cur|, changes));
            if !d.has || d.w != |cur[0]| || d.h != |cur| then r == Err(MissingKeyframe)
            else if LegalChanges(changes, d.mode) then r == Ok(d.(grid := Overlay(d.grid, prev, cur)))
            else r == Err(InvalidFrameValue)
  {
    var w, h := |cur[0]|, |cur|;
    var changes := GridChanges(prev, cur, h);
    GridChangesInBounds(prev, cur, h, w, sent);
    AreaBound(h, w);
    PlanOfDeltaText(w, h, changes, sent, d.has, d.w, d.h);
    ParsePrintedChanges(changes, w, h, sent, d.mode);
    if d.has && d.w == w && d.h == h && LegalChanges(changes, d.mode) {
      ApplyGridChanges(d.grid, prev, cur, w, sent);
    }
  }

  /** Decoding the printed delta of (prev, cur) on a decoder that holds prev gives cur. */
  lemma DeltaRoundTrip(prev: Grid, cur: Grid, mode: int)
    requires LegalGrid(prev, mode) && LegalGrid(cur, mode) && SameShape(prev, cur)
    requires |GridChanges(prev, cur, |cur|)| <= |cur[0]| * |cur| / 2
    ensures Decode(Holding(prev, mode), DeltaText(|cur[0]|, |cur|, GridChanges(prev, cur, |cur|)))
         == Ok(Holding(cur, mode))
  {
    DeltaOnAnyDecoder(Holding(prev, mode), prev, cur, mode);
    GridChangesInBounds(prev, cur, |cur|, |cur[0]|, mode);
    forall y | 0 <= y < |cur|
      ensures Overlay(prev, prev, cur)[y] == cur[y]
    {
      assert OverlayRow(prev[y], prev[y], cur[y]) == cur[y];
    }
    assert Overlay(prev, prev, cur) == cur;
  }

  /** Keyframes print different grids or modes differently. */
  lemma KeyframeTextInjective(g: Grid, mode: int, g': Grid, mode': int)
    requires LegalGrid(g, mode) && LegalGrid(g', mode')
    requires KeyframeText(g, mode) == KeyframeText(g', mode')
    ensures g == g' && mode == mode'
  {
    KeyframeRoundTrip(FRESH_DECODER, g, mode);
    KeyframeRoundTrip(FRESH_DECODER, g', mode');
  }
}
