/**
 DeltaDecoder: reads frames from an untrusted peer into a grid of cell arrays. The loops fill
 arrays in place; Frames gives the meaning of what they read.
 */
module DeltaReader {
  import opened Text
  import opened Frames

  type CellArrays = array<array<Cell>>

  // ---------- Grids of arrays ----------

  /** The arrays hold exactly the cells of `rows`. */
  ghost predicate Holds(g: CellArrays, rows: Grid)
    reads g, g[..]
  {
    g.Length == |rows| && forall y :: 0 <= y < g.Length ==> g[y][..] == rows[y]
  }

  /** No row array is used for two rows. */
  ghost predicate Separate(g: CellArrays)
    reads g
  {
    forall i, j :: 0 <= i < j < g.Length ==> g[i] != g[j]
  }

  method CopyRow(row: array<Cell>) returns (copy: array<Cell>)
    ensures fresh(copy) && copy[..] == row[..]
  {
    copy := new Cell[row.Length];
    for x := 0 to row.Length
      invariant copy[..x] == row[..x]
    {
      copy[x] := row[x];
    }
  }

  /** deepCopyCells: a grid with the same cells that shares no array with any older grid. */
  method DeepCopy(g: CellArrays, ghost rows: Grid) returns (copy: CellArrays)
    requires Holds(g, rows)
    ensures fresh(copy) && fresh(copy[..]) && Separate(copy) && Holds(copy, rows)
  {
    var empty := new Cell[0];
    copy := new array<Cell>[g.Length](_ => empty);
    for y := 0 to g.Length
      invariant fresh(copy) && forall i :: 0 <= i < g.Length ==> fresh(copy[i])
      invariant forall i :: 0 <= i < y ==> copy[i][..] == rows[i]
      invariant forall i, j :: 0 <= i < j < y ==> copy[i] != copy[j]
    {
      var row := CopyRow(g[y]);
      copy[y] := row;
    }
  }

  // ---------- First error wins ----------

  lemma {:induction false} FirstBadChange(lines: seq<string>, n: nat, read: (string, set<Position>) -> Result<Change>)
    requires n <= |lines| && ReadChanges(lines[..n], read).Err?
    ensures ReadChanges(lines, read) == ReadChanges(lines[..n], read)
  {
    if n == |lines| {
      assert lines[..n] == lines;
    } else {
      assert lines[..|lines| - 1][..n] == lines[..n];
      FirstBadChange(lines[..|lines| - 1], n, read);
    }
  }

  // ---------- Reading rows and changes ----------

  method ReadRow(line: string, w: nat, mode: int) returns (row: array<Cell>, r: Result<()>)
    ensures fresh(row)
    ensures r.Ok? ==> ParseRow(line, w, mode) == Ok(row[..])
    ensures r.Err? ==> ParseRow(line, w, mode) == Err(r.error)
  {
    row := new Cell[w];
    var encoded := Split(line, ';');
    if |encoded| != w {
      return row, Err(MalformedFrame);
    }
    for x := 0 to w
      invariant forall i :: 0 <= i < x ==> ParseCell(encoded[i], mode) == Ok(row[i])
    {
      var cell := ParseCell(encoded[x], mode);
      if cell.Err? {
        ReadAllErr(encoded, x, CellReader(mode));
        return row, Err(cell.error);
      }
      row[x] := cell.value;
    }
    ReadAllOk(encoded, row[..], CellReader(mode));
    return row, Ok(());
  }

  method ReadRows(lines: seq<string>, w: nat, mode: int) returns (r: Result<CellArrays>)
    ensures match r
            case Ok(grid) =>
              && fresh(grid) && fresh(grid[..]) && Separate(grid)
              && ParseRows(lines, w, mode).Ok? && Holds(grid, ParseRows(lines, w, mode).value)
            case Err(e) => ParseRows(lines, w, mode) == Err(e)
  {
    var empty := new Cell[0];
    var grid := new array<Cell>[|lines|](_ => empty);
    for y := 0 to |lines|
      invariant fresh(grid) && forall i :: 0 <= i < |lines| ==> fresh(grid[i])
      invariant forall i :: 0 <= i < y ==> grid[i] !in grid[..i]
      invariant forall i :: 0 <= i < y ==> ParseRow(lines[i], w, mode) == Ok(grid[i][..])
    {
      var row, read := ReadRow(lines[y], w, mode);
      if read.Err? {
        ReadAllErr(lines, y, RowReader(w, mode));
        return Err(read.error);
      }
      ghost var older := grid[..];
      assert row !in older;
      grid[y] := row;
      assert forall i :: 0 <= i <= y ==> grid[..i] == older[..i];
    }
    ReadAllGood(lines, RowReader(w, mode));
    return Ok(grid);
  }

  predicate Inside(p: Position, w: int, h: int) {
    0 <= p.0 < h && 0 <= p.1 < w
  }

  function Index(p: Position, w: int): int {
    p.0 * w + p.1
  }

  /** `seen` holds the row-major indices of the positions in `at`. */
  ghost predicate Indexes(seen: set<int>, at: set<Position>, w: int, h: int) {
    forall p :: Inside(p, w, h) ==> (p in at <==> Index(p, w) in seen)
  }

  /** Different positions have different indices. */
  lemma IndexInjective(a: Position, b: Position, w: int, h: int)
    requires Inside(a, w, h) && Inside(b, w, h) && Index(a, w) == Index(b, w)
    ensures a == b
  {
    if a.0 < b.0 {
      MulStep(a.0, b.0, w);
    } else if b.0 < a.0 {
      MulStep(b.0, a.0, w);
    }
  }

  lemma {:induction false} MulStep(x: int, y: int, w: int)
    requires x < y && w > 0
    ensures x * w + w <= y * w
    decreases y - x
  {
    if x + 1 < y {
      MulStep(x + 1, y, w);
    }
    assert (x + 1) * w == x * w + w;
  }

  lemma IndexesAdd(seen: set<int>, at: set<Position>, w: int, h: int, p: Position)
    requires Indexes(seen, at, w, h) && Inside(p, w, h)
    ensures Indexes(seen + {Index(p, w)}, at + {p}, w, h)
  {
    forall q | Inside(q, w, h) && Index(q, w) == Index(p, w)
      ensures q == p
    {
      IndexInjective(q, p, w, h);
    }
  }

  /** One line of a delta, with the positions seen so far kept as row-major indices. */
  method ReadChange(line: string, w: int, h: int, mode: int, seen: set<int>, ghost at: set<Position>)
      returns (r: Result<Change>, now: set<int>)
    requires Indexes(seen, at, w, h)
    ensures r == ParseChange(line, w, h, mode, at)
    ensures r.Ok? ==> Indexes(now, at + {At(r.value)}, w, h)
  {
    now := seen;
    var fields := Fields(line);
    if |fields| != 5 {
      return Err(MalformedFrame), now;
    }
    var row :- ParseInt(fields[0]);
    var col :- ParseInt(fields[1]);
    if row < 0 || row >= h || col < 0 || col >= w {
      return Err(InvalidFrameValue), now;
    }
    assert Inside((row, col), w, h);
    if Index((row, col), w) in seen {
      return Err(MalformedFrame), now;
    }
    IndexesAdd(seen, at, w, h, (row, col));
    now := now + {Index((row, col), w)};
    var cell :- ParseCellFields(fields[2], fields[3], fields[4], mode);
    return Ok(Change(row, col, cell)), now;
  }

  method OverwriteCell(grid: CellArrays, ghost before: Grid, c: Change)
    requires Separate(grid) && Holds(grid, before) && c.row < |before| && c.col < |before[c.row]|
    modifies grid[c.row]
    ensures Holds(grid, SetCell(before, c))
  {
    grid[c.row][c.col] := c.cell;
  }

  lemma OneMoreChange(
      lines: seq<string>, i: nat, read: (string, set<Position>) -> Result<Change>, made: seq<Change>, at: set<Position>)
    requires i < |lines| && ReadChanges(lines[..i], read) == Ok((made, at))
    ensures ReadChanges(lines[..i + 1], read) == match read(lines[i], at) {
              case Ok(c) => Ok((made + [c], at + {At(c)}))
              case Err(e) => Err(e)
            }
  {
    assert lines[..i + 1][..i] == lines[..i];
  }

  lemma ApplyOneMore(start: Grid, made: seq<Change>, c: Change, w: int)
    requires Rectangular(start, w, |start|) && InBounds(made, w, |start|) && c.row < |start| && c.col < w
    ensures InBounds(made + [c], w, |start|)
    ensures Apply(start, made + [c], w) == SetCell(Apply(start, made, w), c)
  {
  }

  /** Overwrites the changed cells of `grid`; after an error its contents do not matter. */
  method OverwriteCells(grid: CellArrays, ghost start: Grid, lines: seq<string>, w: int, h: int, mode: int)
      returns (r: Result<()>)
    requires Separate(grid) && Holds(grid, start) && Rectangular(start, w, h)
    modifies grid[..]
    ensures match r
            case Ok(_) =>
              && ParseChanges(lines, w, h, mode).Ok?
              && Holds(grid, Apply(start, ParseChanges(lines, w, h, mode).value.0, w))
            case Err(e) => ParseChanges(lines, w, h, mode) == Err(e)
  {
    ghost var made: seq<Change> := [];
    ghost var at: set<Position> := {};
    ghost var read := ChangeReader(w, h, mode);
    var seen: set<int> := {};
    for i := 0 to |lines|
      invariant ReadChanges(lines[..i], read) == Ok((made, at)) && InBounds(made, w, h)
      invariant Indexes(seen, at, w, h)
      invariant Holds(grid, Apply(start, made, w))
    {
      var change, now := ReadChange(lines[i], w, h, mode, seen, at);
      OneMoreChange(lines, i, read, made, at);
      if change.Err? {
        FirstBadChange(lines, i + 1, read);
        return Err(change.error);
      }
      var c := change.value;
      seen := now;
      OverwriteCell(grid, Apply(start, made, w), c);
      ApplyOneMore(start, made, c, w);
      made, at := made + [c], at + {At(c)};
    }
    assert lines[..|lines|] == lines;
    return Ok(());
  }

  /** A copy of the grid with the changes of these lines. */
  method ChangedCopy(grid: CellArrays, ghost start: Grid, lines: seq<string>, w: int, h: int, mode: int)
      returns (r: Result<CellArrays>)
    requires Holds(grid, start) && Rectangular(start, w, h)
    ensures match r
            case Ok(copy) =>
              && ParseChanges(lines, w, h, mode).Ok? && fresh(copy) && fresh(copy[..]) && Separate(copy)
              && Holds(copy, Apply(start, ParseChanges(lines, w, h, mode).value.0, w))
            case Err(e) => ParseChanges(lines, w, h, mode) == Err(e)
  {
    var copy := DeepCopy(grid, start);
    var _ :- OverwriteCells(copy, start, lines, w, h, mode);
    return Ok(copy);
  }

  // ---------- The decoder object ----------

  class DeltaDecoder {
    var grid: CellArrays
    var w: int
    var h: int
    var mode: int
    var has: bool
    ghost var cells: Grid  // what the arrays of `grid` hold

    ghost function State(): DecoderState
      reads this
    {
      DecoderState(cells, w, h, mode, has)
    }

    ghost predicate Valid()
      reads this, grid, grid[..]
    {
      Separate(grid) && Holds(grid, cells) && ValidDecoder(State())
    }

    constructor ()
      ensures Valid() && State() == FRESH_DECODER && fresh(grid)
    {
      var empty := new Cell[0];
      grid := new array<Cell>[0](_ => empty);
      w, h, mode, has, cells := 0, 0, 0, false, [];
    }

    /**
     A frame that decodes changes the state as Frames.Decode says and hands out a copy of the new
     grid that shares no array with the decoder. Any other frame changes nothing.
     */
    method DecodeCells(data: string) returns (r: Result<(CellArrays, int)>)
      requires Valid()
      modifies this
      ensures Valid()
      ensures match r
              case Ok((copy, shown)) =>
                && Decode(old(State()), data) == Ok(State()) && Holds(copy, cells) && shown == mode
                && fresh(copy) && fresh(copy[..]) && Unshared(copy, grid)
              case Err(e) => Decode(old(State()), data) == Err(e) && unchanged(this)
    {
      if |data| == 0 {
        return Err(MalformedFrame);
      }
      if |data| > MAX_ENCODED_FRAME_BYTES {
        return Err(FrameTooLarge);
      }
      var done: Result<()>;
      if data[0] == 'K' {
        done := DecodeKeyframe(data);
      } else if data[0] == 'D' {
        done := DecodeDelta(data);
      } else {
        done := Err(UnsupportedFrame);
      }
      if done.Err? {
        return Err(done.error);
      }
      var copy := DeepCopy(grid, cells);
      return Ok((copy, mode));
    }

    method DecodeKeyframe(data: string) returns (r: Result<()>)
      requires Valid()
      modifies this
      ensures Valid()
      ensures match r
              case Ok(_) => ParseKeyframe(data) == Ok(State())
              case Err(e) => ParseKeyframe(data) == Err(e) && unchanged(this)
    {
      var plan :- KeyframePlan(data);
      var (w', h', mode', lines) := plan;
      var rows :- ReadRows(lines, w', mode');
      ParsedKeyframeValid(data);
      grid, w, h, mode, has, cells := rows, w', h', mode', true, ParseRows(lines, w', mode').value;
      return Ok(());
    }

    /** Puts a changed grid in place of the old one. */
    method Install(changedGrid: CellArrays, ghost changed: Grid)
      requires Separate(changedGrid) && Holds(changedGrid, changed)
      requires ValidDecoder(State().(grid := changed))
      modifies this
      ensures Valid() && State() == old(State()).(grid := changed) && grid == changedGrid
    {
      grid, cells := changedGrid, changed;
    }

    /** A delta works on a copy, so an error part-way leaves the decoder's own grid alone. */
    method DecodeDelta(data: string) returns (r: Result<()>)
      requires Valid()
      modifies this
      ensures Valid()
      ensures match r
              case Ok(_) => ParseDelta(old(State()), data) == Ok(State())
              case Err(e) => ParseDelta(old(State()), data) == Err(e) && unchanged(this)
    {
      var lines :- DeltaPlan(data, has, w, h);
      var copy :- ChangedCopy(grid, cells, lines, w, h, mode);
      ghost var changes := ParseChanges(lines, w, h, mode).value.0;
      ApplyKeepsLegal(cells, changes, w, mode);
      ghost var changed := Apply(cells, changes, w);
      Install(copy, changed);
      return Ok(());
    }
  }

  /** The two grids have no array in common. */
  ghost predicate Unshared(a: CellArrays, b: CellArrays)
    reads a, b
  {
    a != b && forall i, j :: 0 <= i < a.Length && 0 <= j < b.Length ==> a[i] != b[j]
  }
}
