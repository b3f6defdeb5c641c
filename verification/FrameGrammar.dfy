/**
 Which texts are frames: the grammar of keyframes and deltas written down with concatenations, and
 the decoder shown to accept exactly the texts of the grammar and to read them as it says.
 */
module FrameGrammar {
  import opened Wrappers
  import opened Text
  import opened Frames

  // ---------- Cells, rows and lines ----------

  /** Three numerals for the foreground, the background and the character. */
  predicate CellParts(parts: seq<string>, c: Cell) {
    && |parts| == 3 && (forall i :: 0 <= i < 3 ==> ',' !in parts[i])
    && Atoi(parts[0]) == Some(c.fg) && Atoi(parts[1]) == Some(c.bg) && Atoi(parts[2]) == Some(c.ch)
  }

  ghost predicate SpellsCell(text: string, c: Cell) {
    exists parts :: text == Join(parts, ',') && CellParts(parts, c)
  }

  lemma CellExactly(text: string, c: Cell, mode: int)
    requires LegalCell(c, mode)
    ensures ParseCell(text, mode) == Ok(c) <==> SpellsCell(text, c)
  {
    if ParseCell(text, mode) == Ok(c) {
      ParsedCellSpelt(text, c, mode);
    }
    if parts :| text == Join(parts, ',') && CellParts(parts, c) {
      SplitJoin(parts, ',');
    }
  }

  lemma ParsedCellSpelt(text: string, c: Cell, mode: int)
    requires ParseCell(text, mode) == Ok(c)
    ensures SpellsCell(text, c)
  {
    JoinSplit(text, ',');
    assert CellParts(Split(text, ','), c);
  }

  ghost predicate RowParts(parts: seq<string>, row: seq<Cell>) {
    |parts| == |row| > 0 && forall x :: 0 <= x < |row| ==> ';' !in parts[x] && SpellsCell(parts[x], row[x])
  }

  ghost predicate SpellsRow(line: string, row: seq<Cell>) {
    exists parts :: line == Join(parts, ';') && RowParts(parts, row)
  }

  lemma RowExactly(line: string, row: seq<Cell>, mode: int)
    requires LegalCells(row, mode)
    ensures ParseRow(line, |row|, mode) == Ok(row) <==> SpellsRow(line, row)
  {
    JoinSplit(line, ';');
    if ParseRow(line, |row|, mode) == Ok(row) {
      var parts, read := Split(line, ';'), CellReader(mode);
      ReadAllEach(parts, read);
      forall x | 0 <= x < |row|
        ensures SpellsCell(parts[x], row[x])
      {
        assert read(parts[x]) == ParseCell(parts[x], mode);
        CellExactly(parts[x], row[x], mode);
      }
      assert RowParts(parts, row);
    }
    if parts :| line == Join(parts, ';') && RowParts(parts, row) {
      SplitJoin(parts, ';');
      forall x | 0 <= x < |row|
        ensures CellReader(mode)(parts[x]) == Ok(row[x])
      {
        CellExactly(parts[x], row[x], mode);
      }
      ReadAllOk(parts, row, CellReader(mode));
    }
  }

  /** The lines of a frame after the first, the last of them not empty, with or without a final newline. */
  predicate BodyLines(body: string, lines: seq<string>) {
    && |lines| > 0 && lines[|lines| - 1] != "" && (forall y :: 0 <= y < |lines| ==> '\n' !in lines[y])
    && (body == Join(lines, '\n') || body == Join(lines, '\n') + "\n")
  }

  lemma JoinEnds(lines: seq<string>)
    requires |lines| > 0 && lines[|lines| - 1] != ""
    ensures var last, text := lines[|lines| - 1], Join(lines, '\n');
            text != "" && text[|text| - 1] == last[|last| - 1]
  {
  }

  lemma PayloadExactly(body: string, lines: seq<string>)
    requires |lines| > 0 && lines[|lines| - 1] != ""
    ensures PayloadLines(body) == lines <==> BodyLines(body, lines)
  {
    var text := TrimNewline(body);
    if PayloadLines(body) == lines {
      JoinSplit(text, '\n');
      assert body == text || body == text + "\n";
    }
    if BodyLines(body, lines) {
      JoinEnds(lines);
      SplitJoin(lines, '\n');
      assert text == Join(lines, '\n');
    }
  }

  /** The first line: a word for the kind of frame and three numerals, between white space. */
  predicate HeaderIs(header: string, kind: string, a: int, b: int, c: int) {
    var words := Fields(header);
    && '\n' !in header && |words| == 4 && words[0] == kind
    && Atoi(words[1]) == Some(a) && Atoi(words[2]) == Some(b) && Atoi(words[3]) == Some(c)
  }

  lemma HeaderExactly(header: string, body: string, kind: string, a: int, b: int, c: int)
    requires '\n' !in header
    ensures ParseHeader(header + "\n" + body, kind) == Ok((a, b, c, body)) <==> HeaderIs(header, kind, a, b, c)
    ensures ParseHeader(header + "\n" + body, kind).Ok? ==> ParseHeader(header + "\n" + body, kind).value.3 == body
  {
    var data := header + "\n" + body;
    IndexOfFirst(header, '\n', body);
    assert data[..|header|] == header && data[|header| + 1..] == body;
  }

  // ---------- Keyframes ----------

  ghost predicate RowsAre(lines: seq<string>, g: Grid) {
    |lines| == |g| && forall y :: 0 <= y < |g| ==> SpellsRow(lines[y], g[y])
  }

  ghost predicate KeyframeParts(header: string, body: string, lines: seq<string>, g: Grid, mode: int)
    requires |g| > 0
  {
    HeaderIs(header, "K", |g[0]|, |g|, mode) && BodyLines(body, lines) && RowsAre(lines, g)
  }

  ghost predicate SpellsKeyframe(data: string, g: Grid, mode: int)
    requires |g| > 0
  {
    exists header, body, lines :: data == header + "\n" + body && KeyframeParts(header, body, lines, g, mode)
  }

  lemma RowsExactly(lines: seq<string>, g: Grid, w: nat, mode: int)
    requires |lines| == |g| && forall y :: 0 <= y < |g| ==> |g[y]| == w && LegalCells(g[y], mode)
    ensures ParseRows(lines, w, mode) == Ok(g) <==> RowsAre(lines, g)
  {
    var read := RowReader(w, mode);
    forall y | 0 <= y < |g|
      ensures read(lines[y]) == Ok(g[y]) <==> SpellsRow(lines[y], g[y])
    {
      RowExactly(lines[y], g[y], mode);
    }
    if ParseRows(lines, w, mode) == Ok(g) {
      ReadAllEach(lines, read);
    }
    if RowsAre(lines, g) {
      ReadAllOk(lines, g, read);
    }
  }

  lemma JoinIsNotEmpty(parts: seq<string>, sep: char)
    requires |parts| > 1 || (|parts| == 1 && parts[0] != "")
    ensures Join(parts, sep) != ""
  {
  }

  lemma CellIsNotEmpty(text: string, c: Cell)
    requires SpellsCell(text, c)
    ensures text != ""
  {
    var parts :| text == Join(parts, ',') && CellParts(parts, c);
    JoinIsNotEmpty(parts, ',');
  }

  lemma RowIsNotEmpty(line: string, row: seq<Cell>)
    requires SpellsRow(line, row)
    ensures line != ""
  {
    var parts :| line == Join(parts, ';') && RowParts(parts, row);
    CellIsNotEmpty(parts[0], row[0]);
    JoinIsNotEmpty(parts, ';');
  }

  lemma KeyframeOfParts(header: string, body: string, lines: seq<string>, g: Grid, mode: int)
    requires LegalGrid(g, mode) && KeyframeParts(header, body, lines, g, mode)
    ensures ParseKeyframe(header + "\n" + body) == Ok(Holding(g, mode))
  {
    HeaderExactly(header, body, "K", |g[0]|, |g|, mode);
    PayloadExactly(body, lines);
    RowsExactly(lines, g, |g[0]|, mode);
  }

  lemma HeaderParts(data: string, kind: string) returns (header: string, body: string)
    requires ParseHeader(data, kind).Ok?
    ensures data == header + "\n" + body && '\n' !in header
    ensures var (a, b, c, rest) := ParseHeader(data, kind).value; HeaderIs(header, kind, a, b, c) && rest == body
  {
    var newline := IndexOf(data, '\n').value;
    header, body := data[..newline], data[newline + 1..];
    assert data == header + "\n" + body;
    var (a, b, c, rest) := ParseHeader(data, kind).value;
    HeaderExactly(header, body, kind, a, b, c);
  }

  lemma PlanOfKeyframe(data: string, g: Grid, mode: int) returns (body: string)
    requires LegalGrid(g, mode) && ParseKeyframe(data) == Ok(Holding(g, mode))
    ensures ParseHeader(data, "K") == Ok((|g[0]|, |g|, mode, body))
    ensures |PayloadLines(body)| == |g| && ParseRows(PayloadLines(body), |g[0]|, mode) == Ok(g)
  {
    body := ParseHeader(data, "K").value.3;
  }

  lemma PartsOfKeyframe(data: string, g: Grid, mode: int) returns (header: string, body: string, lines: seq<string>)
    requires LegalGrid(g, mode) && ParseKeyframe(data) == Ok(Holding(g, mode))
    ensures data == header + "\n" + body && KeyframeParts(header, body, lines, g, mode)
  {
    var rest := PlanOfKeyframe(data, g, mode);
    header, body := HeaderParts(data, "K");
    lines := PayloadLines(body);
    RowsExactly(lines, g, |g[0]|, mode);
    RowIsNotEmpty(lines[|lines| - 1], g[|g| - 1]);
    PayloadExactly(body, lines);
  }

  /**
   The decoder accepts as a keyframe, and reads as the grid g, exactly the texts that spell g in the
   grammar, start with K and are within the size limit; from any state.
   */
  lemma DecodesKeyframeExactly(d: DecoderState, data: string, g: Grid, mode: int)
    requires ValidDecoder(d) && data != "" && data[0] == 'K' && LegalGrid(g, mode)
    ensures Decode(d, data) == Ok(Holding(g, mode)) <==> |data| <= 131072 && SpellsKeyframe(data, g, mode)
  {
    if Decode(d, data) == Ok(Holding(g, mode)) {
      var header, body, lines := PartsOfKeyframe(data, g, mode);
    }
    if header, body, lines :| data == header + "\n" + body && KeyframeParts(header, body, lines, g, mode) {
      KeyframeOfParts(header, body, lines, g, mode);
    }
  }

  // ---------- Deltas ----------

  /** Five numerals: row, column, foreground, background, character. */
  predicate SpellsChange(line: string, c: Change) {
    var words := Fields(line);
    && |words| == 5 && Atoi(words[0]) == Some(c.row) && Atoi(words[1]) == Some(c.col)
    && Atoi(words[2]) == Some(c.cell.fg) && Atoi(words[3]) == Some(c.cell.bg) && Atoi(words[4]) == Some(c.cell.ch)
  }

  lemma ChangeExactly(line: string, c: Change, w: int, h: int, mode: int, seen: set<Position>)
    requires c.row < h && c.col < w && LegalCell(c.cell, mode)
    ensures ParseChange(line, w, h, mode, seen) == Ok(c) <==> SpellsChange(line, c) && At(c) !in seen
  {
  }

  /** No two of the changes are at the same position. */
  predicate Apart(changes: seq<Change>) {
    forall i, j :: 0 <= i < j < |changes| ==> At(changes[i]) != At(changes[j])
  }

  ghost predicate ChangesAre(lines: seq<string>, changes: seq<Change>) {
    |lines| == |changes| && Apart(changes) && forall i :: 0 <= i < |changes| ==> SpellsChange(lines[i], changes[i])
  }

  lemma PositionsSnoc(front: seq<Change>, c: Change)
    ensures Positions(front + [c]) == Positions(front) + {At(c)}
  {
    assert forall x :: x in front + [c] <==> x in front || x == c;
  }

  /** Each line was read with the positions before it as seen. */
  predicate ReadInTurn(lines: seq<string>, changes: seq<Change>, read: (string, set<Position>) -> Result<Change>) {
    |lines| == |changes| && forall i :: 0 <= i < |lines| ==> read(lines[i], Positions(changes[..i])) == Ok(changes[i])
  }

  lemma InTurnSnoc(lines: seq<string>, changes: seq<Change>, read: (string, set<Position>) -> Result<Change>)
    requires |lines| == |changes| > 0
    ensures var n := |lines| - 1;
            ReadInTurn(lines, changes, read) <==>
              && ReadInTurn(lines[..n], changes[..n], read)
              && read(lines[n], Positions(changes[..n])) == Ok(changes[n])
  {
    var n := |lines| - 1;
    assert forall i :: 0 <= i < n ==> changes[..n][..i] == changes[..i];
  }

  lemma {:induction false} InTurnIsOk(
      lines: seq<string>, changes: seq<Change>, read: (string, set<Position>) -> Result<Change>)
    requires ReadInTurn(lines, changes, read)
    ensures ReadChanges(lines, read) == Ok((changes, Positions(changes)))
  {
    if lines == [] {
      assert changes == [] && Positions([]) == {};
    } else {
      var n := |lines| - 1;
      InTurnSnoc(lines, changes, read);
      InTurnIsOk(lines[..n], changes[..n], read);
      assert changes == changes[..n] + [changes[n]];
      PositionsSnoc(changes[..n], changes[n]);
    }
  }

  lemma {:induction false} OkIsInTurn(lines: seq<string>, read: (string, set<Position>) -> Result<Change>)
    requires ReadChanges(lines, read).Ok?
    ensures var (changes, seen) := ReadChanges(lines, read).value;
            ReadInTurn(lines, changes, read) && seen == Positions(changes)
  {
    var (changes, seen) := ReadChanges(lines, read).value;
    if lines == [] {
      assert Positions([]) == {};
    } else {
      var n := |lines| - 1;
      OkIsInTurn(lines[..n], read);
      var (front, before) := ReadChanges(lines[..n], read).value;
      assert changes == front + [changes[n]] && changes[..n] == front;
      PositionsSnoc(front, changes[n]);
      InTurnSnoc(lines, changes, read);
    }
  }

  lemma SeenBefore(changes: seq<Change>, i: nat)
    requires i < |changes|
    ensures At(changes[i]) in Positions(changes[..i]) <==> exists j :: 0 <= j < i && At(changes[j]) == At(changes[i])
  {
    if At(changes[i]) in Positions(changes[..i]) {
      var c :| c in changes[..i] && At(c) == At(changes[i]);
      var j :| 0 <= j < i && changes[j] == c;
    }
    if j :| 0 <= j < i && At(changes[j]) == At(changes[i]) {
      assert changes[..i][j] in changes[..i];
    }
  }

  lemma ChangesExactly(lines: seq<string>, changes: seq<Change>, w: int, h: int, mode: int)
    requires |lines| == |changes| && InBounds(changes, w, h) && LegalChanges(changes, mode)
    ensures ReadInTurn(lines, changes, ChangeReader(w, h, mode)) <==> ChangesAre(lines, changes)
  {
    forall i | 0 <= i < |lines|
      ensures ChangeReader(w, h, mode)(lines[i], Positions(changes[..i])) == Ok(changes[i]) <==>
              SpellsChange(lines[i], changes[i]) && !(exists j :: 0 <= j < i && At(changes[j]) == At(changes[i]))
    {
      ChangeExactly(lines[i], changes[i], w, h, mode, Positions(changes[..i]));
      SeenBefore(changes, i);
    }
  }

  /** The lines after the first: one for each change, or nothing but an optional newline if there is none. */
  ghost predicate SpellsChanges(body: string, changes: seq<Change>) {
    if changes == [] then body == "" || body == "\n"
    else exists lines :: BodyLines(body, lines) && ChangesAre(lines, changes)
  }

  ghost predicate DeltaParts(header: string, body: string, w: int, h: int, changes: seq<Change>) {
    HeaderIs(header, "D", w, h, |changes|) && SpellsChanges(body, changes)
  }

  ghost predicate SpellsDelta(data: string, w: int, h: int, changes: seq<Change>) {
    exists header, body :: data == header + "\n" + body && DeltaParts(header, body, w, h, changes)
  }

  lemma ChangeIsNotEmpty(line: string, c: Change)
    requires SpellsChange(line, c)
    ensures line != ""
  {
  }

  lemma DeltaLinesExactly(body: string, changes: seq<Change>, w: int, h: int, mode: int)
    requires InBounds(changes, w, h) && LegalChanges(changes, mode)
    ensures var lines := DeltaLines(body, |changes|);
            |lines| == |changes| && ReadInTurn(lines, changes, ChangeReader(w, h, mode)) <==>
              SpellsChanges(body, changes)
  {
    var lines := DeltaLines(body, |changes|);
    if changes == [] {
      EmptyBody(body);
    } else {
      if |lines| == |changes| && ReadInTurn(lines, changes, ChangeReader(w, h, mode)) {
        ChangesExactly(lines, changes, w, h, mode);
        ChangeIsNotEmpty(lines[|lines| - 1], changes[|changes| - 1]);
        PayloadExactly(body, lines);
      }
      if given :| BodyLines(body, given) && ChangesAre(given, changes) {
        PayloadExactly(body, given);
        ChangesExactly(given, changes, w, h, mode);
      }
    }
  }

  lemma EmptyBody(body: string)
    ensures PayloadLines(body) == [""] <==> body == "" || body == "\n"
  {
    var text := TrimNewline(body);
    JoinSplit(text, '\n');
    if text == "" {
      assert Split(text, '\n') == [""];
    }
  }

  /** The cells after these changes: theirs where they are, the old ones elsewhere. */
  ghost predicate Overwritten(g: Grid, changes: seq<Change>, r: Grid) {
    && SameShape(r, g)
    && forall y, x :: 0 <= y < |g| && 0 <= x < |g[y]| ==>
         if exists i :: 0 <= i < |changes| && At(changes[i]) == (y, x)
         then exists i :: 0 <= i < |changes| && changes[i] == Change(y, x, r[y][x])
         else r[y][x] == g[y][x]
  }

  lemma ApplyOverwrites(g: Grid, changes: seq<Change>, w: int)
    requires Rectangular(g, w, |g|) && InBounds(changes, w, |g|) && Apart(changes)
    ensures Overwritten(g, changes, Apply(g, changes, w))
  {
    var r := Apply(g, changes, w);
    forall y, x | 0 <= y < |g| && 0 <= x < |g[y]|
      ensures if exists i :: 0 <= i < |changes| && At(changes[i]) == (y, x)
              then exists i :: 0 <= i < |changes| && changes[i] == Change(y, x, r[y][x])
              else r[y][x] == g[y][x]
    {
      if i :| 0 <= i < |changes| && At(changes[i]) == (y, x) {
        assert Names(changes, y, x);
        ApplyAt(g, changes, w, y, x, changes[i].cell);
        assert changes[i] == Change(y, x, r[y][x]);
      } else {
        ApplyAt(g, changes, w, y, x, g[y][x]);
      }
    }
  }

  /** Changes that a decoder may be told to make: on its grid, legal, each at a position of its own. */
  predicate Acceptable(d: DecoderState, changes: seq<Change>) {
    && d.has && InBounds(changes, d.w, d.h) && LegalChanges(changes, d.mode) && Apart(changes)
    && |changes| <= d.w * d.h
  }

  /** The text spells acceptable changes that overwrite the decoder's grid to g. */
  ghost predicate LeadsTo(d: DecoderState, data: string, changes: seq<Change>, g: Grid) {
    Acceptable(d, changes) && SpellsDelta(data, d.w, d.h, changes) && Overwritten(d.grid, changes, g)
  }

  lemma DeltaOfParts(d: DecoderState, header: string, body: string, changes: seq<Change>)
    requires ValidDecoder(d) && Acceptable(d, changes) && DeltaParts(header, body, d.w, d.h, changes)
    ensures ParseDelta(d, header + "\n" + body) == Ok(d.(grid := Apply(d.grid, changes, d.w)))
  {
    HeaderExactly(header, body, "D", d.w, d.h, |changes|);
    DeltaLinesExactly(body, changes, d.w, d.h, d.mode);
    InTurnIsOk(DeltaLines(body, |changes|), changes, ChangeReader(d.w, d.h, d.mode));
  }

  lemma PartsOfDelta(d: DecoderState, data: string) returns (header: string, body: string, changes: seq<Change>)
    requires ValidDecoder(d) && ParseDelta(d, data).Ok?
    ensures Acceptable(d, changes) && data == header + "\n" + body && DeltaParts(header, body, d.w, d.h, changes)
    ensures ParseDelta(d, data) == Ok(d.(grid := Apply(d.grid, changes, d.w)))
  {
    header, body := HeaderParts(data, "D");
    var lines := DeltaPlan(data, d.has, d.w, d.h).value;
    changes := ParseChanges(lines, d.w, d.h, d.mode).value.0;
    OkIsInTurn(lines, ChangeReader(d.w, d.h, d.mode));
    ChangesExactly(lines, changes, d.w, d.h, d.mode);
    DeltaLinesExactly(body, changes, d.w, d.h, d.mode);
  }

  /**
   The decoder accepts as a delta, and so comes to hold g, exactly the texts that spell, in the
   grammar, changes that are acceptable to it and overwrite its grid to g, start with D and are
   within the size limit.
   */
  lemma DecodesDeltaExactly(d: DecoderState, data: string, g: Grid)
    requires ValidDecoder(d) && data != "" && data[0] == 'D'
    ensures Decode(d, data) == Ok(d.(grid := g)) <==> |data| <= 131072 && exists changes :: LeadsTo(d, data, changes, g)
  {
    if Decode(d, data) == Ok(d.(grid := g)) {
      var header, body, changes := PartsOfDelta(d, data);
      ApplyOverwrites(d.grid, changes, d.w);
      assert LeadsTo(d, data, changes, g);
    }
    if changes :| |data| <= 131072 && LeadsTo(d, data, changes, g) {
      var header, body :| data == header + "\n" + body && DeltaParts(header, body, d.w, d.h, changes);
      DeltaOfParts(d, header, body, changes);
      ApplyOverwrites(d.grid, changes, d.w);
      OnlyOverwritten(d.grid, changes, g, Apply(d.grid, changes, d.w));
    }
  }

  lemma OnlyOverwritten(g: Grid, changes: seq<Change>, r: Grid, t: Grid)
    requires Apart(changes) && Overwritten(g, changes, r) && Overwritten(g, changes, t)
    ensures r == t
  {
    forall y, x | 0 <= y < |g| && 0 <= x < |g[y]|
      ensures r[y][x] == t[y][x]
    {
      if exists i :: 0 <= i < |changes| && At(changes[i]) == (y, x) {
        var i :| 0 <= i < |changes| && changes[i] == Change(y, x, r[y][x]);
        var j :| 0 <= j < |changes| && changes[j] == Change(y, x, t[y][x]);
        assert At(changes[i]) == At(changes[j]);
      }
    }
    forall y | 0 <= y < |g|
      ensures r[y] == t[y]
    {
    }
  }
}
