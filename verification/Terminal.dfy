/**
 Cell grids as terminal output. A small terminal interprets text one character at a time: graphic
 characters, line feeds and SGR escape sequences (section 8.3.117 of ECMA-48; the indexed colours
 of section 13.1.8 of ITU-T T.416). The serialisers leave out escapes that would change nothing;
 this module shows when what they print means what the grid says.
 */
module Terminal {
  import opened Text
  import opened Frames

  // ---------- The terminal ----------

  datatype Colour = Default | Indexed(n: nat)
  datatype Pen = Pen(fg: Colour, bg: Colour)
  datatype Glyph = Glyph(ch: char, pen: Pen)

  const PLAIN := Pen(Default, Default)
  const ESC := '\U{1B}'

  datatype Mode =
    | Ground
    | Escape                              // after ESC
    | Params(done: seq<nat>, last: nat)   // in a control sequence
    | Ignoring                            // in a control sequence that is not well formed

  datatype Screen = Screen(mode: Mode, pen: Pen, rows: seq<seq<Glyph>>, row: seq<Glyph>)

  /** The selected attributes after one SGR control sequence. */
  function Rendition(pen: Pen, params: seq<nat>): Pen
    decreases |params|
  {
    if params == [] then pen
    else if params[0] == 0 then Rendition(PLAIN, params[1..])
    else if |params| >= 3 && params[0] == 38 && params[1] == 5 then
      Rendition(if params[2] <= 255 then pen.(fg := Indexed(params[2])) else pen, params[3..])
    else if |params| >= 3 && params[0] == 48 && params[1] == 5 then
      Rendition(if params[2] <= 255 then pen.(bg := Indexed(params[2])) else pen, params[3..])
    else Rendition(pen, params[1..])
  }

  predicate IsFinal(c: char) {
    '@' <= c <= '~'
  }

  function Feed(t: Screen, c: char): Screen {
    match t.mode
    case Ground =>
      if c == ESC then t.(mode := Escape)
      else if c == '\n' then t.(rows := t.rows + [t.row], row := [])
      else t.(row := t.row + [Glyph(c, t.pen)])
    case Escape => t.(mode := if c == '[' then Params([], 0) else Ground)
    case Params(done, last) =>
      if IsDigit(c) then t.(mode := Params(done, last * 10 + DigitValue(c)))
      else if c == ';' then t.(mode := Params(done + [last], 0))
      else if c == 'm' then t.(mode := Ground, pen := Rendition(t.pen, done + [last]))
      else t.(mode := if IsFinal(c) then Ground else Ignoring)
    case Ignoring => t.(mode := if IsFinal(c) then Ground else Ignoring)
  }

  function Interpret(t: Screen, text: string): Screen {
    if text == "" then t else Feed(Interpret(t, text[..|text| - 1]), text[|text| - 1])
  }

  const BLANK := Screen(Ground, PLAIN, [], [])

  lemma {:induction false} InterpretAppend(t: Screen, a: string, b: string)
    ensures Interpret(t, a + b) == Interpret(Interpret(t, a), b)
  {
    if b == "" {
      assert a + b == a;
    } else {
      var n := |b| - 1;
      assert (a + b)[..|a| + n] == a + b[..n];
      InterpretAppend(t, a, b[..n]);
    }
  }

  lemma InterpretOne(t: Screen, c: char)
    ensures Interpret(t, [c]) == Feed(t, c)
  {
  }

  lemma InterpretThen(t: Screen, a: string, c: char)
    ensures Interpret(t, a + [c]) == Feed(Interpret(t, a), c)
  {
  }

  /** A printed number is read back as that parameter. */
  lemma {:induction false} NumberParam(t: Screen, done: seq<nat>, n: nat)
    requires t.mode == Params(done, 0)
    ensures Interpret(t, FormatNat(n)) == t.(mode := Params(done, n))
  {
    if n < 10 {
      assert FormatNat(n) == [DigitChar(n)];
      InterpretOne(t, DigitChar(n));
    } else {
      NumberParam(t, done, n / 10);
      InterpretThen(t, FormatNat(n / 10), DigitChar(n % 10));
    }
  }

  // ---------- What the serialisers print ----------

  const RESET := [ESC, '[', '0', 'm']

  /** Selects colour n, as foreground when the first digit is 3 and as background when it is 4. */
  function ColourText(first: char, n: int): string {
    [ESC, '[', first, '8', ';', '5', ';'] + Itoa(n) + "m"
  }

  lemma ResetMeans(t: Screen)
    requires t.mode == Ground
    ensures Interpret(t, RESET) == t.(pen := PLAIN)
  {
    InterpretOne(t, ESC);
    InterpretThen(t, [ESC], '[');
    InterpretThen(t, [ESC, '['], '0');
    InterpretThen(t, [ESC, '[', '0'], 'm');
    assert RESET == [ESC, '[', '0'] + ['m'] && [ESC, '[', '0'] == [ESC, '['] + ['0'] && [ESC, '['] == [ESC] + ['['];
    assert [] + [0] == [0] && [0][1..] == [];
    assert Rendition(t.pen, [0]) == PLAIN;
  }

  /** The opening of an indexed-colour sequence. */
  lemma ColourOpening(t: Screen, first: char)
    requires t.mode == Ground && IsDigit(first)
    ensures Interpret(t, [ESC, '[', first, '8', ';', '5', ';'])
         == t.(mode := Params([DigitValue(first) * 10 + 8, 5], 0))
  {
    var s := [ESC, '[', first, '8', ';', '5', ';'];
    InterpretOne(t, ESC);
    assert [ESC, '['] == [ESC] + ['['] && s[..3] == [ESC, '['] + [first] && s[..4] == s[..3] + ['8'];
    assert s[..5] == s[..4] + [';'] && s[..6] == s[..5] + ['5'] && s == s[..6] + [';'];
    InterpretThen(t, [ESC], '[');
    InterpretThen(t, [ESC, '['], first);
    InterpretThen(t, s[..3], '8');
    InterpretThen(t, s[..4], ';');
    InterpretThen(t, s[..5], '5');
    InterpretThen(t, s[..6], ';');
    var d := DigitValue(first);
    assert [d * 10 + 8] + [5] == [d * 10 + 8, 5];
  }

  function Painted(pen: Pen, first: char, n: nat): Pen {
    if first == '3' then pen.(fg := Indexed(n)) else pen.(bg := Indexed(n))
  }

  lemma RenditionColour(pen: Pen, first: char, n: nat)
    requires (first == '3' || first == '4') && n <= 255
    ensures Rendition(pen, [DigitValue(first) * 10 + 8, 5] + [n]) == Painted(pen, first, n)
  {
  }

  /** An indexed colour of 0 to 255 is selected; a negative one makes a sequence without effect. */
  lemma ColourMeans(t: Screen, first: char, n: int)
    requires t.mode == Ground && (first == '3' || first == '4') && n <= 255
    ensures Interpret(t, ColourText(first, n)) == if n >= 0 then t.(pen := Painted(t.pen, first, n)) else t
  {
    var opening := [ESC, '[', first, '8', ';', '5', ';'];
    var code := DigitValue(first) * 10 + 8;
    var u := t.(mode := Params([code, 5], 0));
    ColourOpening(t, first);
    InterpretAppend(t, opening, Itoa(n));
    InterpretThen(t, opening + Itoa(n), 'm');
    if n >= 0 {
      NumberParam(u, [code, 5], n);
      RenditionColour(t.pen, first, n);
    } else {
      InterpretNegative(u, [code, 5], n);
    }
  }

  lemma {:induction false} IgnoredDigits(t: Screen, n: nat)
    requires t.mode == Ignoring
    ensures Interpret(t, FormatNat(n)) == t
  {
    if n < 10 {
      InterpretOne(t, DigitChar(n));
    } else {
      IgnoredDigits(t, n / 10);
      InterpretThen(t, FormatNat(n / 10), DigitChar(n % 10));
    }
  }

  lemma InterpretNegative(t: Screen, done: seq<nat>, n: int)
    requires t.mode == Params(done, 0) && n < 0
    ensures Interpret(t, Itoa(n)) == t.(mode := Ignoring)
  {
    MinusIgnored(t, done);
    assert Itoa(n) == "-" + FormatNat(-n);
    InterpretAppend(t, "-", FormatNat(-n));
    IgnoredDigits(t.(mode := Ignoring), -n);
  }

  lemma MinusIgnored(t: Screen, done: seq<nat>)
    requires t.mode == Params(done, 0)
    ensures Interpret(t, "-") == t.(mode := Ignoring)
  {
    InterpretOne(t, '-');
  }

  // ---------- Serialisers ----------

  datatype Style = Colour256 | HalfBlock

  const LOWER_HALF := '\U{2584}'

  /** The colours that the serialiser believes selected; -1 is the default one. */
  datatype Last = Last(fg: int, bg: int)

  const NONE := Last(-1, -1)

  predicate IsBlank(c: Cell) {
    c.ch == 32
  }

  function GlyphOf(style: Style, c: Cell): char {
    if IsBlank(c) then ' ' else if style.HalfBlock? then LOWER_HALF else c.ch as char
  }

  function Next(style: Style, last: Last, c: Cell): Last {
    if IsBlank(c) then NONE else Last(c.fg, if style.HalfBlock? then c.bg else last.bg)
  }

  /** The output so far with the escapes that go before a cell. */
  function Prepared(style: Style, output: string, last: Last, c: Cell): string {
    if IsBlank(c) then
      if last != NONE then output + RESET else output
    else
      var output := if style.HalfBlock? && c.bg != last.bg then output + ColourText('4', c.bg) else output;
      if c.fg != last.fg then output + ColourText('3', c.fg) else output
  }

  function LastAfter(style: Style, row: seq<Cell>): Last {
    if row == [] then NONE else Next(style, LastAfter(style, row[..|row| - 1]), row[|row| - 1])
  }

  function RowOutput(style: Style, row: seq<Cell>): string {
    if row == [] then ""
    else
      var before, c := row[..|row| - 1], row[|row| - 1];
      Prepared(style, RowOutput(style, before), LastAfter(style, before), c) + [GlyphOf(style, c)]
  }

  function RowsOutput(style: Style, rows: Grid): string {
    if rows == [] then ""
    else
      (if |rows| == 1 then "" else RowsOutput(style, rows[..|rows| - 1]) + RESET + "\n")
      + RowOutput(style, rows[|rows| - 1])
  }

  /** The whole output for a grid. */
  function Output(style: Style, g: Grid): string {
    if g == [] then "" else RowsOutput(style, g) + RESET
  }

  lemma RowOutputSnoc(style: Style, row: seq<Cell>, x: nat)
    requires x < |row|
    ensures var last := LastAfter(style, row[..x]);
            && LastAfter(style, row[..x + 1]) == Next(style, last, row[x])
            && RowOutput(style, row[..x + 1])
               == Prepared(style, RowOutput(style, row[..x]), last, row[x]) + [GlyphOf(style, row[x])]
  {
    assert row[..x + 1][..x] == row[..x];
  }

  lemma RowsOutputSnoc(style: Style, rows: Grid, y: nat)
    requires y < |rows|
    ensures RowsOutput(style, rows[..y + 1])
         == (if y == 0 then "" else RowsOutput(style, rows[..y]) + RESET + "\n") + RowOutput(style, rows[y])
  {
    assert rows[..y + 1][..y] == rows[..y];
  }

  /** One row of 256-colour text, after `text`. */
  method WriteColour256Row(row: seq<Cell>, text: string) returns (longer: string)
    ensures longer == text + RowOutput(Colour256, row)
  {
    var output, lastFg := "", -1;
    for x := 0 to |row|
      invariant LastAfter(Colour256, row[..x]) == Last(lastFg, -1)
      invariant output == RowOutput(Colour256, row[..x])
    {
      var c := row[x];
      RowOutputSnoc(Colour256, row, x);
      if c.ch == 32 {
        if lastFg != -1 {
          output := output + RESET;
          lastFg := -1;
        }
        output := output + " ";
        continue;
      }
      if c.fg != lastFg {
        output := output + ColourText('3', c.fg);
        lastFg := c.fg;
      }
      output := output + [c.ch as char];
    }
    assert row[..|row|] == row;
    longer := text + output;
  }

  /** One row of half blocks, after `text`. */
  method WriteHalfBlockRow(row: seq<Cell>, text: string) returns (longer: string)
    ensures longer == text + RowOutput(HalfBlock, row)
  {
    var output, lastBg, lastFg := "", -1, -1;
    for x := 0 to |row|
      invariant LastAfter(HalfBlock, row[..x]) == Last(lastFg, lastBg)
      invariant output == RowOutput(HalfBlock, row[..x])
    {
      var c := row[x];
      RowOutputSnoc(HalfBlock, row, x);
      if c.ch == 32 {
        if lastBg != -1 || lastFg != -1 {
          output := output + RESET;
          lastBg, lastFg := -1, -1;
        }
        output := output + " ";
        continue;
      }
      if c.bg != lastBg {
        output := output + ColourText('4', c.bg);
        lastBg := c.bg;
      }
      if c.fg != lastFg {
        output := output + ColourText('3', c.fg);
        lastFg := c.fg;
      }
      output := output + [LOWER_HALF];
    }
    assert row[..|row|] == row;
    longer := text + output;
  }

  /** serialiseColor256. */
  method SerialiseColour256(cells: Grid) returns (text: string)
    requires |cells| > 0 ==> Rectangular(cells, |cells[0]|, |cells|)
    ensures text == Output(Colour256, cells)
  {
    if |cells| == 0 {
      return "";
    }
    text := "";
    for y := 0 to |cells|
      invariant text == Opening(Colour256, cells, y)
    {
      RowsOutputSnoc(Colour256, cells, y);
      text := WriteColour256Row(cells[y], text);
      if y < |cells| - 1 {
        text := text + RESET + "\n";
      }
    }
    assert cells[..|cells|] == cells;
    text := text + RESET;
  }

  /** What has been printed before row y, line break included. */
  function Opening(style: Style, rows: Grid, y: nat): string
    requires y <= |rows|
  {
    if y == 0 then ""
    else if y == |rows| then RowsOutput(style, rows[..y])
    else RowsOutput(style, rows[..y]) + RESET + "\n"
  }

  /** serialiseHalfBlock. */
  method SerialiseHalfBlock(cells: Grid) returns (text: string)
    requires |cells| > 0 ==> Rectangular(cells, |cells[0]|, |cells|)
    ensures text == Output(HalfBlock, cells)
  {
    if |cells| == 0 {
      return "";
    }
    text := "";
    for y := 0 to |cells|
      invariant text == Opening(HalfBlock, cells, y)
    {
      RowsOutputSnoc(HalfBlock, cells, y);
      text := WriteHalfBlockRow(cells[y], text);
      if y < |cells| - 1 {
        text := text + RESET + "\n";
      }
    }
    assert cells[..|cells|] == cells;
    text := text + RESET;
  }

  // ---------- What the output shows ----------

  /** What the serialisers are given: no control characters, and colours that fit the palette. */
  predicate Showable(c: Cell) {
    -1 <= c.fg <= 255 && -1 <= c.bg <= 255 && c.ch != 10 && c.ch != 27
  }

  predicate ShowableRow(row: seq<Cell>) {
    forall x :: 0 <= x < |row| ==> Showable(row[x])
  }

  predicate ShowableGrid(g: Grid) {
    forall y :: 0 <= y < |g| ==> ShowableRow(g[y])
  }

  /** The terminal's attributes when the cell is printed. */
  function PenNext(style: Style, pen: Pen, last: Last, c: Cell): Pen {
    if IsBlank(c) then
      if last != NONE then PLAIN else pen
    else
      var pen := if style.HalfBlock? && c.bg != last.bg && c.bg >= 0 then pen.(bg := Indexed(c.bg)) else pen;
      if c.fg != last.fg && c.fg >= 0 then pen.(fg := Indexed(c.fg)) else pen
  }

  lemma ColourAppended(t: Screen, output: string, first: char, n: int)
    requires Interpret(t, output).mode == Ground && (first == '3' || first == '4') && n <= 255
    ensures var u := Interpret(t, output);
            Interpret(t, output + ColourText(first, n)) == if n >= 0 then u.(pen := Painted(u.pen, first, n)) else u
  {
    InterpretAppend(t, output, ColourText(first, n));
    ColourMeans(Interpret(t, output), first, n);
  }

  lemma ResetAppended(t: Screen, output: string)
    requires Interpret(t, output).mode == Ground
    ensures Interpret(t, output + RESET) == Interpret(t, output).(pen := PLAIN)
  {
    InterpretAppend(t, output, RESET);
    ResetMeans(Interpret(t, output));
  }

  lemma PreparedMeans(t: Screen, style: Style, output: string, last: Last, c: Cell)
    requires Interpret(t, output).mode == Ground && Showable(c)
    ensures var u := Interpret(t, output);
            Interpret(t, Prepared(style, output, last, c)) == u.(pen := PenNext(style, u.pen, last, c))
  {
    if IsBlank(c) {
      ResetAppended(t, output);
    } else {
      ColourAppended(t, output, '4', c.bg);
      var coloured := if style.HalfBlock? && c.bg != last.bg then output + ColourText('4', c.bg) else output;
      ColourAppended(t, coloured, '3', c.fg);
    }
  }

  function PenAfter(style: Style, row: seq<Cell>): Pen {
    if row == [] then PLAIN
    else
      var before := row[..|row| - 1];
      PenNext(style, PenAfter(style, before), LastAfter(style, before), row[|row| - 1])
  }

  /** What the terminal shows for a row. */
  function Shown(style: Style, row: seq<Cell>): (glyphs: seq<Glyph>)
    ensures |glyphs| == |row|
  {
    if row == [] then []
    else Shown(style, row[..|row| - 1]) + [Glyph(GlyphOf(style, row[|row| - 1]), PenAfter(style, row))]
  }

  lemma {:induction false} RowMeans(t: Screen, style: Style, row: seq<Cell>)
    requires t.mode == Ground && t.pen == PLAIN && ShowableRow(row)
    ensures Interpret(t, RowOutput(style, row)) == t.(pen := PenAfter(style, row), row := t.row + Shown(style, row))
  {
    if row == [] {
      assert t.row + [] == t.row;
    } else {
      var before, c := row[..|row| - 1], row[|row| - 1];
      RowMeans(t, style, before);
      var last := LastAfter(style, before);
      PreparedMeans(t, style, RowOutput(style, before), last, c);
      InterpretThen(t, Prepared(style, RowOutput(style, before), last, c), GlyphOf(style, c));
    }
  }

  function ShownRows(style: Style, g: Grid): seq<seq<Glyph>> {
    seq(|g|, y requires 0 <= y < |g| => Shown(style, g[y]))
  }

  lemma ShownRowsSnoc(style: Style, g: Grid)
    requires g != []
    ensures ShownRows(style, g) == ShownRows(style, g[..|g| - 1]) + [Shown(style, g[|g| - 1])]
  {
  }

  lemma {:induction false} RowsMean(style: Style, g: Grid)
    requires |g| > 0 && ShowableGrid(g)
    ensures var n := |g| - 1;
            Interpret(BLANK, RowsOutput(style, g))
              == Screen(Ground, PenAfter(style, g[n]), ShownRows(style, g[..n]), Shown(style, g[n]))
  {
    var n := |g| - 1;
    if n > 0 {
      var before := RowsOutput(style, g[..n]);
      RowsMean(style, g[..n]);
      ShownRowsSnoc(style, g[..n]);
      ResetAppended(BLANK, before);
      InterpretThen(BLANK, before + RESET, '\n');
      InterpretAppend(BLANK, before + RESET + "\n", RowOutput(style, g[n]));
      RowMeans(Screen(Ground, PLAIN, ShownRows(style, g[..n]), []), style, g[n]);
    } else {
      assert "" + RowOutput(style, g[n]) == RowOutput(style, g[n]);
      RowMeans(BLANK, style, g[n]);
    }
    assert [] + Shown(style, g[n]) == Shown(style, g[n]);
  }

  function Picture(t: Screen): seq<seq<Glyph>> {
    t.rows + [t.row]
  }

  lemma OutputMeans(style: Style, g: Grid)
    requires |g| > 0 && ShowableGrid(g)
    ensures var t := Interpret(BLANK, Output(style, g));
            t.mode == Ground && t.pen == PLAIN && Picture(t) == ShownRows(style, g)
  {
    RowsMean(style, g);
    ResetAppended(BLANK, RowsOutput(style, g));
    ShownRowsSnoc(style, g);
  }

  // ---------- What the grid means ----------

  function ColourOf(n: int): Colour {
    if n < 0 then Default else Indexed(n)
  }

  function PenOf(style: Style, c: Cell): Pen {
    if IsBlank(c) then PLAIN else Pen(ColourOf(c.fg), if style.HalfBlock? then ColourOf(c.bg) else Default)
  }

  function Meant(style: Style, row: seq<Cell>): seq<Glyph> {
    seq(|row|, x requires 0 <= x < |row| => Glyph(GlyphOf(style, row[x]), PenOf(style, row[x])))
  }

  /** The picture that a grid stands for: every cell in its own colours, -1 being the default one. */
  function MeantRows(style: Style, g: Grid): seq<seq<Glyph>> {
    seq(|g|, y requires 0 <= y < |g| => Meant(style, g[y]))
  }

  /** Cell d goes back to a default colour right after cell c had another. */
  predicate Fades(style: Style, c: Cell, d: Cell) {
    && !IsBlank(c) && !IsBlank(d)
    && ((c.fg >= 0 && d.fg < 0) || (style.HalfBlock? && c.bg >= 0 && d.bg < 0))
  }

  predicate FadesAt(style: Style, row: seq<Cell>, x: nat)
    requires x < |row|
  {
    x > 0 && Fades(style, row[x - 1], row[x])
  }

  predicate NeverFades(style: Style, row: seq<Cell>) {
    forall x :: 0 <= x < |row| ==> !FadesAt(style, row, x)
  }

  lemma NeverFadesSnoc(style: Style, row: seq<Cell>)
    requires row != []
    ensures NeverFades(style, row) <==> NeverFades(style, row[..|row| - 1]) && !FadesAt(style, row, |row| - 1)
  {
    var before := row[..|row| - 1];
    assert forall x :: 0 <= x < |before| ==> FadesAt(style, before, x) == FadesAt(style, row, x);
    if NeverFades(style, before) && !FadesAt(style, row, |before|) {
      forall x | 0 <= x < |row|
        ensures !FadesAt(style, row, x)
      {
        if x < |before| {
          assert !FadesAt(style, before, x);
        }
      }
    }
  }

  predicate GridNeverFades(style: Style, g: Grid) {
    forall y :: 0 <= y < |g| ==> NeverFades(style, g[y])
  }

  function PenOfLast(last: Last): Pen {
    Pen(ColourOf(last.fg), ColourOf(last.bg))
  }

  lemma {:induction false} LastIsLast(style: Style, row: seq<Cell>)
    requires row != []
    ensures PenOfLast(LastAfter(style, row)) == PenOf(style, row[|row| - 1])
    ensures style.Colour256? ==> LastAfter(style, row).bg == -1
  {
    if |row| > 1 {
      LastIsLast(style, row[..|row| - 1]);
    }
  }

  /** Where the terminal is as the serialiser believes, the next cell is shown as meant exactly if it does not fade. */
  lemma NextPen(style: Style, last: Last, previous: Cell, c: Cell)
    requires Showable(previous) && Showable(c) && PenOfLast(last) == PenOf(style, previous)
    requires last == Next(style, last, previous) && (style.Colour256? ==> last.bg == -1)
    ensures PenNext(style, PenOfLast(last), last, c) == PenOf(style, c) <==> !Fades(style, previous, c)
  {
  }

  lemma SameSnoc(a: seq<Glyph>, x: Glyph, b: seq<Glyph>, y: Glyph)
    ensures a + [x] == b + [y] <==> a == b && x == y
  {
    if a + [x] == b + [y] {
      assert (a + [x])[..|a|] == a && (b + [y])[..|b|] == b && (a + [x])[|a|] == x;
    }
  }

  /** A row is shown as meant exactly when no colour in it fades; then the terminal is as the serialiser believes. */
  lemma {:induction false} RowExactly(style: Style, row: seq<Cell>)
    requires ShowableRow(row)
    ensures Shown(style, row) == Meant(style, row) <==> NeverFades(style, row)
    ensures NeverFades(style, row) ==> PenAfter(style, row) == PenOfLast(LastAfter(style, row))
  {
    if row != [] {
      var n := |row| - 1;
      var before := row[..n];
      RowExactly(style, before);
      NeverFadesSnoc(style, row);
      LastIsLast(style, row);
      var meant := Glyph(GlyphOf(style, row[n]), PenOf(style, row[n]));
      assert Meant(style, row) == Meant(style, before) + [meant];
      SameSnoc(Shown(style, before), Glyph(GlyphOf(style, row[n]), PenAfter(style, row)), Meant(style, before), meant);
      if n > 0 {
        LastIsLast(style, before);
        NextPen(style, LastAfter(style, before), row[n - 1], row[n]);
      }
    }
  }

  /**
   Leaving out escapes preserves the meaning: the output leaves the terminal with default attributes
   and shows the picture that the grid stands for, exactly when no cell goes back to a default
   colour right after a cell with another colour.
   */
  lemma ElisionExactly(style: Style, g: Grid)
    requires |g| > 0 && ShowableGrid(g)
    ensures var t := Interpret(BLANK, Output(style, g));
            && t.mode == Ground && t.pen == PLAIN
            && (Picture(t) == MeantRows(style, g) <==> GridNeverFades(style, g))
  {
    OutputMeans(style, g);
    forall y | 0 <= y < |g|
      ensures Shown(style, g[y]) == Meant(style, g[y]) <==> NeverFades(style, g[y])
    {
      RowExactly(style, g[y]);
    }
    var shown, meant := ShownRows(style, g), MeantRows(style, g);
    assert forall y :: 0 <= y < |g| ==> shown[y] == Shown(style, g[y]) && meant[y] == Meant(style, g[y]);
  }

  /** What character the output shows at each position: the cell's own, a lower half block, or a blank. */
  lemma PictureCharacters(style: Style, g: Grid, y: nat, x: nat)
    requires ShowableGrid(g) && y < |g| && x < |g[y]|
    ensures var picture := Picture(Interpret(BLANK, Output(style, g)));
            && |picture| == |g| && |picture[y]| == |g[y]|
            && picture[y][x].ch ==
               if g[y][x].ch == 32 then ' ' else if style == HalfBlock then '\U{2584}' else g[y][x].ch as char
  {
    OutputMeans(style, g);
    ShownCharacter(style, g[y], x);
  }

  lemma {:induction false} ShownCharacter(style: Style, row: seq<Cell>, x: nat)
    requires x < |row|
    ensures Shown(style, row)[x].ch ==
            if row[x].ch == 32 then ' ' else if style == HalfBlock then '\U{2584}' else row[x].ch as char
  {
    if x < |row| - 1 {
      ShownCharacter(style, row[..|row| - 1], x);
    }
  }

  /** What a cell is meant to look like, in its own terms. */
  lemma MeantCell(style: Style, g: Grid, y: nat, x: nat)
    requires y < |g| && x < |g[y]| && Showable(g[y][x])
    ensures var c, glyph := g[y][x], MeantRows(style, g)[y][x];
            if c.ch == 32 then glyph == Glyph(' ', Pen(Default, Default))
            else
              && glyph.ch == (if style == HalfBlock then '\U{2584}' else c.ch as char)
              && glyph.pen.fg == (if c.fg == -1 then Default else Indexed(c.fg))
              && glyph.pen.bg == (if style == Colour256 || c.bg == -1 then Default else Indexed(c.bg))
  {
  }

  /** Every grid that the frame decoder holds can be shown. */
  lemma LegalIsShowable(g: Grid, mode: int)
    requires LegalGrid(g, mode)
    ensures ShowableGrid(g)
  {
  }

  /** A legal grid whose second cell is shown in the first one's colour. */
  lemma FadingExample()
    ensures var g := [[Cell(65, 1, -1), Cell(66, -1, -1)]];
            LegalGrid(g, MODE_COLOR256) && Picture(Interpret(BLANK, Output(Colour256, g))) != MeantRows(Colour256, g)
  {
    var g := [[Cell(65, 1, -1), Cell(66, -1, -1)]];
    LegalIsShowable(g, MODE_COLOR256);
    ElisionExactly(Colour256, g);
    assert FadesAt(Colour256, g[0], 1);
    assert !NeverFades(Colour256, g[0]);
  }

  // ---------- Setting every colour every time ----------

  function NaivePrepared(style: Style, output: string, c: Cell): string {
    if IsBlank(c) then output + RESET
    else (if style.HalfBlock? then output + ColourText('4', c.bg) else output) + ColourText('3', c.fg)
  }

  function NaiveRow(style: Style, row: seq<Cell>): string {
    if row == [] then ""
    else NaivePrepared(style, NaiveRow(style, row[..|row| - 1]), row[|row| - 1]) + [GlyphOf(style, row[|row| - 1])]
  }

  function NaiveRows(style: Style, rows: Grid): string {
    if rows == [] then ""
    else
      (if |rows| == 1 then "" else NaiveRows(style, rows[..|rows| - 1]) + RESET + "\n")
      + NaiveRow(style, rows[|rows| - 1])
  }

  function NaiveOutput(style: Style, g: Grid): string {
    if g == [] then "" else NaiveRows(style, g) + RESET
  }

  /** Every cell that is not blank has colours of the palette, as every cell from the renderer does. */
  predicate Coloured(style: Style, row: seq<Cell>) {
    forall x :: 0 <= x < |row| && !IsBlank(row[x]) ==> row[x].fg >= 0 && (style.HalfBlock? ==> row[x].bg >= 0)
  }

  lemma NaivePreparedMeans(t: Screen, style: Style, output: string, c: Cell)
    requires Interpret(t, output).mode == Ground && Showable(c)
    requires !IsBlank(c) ==> c.fg >= 0 && (style.HalfBlock? ==> c.bg >= 0)
    requires style.Colour256? ==> Interpret(t, output).pen.bg == Default
    ensures Interpret(t, NaivePrepared(style, output, c)) == Interpret(t, output).(pen := PenOf(style, c))
  {
    if IsBlank(c) {
      ResetAppended(t, output);
    } else {
      ColourAppended(t, output, '4', c.bg);
      var coloured := if style.HalfBlock? then output + ColourText('4', c.bg) else output;
      ColourAppended(t, coloured, '3', c.fg);
    }
  }

  function PenOfRow(style: Style, row: seq<Cell>): Pen {
    if row == [] then PLAIN else PenOf(style, row[|row| - 1])
  }

  lemma MeantSnoc(style: Style, row: seq<Cell>, start: seq<Glyph>)
    requires row != []
    ensures var before, c := row[..|row| - 1], row[|row| - 1];
            start + Meant(style, row) == start + Meant(style, before) + [Glyph(GlyphOf(style, c), PenOf(style, c))]
  {
  }

  lemma {:induction false} NaiveRowMeans(t: Screen, style: Style, row: seq<Cell>)
    requires t.mode == Ground && t.pen == PLAIN && ShowableRow(row) && Coloured(style, row)
    ensures Interpret(t, NaiveRow(style, row))
         == t.(pen := PenOfRow(style, row), row := t.row + Meant(style, row))
  {
    if row == [] {
      assert t.row + Meant(style, row) == t.row;
    } else {
      var before, c := row[..|row| - 1], row[|row| - 1];
      NaiveRowMeans(t, style, before);
      NaivePreparedMeans(t, style, NaiveRow(style, before), c);
      InterpretThen(t, NaivePrepared(style, NaiveRow(style, before), c), GlyphOf(style, c));
      MeantSnoc(style, row, t.row);
    }
  }

  lemma MeantRowsSnoc(style: Style, g: Grid)
    requires g != []
    ensures MeantRows(style, g) == MeantRows(style, g[..|g| - 1]) + [Meant(style, g[|g| - 1])]
  {
  }

  lemma {:induction false} NaiveRowsMean(style: Style, g: Grid)
    requires |g| > 0 && ShowableGrid(g) && forall y :: 0 <= y < |g| ==> Coloured(style, g[y])
    ensures var n := |g| - 1;
            var t := Interpret(BLANK, NaiveRows(style, g));
            t.mode == Ground && t.rows == MeantRows(style, g[..n]) && t.row == Meant(style, g[n])
  {
    var n := |g| - 1;
    if n > 0 {
      var before := NaiveRows(style, g[..n]);
      NaiveRowsMean(style, g[..n]);
      MeantRowsSnoc(style, g[..n]);
      ResetAppended(BLANK, before);
      InterpretThen(BLANK, before + RESET, '\n');
      InterpretAppend(BLANK, before + RESET + "\n", NaiveRow(style, g[n]));
      NaiveRowMeans(Screen(Ground, PLAIN, MeantRows(style, g[..n]), []), style, g[n]);
    } else {
      assert "" + NaiveRow(style, g[n]) == NaiveRow(style, g[n]);
      NaiveRowMeans(BLANK, style, g[n]);
    }
    assert [] + Meant(style, g[n]) == Meant(style, g[n]);
  }

  /** On the renderer's grids the terminal ends up the same as when every cell sets its own colours. */
  lemma ElisionSameAsNaive(style: Style, g: Grid)
    requires ShowableGrid(g) && forall y :: 0 <= y < |g| ==> Coloured(style, g[y])
    ensures var t := Interpret(BLANK, Output(style, g));
            var u := Interpret(BLANK, NaiveOutput(style, g));
            t.mode == u.mode && t.pen == u.pen && Picture(t) == Picture(u)
  {
    if g != [] {
      ElisionExactly(style, g);
      NaiveRowsMean(style, g);
      ResetAppended(BLANK, NaiveRows(style, g));
      MeantRowsSnoc(style, g);
    }
  }

  // ---------- Plain text ----------

  function PlainRow(row: seq<Cell>): string {
    seq(|row|, x requires 0 <= x < |row| => row[x].ch as char)
  }

  function PlainRows(g: Grid): seq<string> {
    seq(|g|, y requires 0 <= y < |g| => PlainRow(g[y]))
  }

  /** serialiseASCII. */
  method SerialiseAscii(cells: Grid) returns (text: string)
    requires |cells| > 0 ==> Rectangular(cells, |cells[0]|, |cells|)
    ensures text == Join(PlainRows(cells), '\n')
  {
    text := "";
    for y := 0 to |cells|
      invariant text == Join(PlainRows(cells[..y]), '\n') + if 0 < y < |cells| then "\n" else ""
    {
      ghost var start := text;
      for x := 0 to |cells[y]|
        invariant text == start + PlainRow(cells[y][..x])
      {
        text := text + [cells[y][x].ch as char];
      }
      assert cells[y][..|cells[y]|] == cells[y];
      if y < |cells| - 1 {
        text := text + "\n";
      }
      assert PlainRows(cells[..y + 1]) == PlainRows(cells[..y]) + [PlainRow(cells[y])];
      if y > 0 {
        JoinSnoc(PlainRows(cells[..y]), PlainRow(cells[y]), '\n');
      }
    }
    assert cells[..|cells|] == cells;
  }

  function PlainGlyphs(text: string): seq<Glyph> {
    seq(|text|, i requires 0 <= i < |text| => Glyph(text[i], PLAIN))
  }

  lemma {:induction false} TextMeans(t: Screen, text: string)
    requires t.mode == Ground && t.pen == PLAIN && '\n' !in text && ESC !in text
    ensures Interpret(t, text) == t.(row := t.row + PlainGlyphs(text))
  {
    if text == "" {
      assert t.row + PlainGlyphs(text) == t.row;
    } else {
      var n := |text| - 1;
      TextMeans(t, text[..n]);
      assert t.row + PlainGlyphs(text) == t.row + PlainGlyphs(text[..n]) + [Glyph(text[n], PLAIN)];
    }
  }

  /** Plain text shows each row on a line of its own, in default colours. */
  lemma {:induction false} LinesMean(lines: seq<string>)
    requires |lines| > 0 && forall y :: 0 <= y < |lines| ==> '\n' !in lines[y] && ESC !in lines[y]
    ensures var t := Interpret(BLANK, Join(lines, '\n'));
            && t.mode == Ground && t.pen == PLAIN
            && Picture(t) == seq(|lines|, y requires 0 <= y < |lines| => PlainGlyphs(lines[y]))
  {
    var n := |lines| - 1;
    var shown := seq(|lines|, y requires 0 <= y < |lines| => PlainGlyphs(lines[y]));
    if n == 0 {
      TextMeans(BLANK, lines[0]);
      assert [] + PlainGlyphs(lines[0]) == PlainGlyphs(lines[0]);
      assert shown == [PlainGlyphs(lines[0])];
    } else {
      LinesMean(lines[..n]);
      var before := Join(lines[..n], '\n');
      InterpretThen(BLANK, before, '\n');
      var t := Interpret(BLANK, before + "\n");
      InterpretAppend(BLANK, before + "\n", lines[n]);
      TextMeans(t, lines[n]);
      assert [] + PlainGlyphs(lines[n]) == PlainGlyphs(lines[n]);
      assert shown == Picture(Interpret(BLANK, before)) + [PlainGlyphs(lines[n])];
    }
  }

  lemma AsciiMeans(g: Grid)
    requires |g| > 0 && ShowableGrid(g)
    ensures var t := Interpret(BLANK, Join(PlainRows(g), '\n'));
            && t.pen == PLAIN && |Picture(t)| == |g|
            && forall y :: 0 <= y < |g| ==>
                 && |Picture(t)[y]| == |g[y]|
                 && forall x :: 0 <= x < |g[y]| ==> Picture(t)[y][x] == Glyph(g[y][x].ch as char, Pen(Default, Default))
  {
    forall y | 0 <= y < |g|
      ensures '\n' !in PlainRows(g)[y] && ESC !in PlainRows(g)[y]
    {
      assert ShowableRow(g[y]);
    }
    LinesMean(PlainRows(g));
  }
}
