/** The text console of src/drivers/fb.c. What is on the screen is described by a grid of cells, and
    by the colour of the pixels outside the grid, one for each pixel row. */
module TextConsole {
  import opened Gfx

  /** A character in its colours, or 16 plain pixel rows. */
  datatype Cell = Glyph(c: nat, fg: Pixel, bg: Pixel) | Strip(rows: seq<Pixel>)

  /** The grid has height / 16 rows of width / 8 cells; the cursor is at column x of row y. */
  datatype Text = Text(width: nat, height: nat, cells: seq<seq<Cell>>, edge: seq<Pixel>,
                       x: nat, y: nat, fg: Pixel, bg: Pixel)

  function Cols(t: Text): nat { t.width / 8 }
  function Rows(t: Text): nat { t.height / 16 }

  ghost predicate WellFormed(t: Text) {
    var sound :=
      && t.width >= 8 && t.height >= 16
      && |t.cells| == Rows(t) && |t.edge| == t.height
      && (forall r :: 0 <= r < |t.cells| ==> |t.cells[r]| == Cols(t))
      && t.x < Cols(t) && t.y <= Rows(t);
    sound
  }

  function CellShade(font: Font, cell: Cell, row: nat, col: nat): Pixel
    requires IsFont(font) && row < 16 && col < 8
  {
    match cell
    case Glyph(c, fg, bg) => if Dot(font, c, row, col) then fg else bg
    case Strip(rows) => Sample(rows, row)
  }

  /** The colour of pixel (j, i). */
  function Shade(font: Font, t: Text, j: nat, i: nat): Pixel
    requires IsFont(font)
  {
    if j / 16 < |t.cells| && i / 8 < |t.cells[j / 16]| then CellShade(font, t.cells[j / 16][i / 8], j % 16, i % 8)
    else Sample(t.edge, j)
  }

  // -------------------------------------------------------------------------------------------
  // What the console does to the text
  // -------------------------------------------------------------------------------------------

  function Plain(c: Pixel): (s: seq<Pixel>)
    ensures |s| == 16 && forall k :: 0 <= k < 16 ==> s[k] == c
  {
    [c, c, c, c, c, c, c, c, c, c, c, c, c, c, c, c]
  }

  function Blank(c: Pixel): Cell { Strip(Plain(c)) }

  function SetCell(t: Text, r: nat, c: nat, cell: Cell): Text
    requires r < |t.cells| && c < |t.cells[r]|
  {
    t.(cells := t.cells[r := t.cells[r][c := cell]])
  }

  /** The pixel rows that scrolling brings into the last row of the grid: what lay below the grid, and
      then the background. */
  function Bottom(t: Text): seq<Pixel> {
    seq(16, k requires 0 <= k < 16 => BottomPixel(t, k))
  }

  function BottomPixel(t: Text, k: nat): Pixel {
    if k < t.height % 16 then Sample(t.edge, Rows(t) * 16 + k) else t.bg
  }

  function BottomRow(t: Text): seq<Cell> {
    seq(Cols(t), c => Strip(Bottom(t)))
  }

  /** `con_scroll`. */
  function Scroll(t: Text): Text
    requires t.cells != [] && t.y > 0
  {
    t.(cells := t.cells[1..] + [BottomRow(t)], y := t.y - 1,
       edge := seq(t.height, j requires 0 <= j < t.height => RaisedEdge(t, j)))
  }

  function RaisedEdge(t: Text, j: nat): Pixel {
    if j + 16 < t.height then Sample(t.edge, j + 16) else t.bg
  }

  /** The loop at the end of `putchar`: the cursor goes at most one row too far. */
  function Settle(t: Text): Text {
    if t.y >= Rows(t) && t.cells != [] && t.y > 0 then Scroll(t) else t
  }

  /** `putchar`. */
  function Put(t: Text, c: nat): Text
    requires WellFormed(t) && t.y < Rows(t)
  {
    if c == 10 then Settle(t.(x := 0, y := t.y + 1))
    else if c == 13 then t.(x := 0)
    else if c == 8 then
      var x := if t.x > 0 then t.x - 1 else 0;
      SetCell(t, t.y, x, Blank(t.bg)).(x := x)
    else Settle(Typed(t, c))
  }

  /** A character at the cursor, which moves on and at the end of a row to the next. */
  function Typed(t: Text, c: nat): Text
    requires WellFormed(t) && t.y < Rows(t)
  {
    var t' := SetCell(t, t.y, t.x, Glyph(c, t.fg, t.bg));
    if t.x + 1 >= Cols(t) then t'.(x := 0, y := t.y + 1) else t'.(x := t.x + 1)
  }

  /** `clear_screen`. */
  function Cleared(t: Text): Text {
    t.(cells := seq(Rows(t), r => seq(Cols(t), c => Blank(t.bg))), edge := seq(t.height, j => t.bg), x := 0, y := 0)
  }

  // -------------------------------------------------------------------------------------------
  // Pixel by pixel
  // -------------------------------------------------------------------------------------------

  lemma CellOfPixel(n: nat, size: nat, k: nat)
    requires size == 8 || size == 16
    ensures n / size == k <==> size * k <= n < size * k + size
    ensures n / size == k ==> n % size == n - size * k
  {
  }

  lemma ShadeSet(font: Font, t: Text, r: nat, c: nat, cell: Cell, j: nat, i: nat)
    requires IsFont(font) && r < |t.cells| && c < |t.cells[r]|
    ensures Shade(font, SetCell(t, r, c, cell), j, i)
         == if InRect(j, i, c * 8, r * 16, 8, 16) then CellShade(font, cell, j - r * 16, i - c * 8)
            else Shade(font, t, j, i)
  {
    CellOfPixel(j, 16, r);
    CellOfPixel(i, 8, c);
  }

  lemma ShadeScroll(font: Font, t: Text, j: nat, i: nat)
    requires IsFont(font) && WellFormed(t) && t.y > 0 && j < t.height && i < t.width
    ensures Shade(font, Scroll(t), j, i) == if j + 16 < t.height then Shade(font, t, j + 16, i) else t.bg
  {
    var r, m := Rows(t), t.height % 16;
    assert t.height == 16 * r + m;
    assert (j + 16) / 16 == j / 16 + 1 && (j + 16) % 16 == j % 16;
    CellOfPixel(j, 16, r - 1);
    CellOfPixel(i, 8, i / 8);
  }

  lemma ShadeCleared(font: Font, t: Text, j: nat, i: nat)
    requires IsFont(font) && j < t.height && i < t.width
    ensures Shade(font, Cleared(t), j, i) == t.bg
  {
  }

  lemma PutWellFormed(t: Text, c: nat)
    requires WellFormed(t) && t.y < Rows(t)
    ensures WellFormed(Put(t, c)) && Put(t, c).y < Rows(t)
    ensures Put(t, c).width == t.width && Put(t, c).height == t.height
  {
    if c != 8 && c != 10 && c != 13 {
      TypedWellFormed(t, c);
      SettleWellFormed(Typed(t, c));
    } else if c == 10 {
      SettleWellFormed(t.(x := 0, y := t.y + 1));
    }
  }

  lemma TypedWellFormed(t: Text, c: nat)
    requires WellFormed(t) && t.y < Rows(t)
    ensures WellFormed(Typed(t, c)) && Typed(t, c).width == t.width && Typed(t, c).height == t.height
  {
  }

  lemma SettleWellFormed(t: Text)
    requires WellFormed(t)
    ensures WellFormed(Settle(t)) && Settle(t).y < Rows(t)
    ensures Settle(t).width == t.width && Settle(t).height == t.height
  {
  }

  // -------------------------------------------------------------------------------------------
  // Blank rows
  // -------------------------------------------------------------------------------------------

  /** The pixel rows below the grid hold this colour. */
  ghost predicate Below(t: Text, c: Pixel) {
    forall j :: 0 <= j < |t.edge| && Rows(t) * 16 <= j ==> t.edge[j] == c
  }

  /** Clearing and scrolling leave the background of the moment below the grid. */
  lemma ClearedBelow(t: Text)
    ensures Below(Cleared(t), t.bg)
  {
  }

  lemma ScrolledBelow(t: Text)
    requires t.cells != [] && t.y > 0
    ensures Below(Scroll(t), t.bg)
  {
    var s := Scroll(t);
    forall j | 0 <= j < t.height && Rows(t) * 16 <= j
      ensures s.edge[j] == t.bg
    {
      assert s.edge[j] == RaisedEdge(t, j);
    }
  }

  /** Nothing else that `putchar` does changes it, and a change of colours does not. */
  lemma PutBelow(t: Text, c: nat, below: Pixel)
    requires WellFormed(t) && t.y < Rows(t) && Below(t, below)
    ensures Put(t, c).edge == t.edge ==> Below(Put(t, c), below)
    ensures Put(t, c).edge != t.edge ==> Below(Put(t, c), t.bg)
  {
    ScrolledBelow(t.(x := 0, y := t.y + 1));
    if c != 8 && c != 10 && c != 13 {
      ScrolledBelow(SetCell(t, t.y, t.x, Glyph(c, t.fg, t.bg)).(x := 0, y := t.y + 1));
    }
  }

  /** The row that scrolls in is blank if and only if the height is a multiple of 16 or the
      background is still that of the last clear or scroll. */
  lemma BottomBlankIff(t: Text, below: Pixel)
    requires WellFormed(t) && Below(t, below)
    ensures Strip(Bottom(t)) == Blank(t.bg) <==> t.height % 16 == 0 || below == t.bg
  {
    var r := Rows(t);
    if t.height % 16 > 0 {
      assert Bottom(t)[0] == t.edge[r * 16] == below && Plain(t.bg)[0] == t.bg;
    }
    if t.height % 16 == 0 || below == t.bg {
      forall k | 0 <= k < 16
        ensures Bottom(t)[k] == Plain(t.bg)[k]
      {
        assert k < t.height % 16 ==> t.edge[r * 16 + k] == below;
      }
      assert Bottom(t) == Plain(t.bg);
    }
  }

  /** On a screen 24 pixels high, clearing in one colour and scrolling in another brings in a row of
      two colours. */
  lemma BottomCanBeColoured()
    ensures
      var t := Cleared(Text(8, 24, [], [], 0, 0, 7, 1)).(bg := 2);
      && WellFormed(t) && t.y < Rows(t)
      && |Put(t, 10).cells| == 1 && |Put(t, 10).cells[0]| == 1 && Put(t, 10).cells[0][0] != Blank(2)
  {
    var t0 := Text(8, 24, [], [], 0, 0, 7, 1);
    var t := Cleared(t0).(bg := 2);
    ClearedBelow(t0);
    assert Below(t, 1);
    var t1 := t.(x := 0, y := 1);
    BottomBlankIff(t1, 1);
    assert Put(t, 10) == Scroll(t1) && BottomRow(t1)[0] == Strip(Bottom(t1));
  }

  /** All pixels outside the grid have the background colour. */
  ghost predicate EdgeBlank(t: Text) {
    forall j :: 0 <= j < |t.edge| ==> t.edge[j] == t.bg
  }

  /** As long as the background is not changed, everything but glyphs is background. */
  lemma EdgeStaysBlank(t: Text, c: nat)
    requires WellFormed(t) && t.y < Rows(t) && EdgeBlank(t)
    ensures EdgeBlank(Put(t, c)) && Put(t, c).bg == t.bg
  {
    SettleBlank(t.(x := 0, y := t.y + 1));
    if c != 10 && c != 13 && c != 8 {
      SettleBlank(SetCell(t, t.y, t.x, Glyph(c, t.fg, t.bg)).(x := 0, y := t.y + 1));
    }
  }

  lemma SettleBlank(t: Text)
    requires |t.edge| == t.height && EdgeBlank(t)
    ensures EdgeBlank(Settle(t))
  {
    if t.y >= Rows(t) && t.cells != [] && t.y > 0 {
      var s := Scroll(t);
      forall j | 0 <= j < t.height
        ensures s.edge[j] == t.bg
      {
        assert s.edge[j] == RaisedEdge(t, j);
      }
    }
  }

  // -------------------------------------------------------------------------------------------
  // The console
  // -------------------------------------------------------------------------------------------

  class Console {
    const screen: Screen
    var curX: nat
    var curY: nat
    var fg: Pixel
    var bg: Pixel
    ghost var text: Text

    /** The screen has room for a character. */
    ghost predicate Ready()
      reads this, screen
    {
      var sound := screen.Valid() && screen.width >= 8 && screen.height >= 16;
      sound
    }

    /** The buffer shows the text. */
    ghost predicate Renders()
      reads this, screen, screen.fb
      requires Ready()
    {
      forall j, i :: 0 <= j < screen.height && 0 <= i < screen.width ==>
        Px(screen.fb, screen.stride, j, i) == Shade(screen.font, text, j, i)
    }

    /** The screen shows what the buffer shows. */
    ghost predicate Coherent()
      reads this, screen, screen.fb, screen.hw
      requires Ready()
    {
      forall j, i :: 0 <= j < screen.height && 0 <= i < screen.width ==>
        Px(screen.hw, screen.stride, j, i) == Px(screen.fb, screen.stride, j, i)
    }

    ghost predicate Fields()
      reads this
    {
      && WellFormed(text) && text.width == screen.width && text.height == screen.height
      && text.x == curX && text.y == curY && text.fg == fg && text.bg == bg
    }

    /** The cursor may be one row below the grid, as inside `putchar`. */
    ghost predicate Drawn()
      reads this, screen, screen.fb, screen.hw
    {
      var sound := Ready() && Fields() && Renders() && Coherent();
      sound
    }

    ghost predicate Valid()
      reads this, screen, screen.fb, screen.hw
    {
      Drawn() && curY < Rows(text)
    }

    constructor (screen: Screen)
      requires screen.Valid() && screen.width >= 8 && screen.height >= 16
      ensures Ready() && this.screen == screen && fg == 0xFFFF_FFFF && bg == 0xFF00_0000
    {
      this.screen := screen;
      curX, curY := 0, 0;
      fg, bg := 0xFFFF_FFFF, 0xFF00_0000;
      text := Text(screen.width, screen.height, [], [], 0, 0, 0xFFFF_FFFF, 0xFF00_0000);
    }

    /** `set_color`; `color` leaves bg as it is. */
    method SetColor(fg: Pixel, bg: Pixel)
      requires Valid()
      modifies this`fg, this`bg, this`text
      ensures Valid() && text == old(text).(fg := fg, bg := bg)
    {
      this.fg, this.bg := fg, bg;
      text := text.(fg := fg, bg := bg);
    }

    /** `clear_screen`, whatever was on the screen before. */
    method ClearScreen()
      requires Ready()
      modifies this`curX, this`curY, this`text, screen.fb, screen.hw
      ensures Valid() && text == Cleared(Text(screen.width, screen.height, [], [], 0, 0, fg, bg))
    {
      screen.Clear(bg);
      screen.Present();
      curX, curY := 0, 0;
      text := Cleared(Text(screen.width, screen.height, [], [], 0, 0, fg, bg));
      forall j, i | 0 <= j < screen.height && 0 <= i < screen.width
        ensures Shade(screen.font, text, j, i) == bg
      {
        ShadeCleared(screen.font, text, j, i);
      }
    }

    /** `con_scroll`. */
    method ConScroll()
      requires Drawn() && curY > 0
      modifies this`curY, this`text, screen.fb, screen.hw
      ensures Drawn() && text == Scroll(old(text))
    {
      ScrollBuffer();
      screen.Present();
      curY := curY - 1;
      text := Scroll(text);
    }

    /** The buffer shows the scrolled text. */
    method ScrollBuffer()
      requires Drawn() && curY > 0
      modifies screen.fb
      ensures forall j, i :: 0 <= j < screen.height && 0 <= i < screen.width ==>
                Px(screen.fb, screen.stride, j, i) == Shade(screen.font, Scroll(text), j, i)
    {
      screen.ScrollUp(16, bg);
      forall j, i | 0 <= j < screen.height && 0 <= i < screen.width
        ensures Px(screen.fb, screen.stride, j, i) == Shade(screen.font, Scroll(text), j, i)
      {
        ShadeScroll(screen.font, text, j, i);
      }
    }

    /** The cell under the cursor has been drawn in the buffer: bring it to the screen. */
    method ShowCell(ghost cell: Cell)
      requires Ready() && Fields() && curY < Rows(text)
      requires forall j, i :: 0 <= j < screen.height && 0 <= i < screen.width ==>
                 Px(screen.fb, screen.stride, j, i) == Shade(screen.font, SetCell(text, curY, curX, cell), j, i)
      requires forall j, i :: 0 <= j < screen.height && 0 <= i < screen.width ==>
                 InRect(j, i, curX * 8, curY * 16, 8, 16)
                 || Px(screen.hw, screen.stride, j, i) == Px(screen.fb, screen.stride, j, i)
      modifies this`text, screen.hw
      ensures Drawn() && text == SetCell(old(text), curY, curX, cell)
    {
      screen.PresentRect(curX * 8, curY * 16, 8, 16);
      text := SetCell(text, curY, curX, cell);
    }

    /** Drawing a character at the cursor. */
    method PutGlyph(c: nat)
      requires Valid()
      modifies this`text, screen.fb, screen.hw
      ensures Drawn() && text == SetCell(old(text), curY, curX, Glyph(c, fg, bg))
    {
      screen.Char(c, curX * 8, curY * 16, fg, bg);
      forall j, i | 0 <= j < screen.height && 0 <= i < screen.width
        ensures Px(screen.fb, screen.stride, j, i)
             == Shade(screen.font, SetCell(text, curY, curX, Glyph(c, fg, bg)), j, i)
      {
        ShadeSet(screen.font, text, curY, curX, Glyph(c, fg, bg), j, i);
      }
      ShowCell(Glyph(c, fg, bg));
    }

    /** Erasing the character at the cursor. */
    method Erase()
      requires Valid()
      modifies this`text, screen.fb, screen.hw
      ensures Drawn() && text == SetCell(old(text), curY, curX, Blank(bg))
    {
      screen.FillRect(curX * 8, curY * 16, 8, 16, bg);
      forall j, i | 0 <= j < screen.height && 0 <= i < screen.width
        ensures Px(screen.fb, screen.stride, j, i) == Shade(screen.font, SetCell(text, curY, curX, Blank(bg)), j, i)
      {
        ShadeSet(screen.font, text, curY, curX, Blank(bg), j, i);
      }
      ShowCell(Blank(bg));
    }

    /** The loop at the end of `putchar`. */
    method ScrollIntoView()
      requires Drawn()
      modifies this`curY, this`text, screen.fb, screen.hw
      ensures Valid() && text == Settle(old(text))
    {
      while curY >= screen.height / 16
        invariant Drawn() && (text == old(text) || (curY < Rows(text) && text == Settle(old(text))))
        decreases curY
      {
        ConScroll();
      }
    }

    /** An ordinary character. */
    method Type(c: nat)
      requires Valid()
      modifies this`curX, this`curY, this`text, screen.fb, screen.hw
      ensures Drawn() && text == Typed(old(text), c)
    {
      PutGlyph(c);
      curX := curX + 1;
      text := text.(x := text.x + 1);
      if curX >= screen.width / 8 {
        curX, curY := 0, curY + 1;
        text := text.(x := 0, y := text.y + 1);
      }
    }

    /** `putchar`. */
    method Putchar(c: nat)
      requires Valid()
      modifies this, screen.fb, screen.hw
      ensures Valid() && text == Put(old(text), c)
    {
      if c == 10 {
        curX, curY := 0, curY + 1;
        text := text.(x := 0, y := text.y + 1);
      } else if c == 13 {
        curX := 0;
        text := text.(x := 0);
      } else if c == 8 {
        if curX > 0 {
          curX := curX - 1;
          text := text.(x := text.x - 1);
        }
        Erase();
      } else {
        Type(c);
      }
      ScrollIntoView();
    }

    /** `print`. */
    method Print(s: seq<nat>)
      requires Valid()
      modifies this, screen.fb, screen.hw
      ensures Valid() && text == Feed(old(text), s)
    {
      for n := 0 to |s|
        invariant Valid() && text == Feed(old(text), s[..n])
      {
        assert s[..n + 1][..n] == s[..n];
        Putchar(s[n]);
      }
      assert s[..|s|] == s;
    }
  }

  /** One `putchar` after the other. */
  function Feed(t: Text, s: seq<nat>): (r: Text)
    requires WellFormed(t) && t.y < Rows(t)
    ensures WellFormed(r) && r.y < Rows(r) && r.width == t.width && r.height == t.height
  {
    if s == [] then t
    else
      var r := Feed(t, s[..|s| - 1]);
      PutWellFormed(r, s[|s| - 1]);
      Put(r, s[|s| - 1])
  }

  // -------------------------------------------------------------------------------------------
  // The screen as a window on a sheet of paper that never scrolls
  // -------------------------------------------------------------------------------------------

  /** An endless sheet with a carriage. */
  datatype Paper = Paper(ink: map<(nat, nat), Cell>, line: nat, col: nat)

  function Write(p: Paper, c: nat, cols: nat, fg: Pixel, bg: Pixel): Paper {
    if c == 10 then p.(line := p.line + 1, col := 0)
    else if c == 13 then p.(col := 0)
    else if c == 8 then
      var col := if p.col > 0 then p.col - 1 else 0;
      p.(ink := p.ink[(p.line, col) := Blank(bg)], col := col)
    else
      var ink := p.ink[(p.line, p.col) := Glyph(c, fg, bg)];
      if p.col + 1 >= cols then Paper(ink, p.line + 1, 0) else Paper(ink, p.line, p.col + 1)
  }

  function WriteAll(p: Paper, s: seq<nat>, cols: nat, fg: Pixel, bg: Pixel): Paper {
    if s == [] then p else Write(WriteAll(p, s[..|s| - 1], cols, fg, bg), s[|s| - 1], cols, fg, bg)
  }

  /** The first of the last `rows` lines written so far. */
  function TopLine(p: Paper, rows: nat): nat {
    if p.line >= rows then p.line + 1 - rows else 0
  }

  function Inked(p: Paper, line: nat, col: nat, bg: Pixel): Cell {
    if (line, col) in p.ink then p.ink[(line, col)] else Blank(bg)
  }

  /** The grid shows the last lines of the paper, and the cursor where the carriage is. */
  ghost predicate Window(t: Text, p: Paper) {
    var sound :=
      && WellFormed(t) && t.y < Rows(t) && EdgeBlank(t)
      && (forall at :: at in p.ink ==> at.0 <= p.line)
      && t.x == p.col && TopLine(p, Rows(t)) + t.y == p.line
      && (forall r, c :: 0 <= r < Rows(t) && 0 <= c < Cols(t) ==>
            t.cells[r][c] == Inked(p, TopLine(p, Rows(t)) + r, c, t.bg));
    sound
  }

  /** Writing where the carriage is, or next to it. */
  lemma CellWindow(t: Text, p: Paper, x: nat, cell: Cell)
    requires Window(t, p) && x < Cols(t)
    ensures Window(SetCell(t, t.y, x, cell).(x := x), p.(ink := p.ink[(p.line, x) := cell], col := x))
  {
  }

  lemma ColumnWindow(t: Text, p: Paper, x: nat)
    requires Window(t, p) && x < Cols(t)
    ensures Window(t.(x := x), p.(col := x))
  {
  }

  /** A new line is a fresh row, or brings one in from below. */
  lemma LineWindow(t: Text, p: Paper)
    requires Window(t, p)
    ensures Window(Settle(t.(x := 0, y := t.y + 1)), p.(line := p.line + 1, col := 0))
  {
    SettleBlank(t.(x := 0, y := t.y + 1));
    if t.y + 1 >= Rows(t) {
      ScrollWindow(t, p);
    }
  }

  lemma ScrollWindow(t: Text, p: Paper)
    requires Window(t, p) && t.y + 1 == Rows(t)
    ensures Window(Scroll(t.(x := 0, y := t.y + 1)), p.(line := p.line + 1, col := 0))
  {
    var t1 := t.(x := 0, y := t.y + 1);
    var s, q := Scroll(t1), p.(line := p.line + 1, col := 0);
    SettleBlank(t1);
    assert Below(t1, t1.bg);
    BottomBlankIff(t1, t1.bg);
    forall r, c | 0 <= r < Rows(t) && 0 <= c < Cols(t)
      ensures s.cells[r][c] == Inked(q, TopLine(q, Rows(t)) + r, c, t.bg)
    {
      if r == Rows(t) - 1 {
        assert s.cells[r] == BottomRow(t1);
      } else {
        assert s.cells[r] == t.cells[r + 1];
      }
    }
  }

  /** The character itself, before the cursor moves on. */
  lemma InkWindow(t: Text, p: Paper, cell: Cell)
    requires Window(t, p)
    ensures Window(SetCell(t, t.y, t.x, cell), Inking(p, cell))
  {
    CellWindow(t, p, t.x, cell);
    var t1, p1 := SetCell(t, t.y, t.x, cell), Inking(p, cell);
    assert t1 == t1.(x := t.x) && p1 == p.(ink := p.ink[(p.line, t.x) := cell], col := t.x);
  }

  lemma TypedWindow(t: Text, p: Paper, c: nat)
    requires Window(t, p) && c != 10 && c != 13 && c != 8
    ensures Window(Settle(Typed(t, c)), Write(p, c, Cols(t), t.fg, t.bg))
  {
    if t.x + 1 >= Cols(t) {
      WrappedWindow(t, p, c);
    } else {
      AdvancedWindow(t, p, c);
    }
  }

  lemma WrappedWindow(t: Text, p: Paper, c: nat)
    requires Window(t, p) && c != 10 && c != 13 && c != 8 && t.x + 1 >= Cols(t)
    ensures Window(Settle(Typed(t, c)), Write(p, c, Cols(t), t.fg, t.bg))
  {
    Wraps(t, p, c);
    InkWindow(t, p, Glyph(c, t.fg, t.bg));
    NextLine(SetCell(t, t.y, t.x, Glyph(c, t.fg, t.bg)), Inking(p, Glyph(c, t.fg, t.bg)),
             Settle(Typed(t, c)), Write(p, c, Cols(t), t.fg, t.bg));
  }

  lemma NextLine(t: Text, p: Paper, t': Text, p': Paper)
    requires Window(t, p) && t' == Settle(t.(x := 0, y := t.y + 1)) && p' == p.(line := p.line + 1, col := 0)
    ensures Window(t', p')
  {
    LineWindow(t, p);
  }

  function Inking(p: Paper, cell: Cell): Paper { p.(ink := p.ink[(p.line, p.col) := cell]) }

  lemma Wraps(t: Text, p: Paper, c: nat)
    requires Window(t, p) && c != 10 && c != 13 && c != 8 && t.x + 1 >= Cols(t)
    ensures Settle(Typed(t, c)) == Settle(SetCell(t, t.y, t.x, Glyph(c, t.fg, t.bg)).(x := 0, y := t.y + 1))
    ensures Write(p, c, Cols(t), t.fg, t.bg)
         == Inking(p, Glyph(c, t.fg, t.bg)).(line := p.line + 1, col := 0)
  {
  }

  lemma AdvancedWindow(t: Text, p: Paper, c: nat)
    requires Window(t, p) && c != 10 && c != 13 && c != 8 && t.x + 1 < Cols(t)
    ensures Window(Settle(Typed(t, c)), Write(p, c, Cols(t), t.fg, t.bg))
  {
    Advances(t, p, c);
    InkWindow(t, p, Glyph(c, t.fg, t.bg));
    NextColumn(SetCell(t, t.y, t.x, Glyph(c, t.fg, t.bg)), Inking(p, Glyph(c, t.fg, t.bg)), t.x + 1,
               Settle(Typed(t, c)), Write(p, c, Cols(t), t.fg, t.bg));
  }

  lemma NextColumn(t: Text, p: Paper, x: nat, t': Text, p': Paper)
    requires Window(t, p) && x < Cols(t) && t' == t.(x := x) && p' == p.(col := x)
    ensures Window(t', p')
  {
    ColumnWindow(t, p, x);
  }

  lemma Advances(t: Text, p: Paper, c: nat)
    requires Window(t, p) && c != 10 && c != 13 && c != 8 && t.x + 1 < Cols(t)
    ensures Settle(Typed(t, c)) == SetCell(t, t.y, t.x, Glyph(c, t.fg, t.bg)).(x := t.x + 1)
    ensures Write(p, c, Cols(t), t.fg, t.bg)
         == Inking(p, Glyph(c, t.fg, t.bg)).(col := t.x + 1)
  {
  }

  lemma ErasedWindow(t: Text, p: Paper)
    requires Window(t, p)
    ensures Window(Put(t, 8), Write(p, 8, Cols(t), t.fg, t.bg))
  {
    var x := if t.x > 0 then t.x - 1 else 0;
    CellWindow(t, p, x, Blank(t.bg));
    assert Put(t, 8) == SetCell(t, t.y, x, Blank(t.bg)).(x := x);
  }

  lemma StepWindow(t: Text, p: Paper, c: nat)
    requires Window(t, p)
    ensures Window(Put(t, c), Write(p, c, Cols(t), t.fg, t.bg))
  {
    if c == 10 {
      LineWindow(t, p);
      assert Put(t, c) == Settle(t.(x := 0, y := t.y + 1));
    } else if c == 13 {
      ColumnWindow(t, p, 0);
    } else if c == 8 {
      ErasedWindow(t, p);
    } else {
      TypedWindow(t, p, c);
      assert Put(t, c) == Settle(Typed(t, c));
    }
  }

  /** Whatever is printed on a cleared console, the screen shows the last lines of what was written. */
  lemma {:induction false} PrintedWindow(t: Text, s: seq<nat>)
    requires t.width >= 8 && t.height >= 16
    ensures WellFormed(Cleared(t)) && Window(Feed(Cleared(t), s), WriteAll(Paper(map[], 0, 0), s, Cols(t), t.fg, t.bg))
    ensures Feed(Cleared(t), s).fg == t.fg && Feed(Cleared(t), s).bg == t.bg
  {
    if s == [] {
      assert Cleared(t).cells != [];
    } else {
      var before := s[..|s| - 1];
      PrintedWindow(t, before);
      StepWindow(Feed(Cleared(t), before), WriteAll(Paper(map[], 0, 0), before, Cols(t), t.fg, t.bg), s[|s| - 1]);
    }
  }
}
