/** What the screen shows while a line is read: the echo of src/drivers/keyboard.c as src/drivers/fb.c
    draws it. */
module LineEcho {
  import opened Gfx
  import opened TextConsole
  import opened Keyboard

  predicate Printable(c: nat) { c != 8 && c != 10 && c != 13 }

  /** Backspace erases the character typed before it, and leaves the cursor in its place, unless that
      character filled its row: then the cursor has wrapped, and the character stays visible. */
  lemma BackspaceErasesIff(t: Text, c: nat)
    requires WellFormed(t) && t.y < Rows(t) && Cols(t) > 1 && Printable(c)
    ensures WellFormed(Put(t, c)) && Put(t, c).y < Rows(Put(t, c))
    ensures Put(Put(t, c), 8) == SetCell(t, t.y, t.x, Blank(t.bg)) <==> t.x + 1 < Cols(t)
  {
    PutWellFormed(t, c);
    if t.x + 1 < Cols(t) {
      ErasedInRow(t, c);
    } else {
      assert Put(t, c).x == 0;
    }
  }

  lemma ErasedInRow(t: Text, c: nat)
    requires WellFormed(t) && t.y < Rows(t) && Printable(c) && t.x + 1 < Cols(t)
    ensures WellFormed(Put(t, c)) && Put(t, c).y < Rows(Put(t, c))
    ensures Put(t, c) == SetCell(t, t.y, t.x, Glyph(c, t.fg, t.bg)).(x := t.x + 1)
    ensures Put(Put(t, c), 8) == SetCell(t, t.y, t.x, Blank(t.bg))
  {
    PutWellFormed(t, c);
    var row := t.cells[t.y];
    assert row[t.x := Glyph(c, t.fg, t.bg)][t.x := Blank(t.bg)] == row[t.x := Blank(t.bg)];
    assert t.cells[t.y := row[t.x := Glyph(c, t.fg, t.bg)]][t.y := row[t.x := Blank(t.bg)]]
        == t.cells[t.y := row[t.x := Blank(t.bg)]];
  }

  /** A printed character is on the screen as the dots of its glyph in the foreground colour, on the
      background colour, in the 16 rows and 8 columns at the cursor. */
  lemma CharacterDots(font: Font, t: Text, c: nat, row: nat, col: nat)
    requires IsFont(font) && WellFormed(t) && t.y < Rows(t) && Printable(c) && t.x + 1 < Cols(t)
    requires row < 16 && col < 8
    ensures WellFormed(Put(t, c))
    ensures Shade(font, Put(t, c), 16 * t.y + row, 8 * t.x + col) == if Dot(font, c, row, col) then t.fg else t.bg
  {
    ErasedInRow(t, c);
    CellOfPixel(16 * t.y + row, 16, t.y);
    CellOfPixel(8 * t.x + col, 8, t.x);
  }

  /** A character in the last column, not in the last row, survives the backspace after it. */
  lemma LastColumnStays(t: Text, c: nat)
    requires WellFormed(t) && t.y + 1 < Rows(t) && t.x + 1 == Cols(t) && Printable(c)
    ensures WellFormed(Put(t, c)) && Put(t, c).y < Rows(Put(t, c))
    ensures Put(Put(t, c), 8).cells[t.y][t.x] == Glyph(c, t.fg, t.bg)
  {
    PutWellFormed(t, c);
  }

  /** On a console two columns wide: the line no longer has the second character, the screen still does. */
  lemma EchoCanStay()
    ensures
      var t := Cleared(Text(16, 32, [], [], 0, 0, 7, 1));
      && EditAll([97] + [98] + [8], 10) == EditAll([97], 10)
      && WellFormed(t) && t.y < Rows(t)
      && Feed(t, [97] + [98] + [8]).cells[0][1] == Glyph(98, 7, 1) && Feed(t, [97]).cells[0][1] == Blank(1)
  {
    var t := Cleared(Text(16, 32, [], [], 0, 0, 7, 1));
    BackspaceUndoesIff([97], 98, 10);
    FeedMore(t, [97], 98);
    FeedMore(t, [97] + [98], 8);
    var t1 := Feed(t, [97]);
    OneTyped(t);
    LastColumnStays(t1, 98);
  }

  lemma OneTyped(t: Text)
    requires t == Cleared(Text(16, 32, [], [], 0, 0, 7, 1))
    ensures WellFormed(t) && t.y < Rows(t)
    ensures
      var r := Feed(t, [97]);
      r.x == 1 && r.y == 0 && r.fg == 7 && r.bg == 1 && |r.cells| == 2 && |r.cells[0]| == 2 && r.cells[0][1] == Blank(1)
  {
    assert [97][..0] == [];
    assert Feed(t, []) == t;
  }

  lemma FeedMore(t: Text, s: seq<nat>, c: nat)
    requires WellFormed(t) && t.y < Rows(t)
    ensures Feed(t, s + [c]) == Put(Feed(t, s), c)
  {
    assert (s + [c])[..|s|] == s;
  }

  // -------------------------------------------------------------------------------------------
  // Lines within a row
  // -------------------------------------------------------------------------------------------

  /** The cells from the cursor to the end of its row are blank. */
  ghost predicate BlankAhead(t: Text)
    requires t.y < |t.cells|
  {
    forall c :: t.x <= c < |t.cells[t.y]| ==> t.cells[t.y][c] == Blank(t.bg)
  }

  predicate AllPrintable(s: seq<nat>) {
    s == [] || (AllPrintable(s[..|s| - 1]) && Printable(s[|s| - 1]))
  }

  /** Characters and backspaces that never make the line longer than `room`. */
  predicate Within(e: seq<nat>, n: nat, room: nat) {
    e == []
    || (Within(e[..|e| - 1], n, room) && (Printable(e[|e| - 1]) || e[|e| - 1] == 8) && |EditAll(e, n)| <= room)
  }

  /** Typing a line that leaves a column free. */
  lemma {:induction false} TypedInRow(t: Text, l: seq<nat>)
    requires WellFormed(t) && t.y < Rows(t) && BlankAhead(t) && AllPrintable(l) && t.x + |l| < Cols(t)
    ensures
      var r := Feed(t, l);
      && r.x == t.x + |l| && r.y == t.y && r.bg == t.bg && |r.cells| == |t.cells| && BlankAhead(r)
  {
    if l != [] {
      var before := l[..|l| - 1];
      TypedInRow(t, before);
      ErasedInRow(Feed(t, before), l[|l| - 1]);
    }
  }

  /** r is t with the line l written from column x of row y on, and the cursor behind it. */
  ghost predicate Shows(t: Text, r: Text, y: nat, x: nat, l: seq<nat>) {
    var sound :=
      && WellFormed(t) && WellFormed(r) && y < Rows(t) && Rows(r) == Rows(t) && Cols(r) == Cols(t)
      && r.fg == t.fg && r.bg == t.bg && r.y == y && r.x == x + |l|
      && forall j, i :: 0 <= j < Rows(t) && 0 <= i < Cols(t) ==>
           r.cells[j][i] == if j == y && x <= i < x + |l| then Glyph(l[i - x], t.fg, t.bg) else t.cells[j][i];
    sound
  }

  /** A line that leaves a column free is on the screen as typed, from the cursor on. */
  lemma {:induction false} TypedShows(t: Text, l: seq<nat>)
    requires WellFormed(t) && t.y < Rows(t) && AllPrintable(l) && t.x + |l| < Cols(t)
    ensures Shows(t, Feed(t, l), t.y, t.x, l)
  {
    if l != [] {
      var n := |l| - 1;
      TypedShows(t, l[..n]);
      ErasedInRow(Feed(t, l[..n]), l[n]);
      OneMore(t, Feed(t, l[..n]), l);
    }
  }

  lemma OneMore(t: Text, r: Text, l: seq<nat>)
    requires l != [] && t.x + |l| < Cols(t) && Shows(t, r, t.y, t.x, l[..|l| - 1])
    ensures Shows(t, SetCell(r, r.y, r.x, Glyph(l[|l| - 1], r.fg, r.bg)).(x := r.x + 1), t.y, t.x, l)
  {
  }

  lemma {:induction false} FeedBoth(t: Text, a: seq<nat>, b: seq<nat>)
    requires WellFormed(t) && t.y < Rows(t)
    ensures Feed(t, a + b) == Feed(Feed(t, a), b)
  {
    if b == [] {
      assert a + b == a;
    } else {
      var n := |b| - 1;
      assert a + b == a + b[..n] + [b[n]];
      FeedBoth(t, a, b[..n]);
      FeedMore(t, a + b[..n], b[n]);
    }
  }

  /** The line l' typed after c, from the text r on, when c only moves the cursor to column 0 of row y. */
  lemma ShowsAfter(t: Text, l: seq<nat>, c: nat, l': seq<nat>, r: Text, y: nat)
    requires WellFormed(t) && t.y < Rows(t) && r == Feed(t, l) && WellFormed(r) && r.y < Rows(r)
    requires Put(r, c) == r.(x := 0, y := y) && y < Rows(r) && AllPrintable(l') && |l'| < Cols(r)
    ensures Shows(r, Feed(t, l + [c] + l'), y, 0, l')
  {
    FeedMore(t, l, c);
    FeedBoth(t, l + [c], l');
    TypedFrom(r, r.(x := 0, y := y), y, l');
  }

  lemma TypedFrom(t: Text, t': Text, y: nat, l: seq<nat>)
    requires WellFormed(t) && y < Rows(t) && t' == t.(x := 0, y := y) && AllPrintable(l) && |l| < Cols(t)
    ensures Shows(t, Feed(t', l), y, 0, l)
  {
    TypedShows(t', l);
    CursorApart(t, t', Feed(t', l), y, l);
  }

  lemma TypedEnds(t: Text, l: seq<nat>)
    requires WellFormed(t) && t.y < Rows(t) && AllPrintable(l) && t.x + |l| < Cols(t)
    ensures
      var r := Feed(t, l);
      WellFormed(r) && r.y == t.y && Rows(r) == Rows(t) && Cols(r) == Cols(t)
  {
    TypedShows(t, l);
  }

  /** Where the cursor was does not matter. */
  lemma CursorApart(t: Text, t': Text, r: Text, y: nat, l: seq<nat>)
    requires WellFormed(t) && t' == t.(x := t'.x, y := t'.y) && Shows(t', r, y, 0, l)
    ensures Shows(t, r, y, 0, l)
  {
  }

  /** After a carriage return the next line is written over the one before it, in the same row. */
  lemma ReturnOverwrites(t: Text, l: seq<nat>, l': seq<nat>)
    requires WellFormed(t) && t.y < Rows(t) && AllPrintable(l) && t.x + |l| < Cols(t)
    requires AllPrintable(l') && |l'| < Cols(t)
    ensures Shows(Feed(t, l), Feed(t, l + [13] + l'), t.y, 0, l')
  {
    TypedEnds(t, l);
    ShowsAfter(t, l, 13, l', Feed(t, l), t.y);
  }

  /** After a newline it is written into the row below, from its first column on. */
  lemma NewlineBelow(t: Text, l: seq<nat>, l': seq<nat>)
    requires WellFormed(t) && t.y + 1 < Rows(t) && AllPrintable(l) && t.x + |l| < Cols(t)
    requires AllPrintable(l') && |l'| < Cols(t)
    ensures Shows(Feed(t, l), Feed(t, l + [10] + l'), t.y + 1, 0, l')
  {
    TypedEnds(t, l);
    ShowsAfter(t, l, 10, l', Feed(t, l), t.y + 1);
  }

  lemma {:induction false} LinePrintable(e: seq<nat>, n: nat, room: nat)
    requires Within(e, n, room)
    ensures AllPrintable(EditAll(e, n)) && |EditAll(e, n)| <= room
  {
    if e != [] {
      var before, c := e[..|e| - 1], e[|e| - 1];
      LinePrintable(before, n, room);
      var line := EditAll(before, n);
      assert (line + [c])[..|line|] == line;
    }
  }

  /** As long as the line stays within its row, what is on the screen after the echo, corrections
      included, is what typing the finished line would have shown. */
  lemma {:induction false} EchoShowsLine(t: Text, e: seq<nat>, n: nat, room: nat)
    requires WellFormed(t) && t.y < Rows(t) && BlankAhead(t) && t.x + room < Cols(t)
    requires Effective(e, n) && Within(e, n, room)
    ensures Feed(t, e) == Feed(t, EditAll(e, n))
  {
    if e != [] {
      var before, c := e[..|e| - 1], e[|e| - 1];
      var line := EditAll(before, n);
      EchoShowsLine(t, before, n, room);
      LinePrintable(before, n, room);
      if c == 8 {
        LastErased(t, line, room);
      } else {
        FeedMore(t, line, c);
      }
    }
  }

  lemma LastErased(t: Text, line: seq<nat>, room: nat)
    requires WellFormed(t) && t.y < Rows(t) && BlankAhead(t) && t.x + room < Cols(t)
    requires line != [] && |line| <= room && AllPrintable(line)
    ensures Put(Feed(t, line), 8) == Feed(t, line[..|line| - 1])
  {
    var shorter, d := line[..|line| - 1], line[|line| - 1];
    var s := Feed(t, shorter);
    TypedInRow(t, shorter);
    ErasedInRow(s, d);
    assert s.cells[s.y][s.x := Blank(s.bg)] == s.cells[s.y];
    assert s.cells[s.y := s.cells[s.y]] == s.cells;
  }
}
