/** The scrolling text console of devices/fb.c as a window on a document that only grows. */
module Console {
  import opened StringOps

  const COL_CNT := 80
  const ROW_CNT := 25
  const CELLS := COL_CNT * ROW_CNT
  const GRAY_ON_BLACK: byte := 7

  const CR: byte := 13
  const LF: byte := 10
  const FF: byte := 12
  const BS: byte := 8
  const TAB: byte := 9

  datatype Cell = Cell(ch: byte, attr: byte)

  const SPACE: byte := 32
  const BLANK := Cell(SPACE, GRAY_ON_BLACK)

  // ---------------------------------------------------------------- document

  /** All rows ever shown, one after the other, and the position of the cursor among all cells. */
  datatype Doc = Doc(cells: seq<Cell>, pos: nat)

  /** The first cell on the screen. */
  function Top(d: Doc): int { |d.cells| - CELLS }

  ghost predicate DocOk(d: Doc) {
    |d.cells| % COL_CNT == 0 && CELLS <= |d.cells| && Top(d) <= d.pos < |d.cells|
  }

  /** The screen is the last 25 rows. */
  function Window(d: Doc): (s: seq<Cell>)
    requires CELLS <= |d.cells|
    ensures |s| == CELLS
  {
    d.cells[Top(d)..]
  }

  function Blanks(n: nat): (s: seq<Cell>)
    ensures |s| == n && forall i :: 0 <= i < n ==> s[i] == BLANK
  {
    seq(n, _ => BLANK)
  }

  /** To the start of the next row, which is added when there is none. */
  function NextRow(d: Doc): Doc {
    var pos := (d.pos / COL_CNT + 1) * COL_CNT;
    Doc(if pos == |d.cells| then d.cells + Blanks(COL_CNT) else d.cells, pos)
  }

  predicate Printable(ch: byte) { ch != CR && ch != LF && ch != FF && ch != BS && ch != TAB }

  /** What each character does to the document. */
  function Put(d: Doc, ch: byte): Doc
    requires d.pos < |d.cells| && CELLS <= |d.cells|
  {
    var x := d.pos % COL_CNT;
    if ch == CR then d.(pos := d.pos - x)
    else if ch == LF then NextRow(d)
    else if ch == FF then Doc(d.cells[..Top(d)] + Blanks(CELLS), Top(d))
    else if ch == BS then if x > 0 then d.(pos := d.pos - 1) else d
    else if ch == TAB then
      var x' := (x / 8 + 1) * 8;
      if x' >= COL_CNT then NextRow(d) else d.(pos := d.pos - x + x')
    else
      var w := d.(cells := d.cells[d.pos := Cell(ch, GRAY_ON_BLACK)]);
      if x + 1 >= COL_CNT then NextRow(w) else w.(pos := w.pos + 1)
  }

  /** The document stays a whole number of rows with the cursor on the screen; a character adds
      at most one row; and rows that left the screen never change again. */
  lemma PutKeeps(d: Doc, ch: byte)
    requires DocOk(d)
    ensures DocOk(Put(d, ch))
    ensures |Put(d, ch).cells| == |d.cells| || |Put(d, ch).cells| == |d.cells| + COL_CNT
    ensures Put(d, ch).cells[..Top(d)] == d.cells[..Top(d)]
  {
  }

  ghost function PutAll(d: Doc, text: seq<byte>): (d': Doc)
    requires DocOk(d)
    ensures DocOk(d')
  {
    if text == [] then d else
    var before := PutAll(d, text[..|text| - 1]);
    PutKeeps(before, text[|text| - 1]);
    Put(before, text[|text| - 1])
  }

  /** Rows that have scrolled off the screen are frozen over any text. */
  lemma {:induction false} ScrolledRowsFrozen(d: Doc, text: seq<byte>)
    requires DocOk(d)
    ensures |d.cells| <= |PutAll(d, text).cells| <= |d.cells| + COL_CNT * |text|
    ensures PutAll(d, text).cells[..Top(d)] == d.cells[..Top(d)]
  {
    if text == [] {
    } else {
      var n := |text| - 1;
      ScrolledRowsFrozen(d, text[..n]);
      var before := PutAll(d, text[..n]);
      PutKeeps(before, text[n]);
      assert PutAll(d, text).cells[..Top(d)] == before.cells[..Top(d)];
    }
  }

  /** The cell at any position; nothing has been written beyond the last row. */
  function CellAt(d: Doc, p: nat): Cell { if p < |d.cells| then d.cells[p] else BLANK }

  /** Plain text of any length is laid out cell after cell from the cursor on, wrapping at the right
      edge and scrolling at the bottom without losing or moving anything. */
  lemma {:induction false} PlainText(d: Doc, text: seq<byte>)
    requires DocOk(d) && forall i :: 0 <= i < |text| ==> Printable(text[i])
    ensures PutAll(d, text).pos == d.pos + |text|
    ensures forall p: nat :: CellAt(PutAll(d, text), p) ==
              if d.pos <= p < d.pos + |text| then Cell(text[p - d.pos], GRAY_ON_BLACK) else CellAt(d, p)
  {
    if text == [] {
    } else {
      var n := |text| - 1;
      PlainText(d, text[..n]);
      var before := PutAll(d, text[..n]);
      PrintableStep(before, text[n]);
    }
  }

  lemma PrintableStep(d: Doc, ch: byte)
    requires DocOk(d) && Printable(ch)
    ensures Put(d, ch).pos == d.pos + 1
    ensures forall p: nat :: CellAt(Put(d, ch), p) == if p == d.pos then Cell(ch, GRAY_ON_BLACK) else CellAt(d, p)
  {
  }

  /** The control characters that only move the cursor: no cell of the document changes, and among
      all cells a tab goes to the next multiple of 8, also across the right edge. */
  lemma ControlsMove(d: Doc, ch: byte)
    requires DocOk(d) && ch in {CR, LF, BS, TAB}
    ensures forall p: nat :: CellAt(Put(d, ch), p) == CellAt(d, p)
    ensures ch == TAB ==> Put(d, ch).pos % 8 == 0 && d.pos < Put(d, ch).pos <= d.pos + 8
    ensures ch == CR ==> Put(d, ch).pos % COL_CNT == 0 && Put(d, ch).pos <= d.pos < Put(d, ch).pos + COL_CNT
    ensures ch == LF ==> Put(d, ch).pos % COL_CNT == 0 && d.pos < Put(d, ch).pos <= d.pos + COL_CNT
    ensures ch == BS ==> Put(d, ch).pos == d.pos - if d.pos % COL_CNT == 0 then 0 else 1
  {
    assert NextRow(d).pos % 8 == 0;
  }

  /** A form feed blanks the window, keeps what has scrolled off it and puts the cursor at its start. */
  lemma FormFeedBlanks(d: Doc)
    requires DocOk(d)
    ensures Top(Put(d, FF)) == Top(d) && Put(d, FF).pos == Top(d)
    ensures forall p: nat :: CellAt(Put(d, FF), p) == if p < Top(d) then CellAt(d, p) else Cell(32, 7)
  {
  }

  lemma WindowCells(d: Doc)
    requires DocOk(d)
    ensures forall i :: 0 <= i < CELLS ==> Window(d)[i] == CellAt(d, Top(d) + i)
  {
  }

  // ------------------------------------------------------------------ device

  /** The cells in the video memory: a character byte and an attribute byte each. */
  ghost function Screen(fb: seq<byte>): (s: seq<Cell>)
    requires |fb| == 2 * CELLS
    ensures |s| == CELLS
  {
    seq(CELLS, (i: int) requires 0 <= i < CELLS => Cell(fb[2 * i], fb[2 * i + 1]))
  }

  function Store(fb: seq<byte>, i: nat, c: Cell): (r: seq<byte>)
    requires |fb| == 2 * CELLS && i < CELLS
    ensures |r| == |fb|
  {
    fb[2 * i := c.ch][2 * i + 1 := c.attr]
  }

  lemma ScreenStore(fb: seq<byte>, i: nat, c: Cell)
    requires |fb| == 2 * CELLS && i < CELLS
    ensures Screen(Store(fb, i, c)) == Screen(fb)[i := c]
  {
  }

  /** Moving 24 rows of bytes up by one row moves the cells. */
  lemma ScreenScroll(m: seq<byte>, r: seq<byte>)
    requires |m| == 2 * CELLS && IsMove(m, r, 0, 2 * COL_CNT, 2 * (CELLS - COL_CNT))
    ensures Screen(r)[..CELLS - COL_CNT] == Screen(m)[COL_CNT..]
  {
    forall i | 0 <= i < CELLS - COL_CNT ensures Screen(r)[i] == Screen(m)[COL_CNT + i] {
      assert r[2 * i] == m[2 * COL_CNT + 2 * i] && r[2 * i + 1] == m[2 * COL_CNT + 2 * i + 1];
    }
  }

  /** A document of one screen with the cursor at the start of a row. */
  lemma RowStart(d: Doc, row: nat)
    requires |d.cells| == CELLS && d.pos == row * COL_CNT && row < ROW_CNT
    ensures DocOk(d) && d.pos % COL_CNT == 0 && d.pos - d.pos % COL_CNT - Top(d) == COL_CNT * row
    ensures Window(d) == d.cells
  {
  }

  /** A tab inside a row stays in it. */
  lemma TabStays(d: Doc)
    requires DocOk(d) && (d.pos % COL_CNT / 8 + 1) * 8 < COL_CNT
    ensures var x, d' := (d.pos % COL_CNT / 8 + 1) * 8, Put(d, TAB);
            d'.cells == d.cells && d'.pos % COL_CNT == x && d'.pos - x == d.pos - d.pos % COL_CNT
  {
    var row, x := d.pos / COL_CNT, (d.pos % COL_CNT / 8 + 1) * 8;
    assert Put(d, TAB).pos == row * COL_CNT + x;
    assert (row * COL_CNT + x) % COL_CNT == x;
  }

  /** The next row is the one below on the screen or, at the bottom, one that scrolls the window. */
  lemma NextRowScrolls(d: Doc, row: nat)
    requires DocOk(d) && row < ROW_CNT && COL_CNT * row == d.pos - d.pos % COL_CNT - Top(d)
    ensures var d' := NextRow(d);
            && DocOk(d') && d'.pos % COL_CNT == 0
            && if row + 1 < ROW_CNT
               then Window(d') == Window(d) && COL_CNT * (row + 1) == d'.pos - Top(d')
               else Window(d') == Window(d)[COL_CNT..] + Blanks(COL_CNT) && COL_CNT * row == d'.pos - Top(d')
  {
  }

  /** The cell of the first printable character: init_cursor goes three rows below the cursor it finds. */
  function FirstCell(cursor: nat): nat { COL_CNT * (cursor / COL_CNT + 3) }

  /** Both its bytes lie inside the buffer exactly if the cursor found was in the first 22 rows. */
  lemma FirstCharacterFits(cursor: nat)
    ensures 2 * FirstCell(cursor) + 1 < 2 * CELLS <==> cursor < COL_CNT * (ROW_CNT - 3)
  {
    var row := cursor / COL_CNT;
    assert COL_CNT * row <= cursor < COL_CNT * (row + 1);
  }

  /** Writing the cell under the cursor. */
  lemma CellWritten(d: Doc, c: Cell)
    requires DocOk(d)
    ensures var w := d.(cells := d.cells[d.pos := c]);
            && DocOk(w) && Top(w) == Top(d) && Window(w) == Window(d)[d.pos - Top(d) := c]
            && (d.pos % COL_CNT + 1 < COL_CNT ==>
                  && DocOk(w.(pos := w.pos + 1)) && Window(w.(pos := w.pos + 1)) == Window(w)
                  && (w.pos + 1) % COL_CNT == d.pos % COL_CNT + 1)
  {
  }

  class FrameBuffer {
    const fb: array<byte>
    var cx: nat
    var cy: nat
    var inited: bool
    /** The two VGA cursor registers, 0x0e and 0x0f. */
    var high: byte
    var low: byte
    ghost var doc: Doc

    /** Before the first character: any screen, the cursor where the loader left it, with three
        rows to spare below it. */
    constructor (fb: array<byte>, high: byte, low: byte)
      requires fb.Length == 2 * CELLS && (high * 256 + low) / COL_CNT + 3 < ROW_CNT
      ensures this.fb == fb && Valid() && !inited
      ensures doc == Doc(Screen(fb[..]), ((high * 256 + low) / COL_CNT + 3) * COL_CNT)
    {
      this.fb, this.high, this.low := fb, high, low;
      cx, cy, inited := 0, 0, false;
      doc := Doc(Screen(fb[..]), ((high as int * 256 + low as int) / COL_CNT + 3) * COL_CNT);
    }

    /** The cursor in the registers. */
    function Hardware(): nat
      reads this
    {
      high as int * 256 + low as int
    }

    /** The screen is the window and the cursor is in the right row. */
    ghost predicate ShowsRow()
      requires fb.Length == 2 * CELLS
      reads this, fb
    {
      && DocOk(doc) && Screen(fb[..]) == Window(doc)
      && cy < ROW_CNT && COL_CNT * cy == doc.pos - doc.pos % COL_CNT - Top(doc)
    }

    ghost predicate Shows()
      requires fb.Length == 2 * CELLS
      reads this, fb
    {
      ShowsRow() && cx == doc.pos % COL_CNT
    }

    ghost predicate Valid()
      reads this, fb
    {
      && fb.Length == 2 * CELLS
      && (inited ==> Shows() && Hardware() == COL_CNT * cy + cx)
      && (!inited ==>
            && Hardware() / COL_CNT + 3 < ROW_CNT
            && doc == Doc(Screen(fb[..]), (Hardware() / COL_CNT + 3) * COL_CNT))
    }

    method MoveCursor()
      requires COL_CNT * cy + cx < 0x1_0000
      modifies `high, `low
      ensures Hardware() == COL_CNT * cy + cx
    {
      var cp := cx + COL_CNT * cy;
      high := cp / 256;
      low := cp % 256;
    }

    /** find_cursor: reads back what move_cursor wrote. */
    method FindCursor() returns (x: nat, y: nat)
      ensures x == Hardware() % COL_CNT && y == Hardware() / COL_CNT
    {
      var cp := high as int * 256 + low as int;
      x, y := cp % COL_CNT, cp / COL_CNT;
    }

    method InitCursor()
      requires Valid()
      modifies `cx, `cy, `inited, `high, `low
      ensures Valid() && inited && doc == old(doc)
      ensures COL_CNT * cy + cx == if old(inited) then COL_CNT * old(cy) + old(cx) else FirstCell(old(Hardware()))
    {
      hide DocOk, Top, Window, Screen;
      if !inited {
        cx, cy := FindCursor();
        cy := cy + 3;
        cx := 0;
        RowStart(doc, cy);
        MoveCursor();
        inited := true;
      }
    }

    /** clear_row */
    method ClearRow(y: nat)
      requires fb.Length == 2 * CELLS && y < ROW_CNT
      modifies fb
      ensures Screen(fb[..]) ==
              Screen(old(fb[..]))[..COL_CNT * y] + Blanks(COL_CNT) + Screen(old(fb[..]))[COL_CNT * (y + 1)..]
    {
      ghost var was := Screen(fb[..]);
      for x := 0 to COL_CNT
        invariant Screen(fb[..]) == was[..COL_CNT * y] + Blanks(x) + was[COL_CNT * y + x..]
      {
        var i := COL_CNT * y + x;
        ghost var m := fb[..];
        ScreenStore(m, i, BLANK);
        fb[2 * i] := SPACE;
        fb[2 * i + 1] := GRAY_ON_BLACK;
        assert fb[..] == Store(m, i, BLANK);
        assert Screen(fb[..]) == was[..COL_CNT * y] + Blanks(x + 1) + was[COL_CNT * y + x + 1..];
      }
    }

    method Newline()
      requires fb.Length == 2 * CELLS && ShowsRow()
      modifies fb, `cx, `cy, `doc
      ensures Shows() && doc == NextRow(old(doc))
    {
      hide DocOk, Top, Window, NextRow, Screen;
      NextRowScrolls(doc, cy);
      doc := NextRow(doc);
      cx := 0;
      cy := cy + 1;
      if cy >= ROW_CNT {
        cy := ROW_CNT - 1;
        ghost var m := fb[..];
        var _ := Memmove(fb, At(0), At(2 * COL_CNT), 2 * COL_CNT * (ROW_CNT - 1));
        ScreenScroll(m, fb[..]);
        ClearRow(ROW_CNT - 1);
      }
    }

    /** The loop of cls. */
    method ClearRows()
      requires fb.Length == 2 * CELLS
      modifies fb
      ensures Screen(fb[..]) == Blanks(CELLS)
    {
      for y := 0 to ROW_CNT
        invariant forall i :: 0 <= i < COL_CNT * y ==> Screen(fb[..])[i] == BLANK
      {
        ghost var was := Screen(fb[..]);
        ClearRow(y);
        assert forall i :: 0 <= i < COL_CNT * y ==> Screen(fb[..])[i] == was[i];
      }
    }

    method Cls()
      requires fb.Length == 2 * CELLS && Shows()
      modifies fb, `cx, `cy, `high, `low, `doc
      ensures Shows() && doc == Put(old(doc), FF)
      ensures Hardware() == 0 && forall i :: 0 <= i < CELLS ==> Screen(fb[..])[i] == Cell(32, 7)
    {
      ClearRows();
      doc := Doc(doc.cells[..Top(doc)] + Blanks(CELLS), Top(doc));
      assert Window(doc) == Blanks(CELLS);
      cx, cy := 0, 0;
      MoveCursor();
    }

    /** The case '\r'. */
    method CarriageReturn()
      requires fb.Length == 2 * CELLS && Shows()
      modifies `cx, `doc
      ensures Shows() && doc == Put(old(doc), CR)
    {
      doc := Put(doc, CR);
      cx := 0;
    }

    /** The case '\b'. */
    method Backspace()
      requires fb.Length == 2 * CELLS && Shows()
      modifies `cx, `doc
      ensures Shows() && doc == Put(old(doc), BS)
    {
      doc := Put(doc, BS);
      if cx > 0 {
        cx := cx - 1;
      }
    }

    /** The case '\t'. */
    method Tab()
      requires fb.Length == 2 * CELLS && Shows()
      modifies fb, `cx, `cy, `doc
      ensures Shows() && doc == Put(old(doc), TAB)
    {
      cx := (cx + 1 + 7) / 8 * 8;
      if cx >= COL_CNT {
        Newline();
      } else {
        PutKeeps(doc, TAB);
        TabStays(doc);
        doc := Put(doc, TAB);
      }
    }

    /** The default case. */
    method Emit(ch: byte)
      requires fb.Length == 2 * CELLS && Shows() && Printable(ch)
      modifies fb, `cx, `cy, `doc
      ensures Shows() && doc == Put(old(doc), ch)
    {
      hide DocOk, Window, Screen, NextRow;
      CellWritten(doc, Cell(ch, GRAY_ON_BLACK));
      var i := COL_CNT * cy + cx;
      ghost var m := fb[..];
      ScreenStore(m, i, Cell(ch, GRAY_ON_BLACK));
      fb[2 * i] := ch;
      fb[2 * i + 1] := GRAY_ON_BLACK;
      assert fb[..] == Store(m, i, Cell(ch, GRAY_ON_BLACK));
      doc := doc.(cells := doc.cells[doc.pos := Cell(ch, GRAY_ON_BLACK)]);
      cx := cx + 1;
      if cx >= COL_CNT {
        Newline();
      } else {
        doc := doc.(pos := doc.pos + 1);
      }
    }

    lemma ShowsImpliesRow()
      requires fb.Length == 2 * CELLS && Shows()
      ensures ShowsRow()
    {
    }

    /** The switch of fb_putc. */
    method Dispatch(ch: byte)
      requires fb.Length == 2 * CELLS && Shows()
      modifies fb, `cx, `cy, `high, `low, `doc
      ensures Shows() && doc == Put(old(doc), ch)
    {
      hide Shows, Top, Window;
      if ch == CR {
        CarriageReturn();
      } else if ch == LF {
        assert ShowsRow() by { ShowsImpliesRow(); }
        Newline();
      } else if ch == FF {
        Cls();
      } else if ch == BS {
        Backspace();
      } else if ch == TAB {
        Tab();
      } else {
        Emit(ch);
      }
    }

    /** fb_putc: the screen keeps showing the end of the document, and the hardware cursor is where
        the next character goes. */
    method Putc(ch: byte)
      requires Valid()
      modifies fb, `cx, `cy, `inited, `high, `low, `doc
      ensures Valid() && inited && doc == Put(old(doc), ch)
      ensures ch == 12 ==> Hardware() == 0 && forall i :: 0 <= i < CELLS ==> Screen(fb[..])[i] == Cell(32, 7)
    {
      ghost var d := doc;
      InitCursor();
      assert DocOk(d);
      Dispatch(ch);
      MoveCursor();
      if ch == FF { FormFeedShown(d); }
    }

    lemma FormFeedShown(d: Doc)
      requires Valid() && inited && DocOk(d) && doc == Put(d, FF)
      ensures Hardware() == 0 && forall i :: 0 <= i < CELLS ==> Screen(fb[..])[i] == Cell(32, 7)
    {
      FormFeedBlanks(d);
      WindowCells(doc);
      hide Screen, Put, Blanks;
    }
  }
}
