/** The console driver: the screen is a window of video memory starting at `origin`, the cursor is kept both as a
    column and a row and as the address `pos`, and scrolling the whole screen on an EGA or VGA moves the window instead
    of the rows. */
module Console {
  import opened Terminal
  import opened VideoMemory

  // ---------- repeated operations ----------

  lemma RowsIn(s: seq<Row>, cols: nat, y: nat, n: nat)
    requires y < |s|
    ensures forall i {:trigger InsertLines(s, cols, y, n)[i]} :: 0 <= i < |s| ==>
              InsertLines(s, cols, y, n)[i] == if i < y then s[i] else if i < y + n then Blank(cols) else s[i - n]
  {
  }

  lemma OneRowIn(s: seq<Row>, cols: nat, y: nat, n: nat)
    requires y < |s|
    ensures ScrollDown(InsertLines(s, cols, y, n), cols, y, |s|) == InsertLines(s, cols, y, n + 1)
    ensures InsertLines(s, cols, y, 0) == s
  {
    var a, b := ScrollDown(InsertLines(s, cols, y, n), cols, y, |s|), InsertLines(s, cols, y, n + 1);
    RowsIn(s, cols, y, n);
    RowsIn(s, cols, y, n + 1);
    forall i | 0 <= i < |s|
      ensures a[i] == b[i]
    {
      assert y < i ==> a[i] == InsertLines(s, cols, y, n)[i - 1];
    }
  }

  lemma OneRowOut(s: seq<Row>, cols: nat, y: nat, n: nat)
    requires y < |s|
    ensures ScrollUp(DeleteLines(s, cols, y, n), cols, y, |s|) == DeleteLines(s, cols, y, n + 1)
    ensures DeleteLines(s, cols, y, 0) == s
  {
  }

  lemma CellsIn(row: Row, x: nat, n: nat)
    requires x <= |row|
    ensures forall i {:trigger InsertCells(row, x, n)[i]} :: 0 <= i < |row| ==>
              InsertCells(row, x, n)[i] == if i < x then row[i] else if i < x + n then ERASE else row[i - n]
  {
  }

  lemma OneCellIn(row: Row, x: nat, n: nat)
    requires x <= |row|
    ensures InsertCells(InsertCells(row, x, n), x, 1) == InsertCells(row, x, n + 1)
    ensures InsertCells(row, x, 0) == row
  {
    var c := InsertCells(row, x, n);
    var a, b := InsertCells(c, x, 1), InsertCells(row, x, n + 1);
    CellsIn(row, x, n);
    CellsIn(row, x, n + 1);
    CellsIn(c, x, 1);
    assert forall i :: 0 <= i < |row| ==> a[i] == b[i];
  }

  lemma OneCellOut(row: Row, x: nat, n: nat)
    requires x <= |row|
    ensures DeleteCells(DeleteCells(row, x, n), x, 1) == DeleteCells(row, x, n + 1)
    ensures DeleteCells(row, x, 0) == row
  {
  }

  /** Past the last column a line has nothing to erase. */
  lemma NothingToErase(s: seq<Row>, x: nat, y: nat)
    requires forall r :: 0 <= r < |s| ==> |s[r]| <= x
    ensures Erase(s, RowToEnd, x, y) == s
  {
    assert forall r :: 0 <= r < |s| ==> Erase(s, RowToEnd, x, y)[r] == s[r];
  }

  lemma Redrawn(t: Term, s: seq<Row>)
    requires TermOk(t) && (Grid(t.screen, t.cols, t.lines) ==> Grid(s, t.cols, t.lines))
    ensures TermOk(t.(screen := s))
  {
  }

  /** Whole rows of an even number of columns are whole double words. */
  lemma DoubleWords(cols: nat, top: nat, bottom: nat)
    requires cols % 2 == 0 && top <= bottom
    ensures 2 * ((bottom - top) * cols / 2) == At(cols, bottom) - At(cols, top)
  {
    var half := cols / 2;
    assert (bottom - top) * cols == 2 * ((bottom - top) * half);
    assert (bottom - top) * cols == bottom * cols - top * cols;
  }

  lemma CopiedBelow(m: seq<nat>, m1: seq<nat>, m2: seq<nat>, dst: nat, src: nat, n: nat)
    requires 2 <= src <= dst && Copied(m, m1, dst, src, n)
    requires m2 == m1[dst - 2 := m1[src - 2]][dst - 1 := m1[src - 1]]
    ensures Copied(m, m2, dst - 2, src - 2, n + 2)
  {
  }

  class Console {
    /** Video memory, cell by cell; its length is where video RAM ends. */
    const mem: array<nat>
    const cols: nat
    const lines: nat
    /** An EGA or VGA, whose origin can be moved. */
    const fast: bool

    var origin: nat
    var scrEnd: nat
    var pos: nat
    var x: nat
    var y: nat
    var top: nat
    var bottom: nat
    var state: nat
    var npar: nat
    const par: array<nat>
    var ques: bool
    var attr: nat
    var savedX: nat
    var savedY: nat
    var replies: nat

    /** The redundant fields agree and the window lies inside video memory. */
    ghost predicate Sound()
      reads this
    {
      && scrEnd == origin + At(cols, lines) <= mem.Length
      && pos == origin + At(cols, y) + x
      && par != mem
    }

    ghost function Abs(): Term
      requires Sound()
      reads this, mem, par
    {
      Term(cols, lines, ScreenOf(mem[..], origin, cols, lines), x, y, top, bottom, state, npar, par[..], ques, attr,
          savedX, savedY, replies)
    }

    ghost predicate Valid()
      reads this, mem, par
    {
      Sound() && TermOk(Abs())
    }

    /** The console at boot: the window at the start of video memory, the cursor where the setup code left it. */
    constructor (mem: array<nat>, cols: nat, lines: nat, fast: bool, startX: nat, startY: nat)
      requires 4 <= cols < 0x1_0000 && cols % 2 == 0 && 0 < lines < 0x1_0000 && At(cols, lines) <= mem.Length
      requires startX <= cols && startY < lines
      ensures Valid() && this.mem == mem && fresh(par) && this.fast == fast
      ensures Abs() == Term(cols, lines, ScreenOf(mem[..], 0, cols, lines), startX, startY, 0, lines, 0, 0,
          seq(NPAR, i => 0), false, 0x07, 0, 0, 0)
    {
      this.mem, this.cols, this.lines, this.fast := mem, cols, lines, fast;
      origin, scrEnd, top, bottom := 0, lines * cols, 0, lines;
      x, y, pos := startX, startY, startY * cols + startX;
      state, npar, ques, attr, savedX, savedY, replies := 0, 0, false, 0x07, 0, 0, 0;
      par := new nat[NPAR](i => 0);
      new;
      assert par[..] == seq(NPAR, i => 0);
    }

    // ---------- string instructions ----------

    /** One movsl: two cells are read before two are written. */
    method MoveDword(d: nat, s: nat)
      requires d + 2 <= mem.Length && s + 2 <= mem.Length
      modifies mem
      ensures mem[..] == old(mem[..][d := mem[s]][d + 1 := mem[s + 1]])
    {
      mem[d], mem[d + 1] := mem[s], mem[s + 1];
    }

    /** cld; rep movsl. */
    method MoveUp(edi: nat, esi: nat, ecx: nat) returns (end: nat)
      requires edi <= esi && esi + 2 * ecx <= mem.Length
      modifies mem
      ensures Copied(old(mem[..]), mem[..], edi, esi, 2 * ecx) && end == edi + 2 * ecx
    {
      var n := 0;
      while n < ecx
        invariant 0 <= n <= ecx
        invariant Copied(old(mem[..]), mem[..], edi, esi, 2 * n)
      {
        MoveDword(edi + 2 * n, esi + 2 * n);
        n := n + 1;
      }
      end := edi + 2 * ecx;
    }

    /** std; rep movsl. */
    method MoveDown(edi: int, esi: int, ecx: nat) returns (end: int)
      requires 2 * ecx <= esi + 2 <= edi + 2 <= mem.Length
      modifies mem
      ensures Copied(old(mem[..]), mem[..], edi + 2 - 2 * ecx, esi + 2 - 2 * ecx, 2 * ecx)
      ensures end == edi - 2 * ecx
    {
      var n := 0;
      assert Copied(old(mem[..]), mem[..], edi + 2, esi + 2, 0);
      hide Copied;
      while n < ecx
        invariant 0 <= n <= ecx && |mem[..]| == mem.Length
        invariant Copied(old(mem[..]), mem[..], edi + 2 - 2 * n, esi + 2 - 2 * n, 2 * n)
      {
        ghost var m1 := mem[..];
        MoveDword(edi - 2 * n, esi - 2 * n);
        CopiedBelow(old(mem[..]), m1, mem[..], edi + 2 - 2 * n, esi + 2 - 2 * n, 2 * n);
        n := n + 1;
      }
      end := edi - 2 * ecx;
    }

    /** cld; rep stosw with the erase character. */
    method Fill(edi: nat, ecx: nat)
      requires edi + ecx <= mem.Length
      modifies mem
      ensures Filled(old(mem[..]), mem[..], edi, ecx)
    {
      var n := 0;
      while n < ecx
        invariant 0 <= n <= ecx
        invariant Filled(old(mem[..]), mem[..], edi, n)
      {
        mem[edi + n] := ERASE;
        n := n + 1;
      }
    }

    /** std; rep stosw with the erase character. */
    method FillDown(edi: int, ecx: nat)
      requires 0 <= edi + 1 - ecx && edi < mem.Length
      modifies mem
      ensures Filled(old(mem[..]), mem[..], edi + 1 - ecx, ecx)
    {
      var n := 0;
      while n < ecx
        invariant 0 <= n <= ecx
        invariant Filled(old(mem[..]), mem[..], edi + 1 - n, n)
      {
        mem[edi - n] := ERASE;
        n := n + 1;
      }
    }

    // ---------- scrolling ----------

    /** How the rows named by the cursor and the scroll region lie. */
    lemma Rows()
      requires Valid()
      ensures 4 <= cols && cols % 2 == 0 && y < lines && top < bottom <= lines
      ensures At(cols, 0) == 0 && At(cols, y) + cols <= At(cols, lines)
      ensures At(cols, bottom - 1) + cols == At(cols, bottom) <= At(cols, lines)
      ensures At(cols, top + 1) == At(cols, top) + cols <= At(cols, bottom)
      ensures At(cols, top) <= At(cols, bottom - 1)
      ensures At(cols, lines - 1) + cols == At(cols, lines) == cols * lines
      ensures cols * top == At(cols, top) && cols * (top + 1) == At(cols, top + 1)
      ensures cols * bottom == At(cols, bottom) && cols * (bottom - 1) == At(cols, bottom - 1)
    {
      AtBefore(cols, y, lines);
      AtNext(cols, bottom - 1);
      AtNext(cols, top);
      AtNext(cols, lines - 1);
      AtBefore(cols, top, bottom);
      if bottom < lines {
        AtBefore(cols, bottom, lines);
      }
    }

    /** The whole screen scrolled by moving the origin. */
    method MoveOrigin()
      requires Valid() && top == 0 && bottom == lines
      modifies this`origin, this`pos, this`scrEnd, mem
      ensures Valid() && Abs() == old(Abs()).(screen := ScrollUp(old(Abs().screen), cols, top, bottom))
    {
      hide At, ScreenOf, ScrollUp, Copied, Filled, TermOk, Grid;
      ghost var m := mem[..];
      Rows();
      Redrawn(Abs(), ScrollUp(Abs().screen, cols, top, bottom));
      DoubleWords(cols, 0, lines - 1);
      origin := origin + cols;
      pos := pos + cols;
      scrEnd := scrEnd + cols;
      if scrEnd > mem.Length {
        var end := MoveUp(0, origin, (lines - 1) * cols / 2);
        ghost var m1 := mem[..];
        Fill(end, cols);
        scrEnd := scrEnd - origin;
        pos := pos - origin;
        OriginWrapped(m, m1, mem[..], origin - cols, cols, lines);
        origin := 0;
      } else {
        Fill(scrEnd - cols, cols);
        OriginMoved(m, mem[..], origin - cols, cols, lines);
      }
    }

    /** The scroll region scrolled by copying its rows. */
    method CopyRows()
      requires Valid()
      modifies mem
      ensures Valid() && Abs() == old(Abs()).(screen := ScrollUp(old(Abs().screen), cols, top, bottom))
    {
      hide At, ScreenOf, ScrollUp, Copied, Filled, TermOk, Grid;
      ghost var m := mem[..];
      Rows();
      Redrawn(Abs(), ScrollUp(Abs().screen, cols, top, bottom));
      DoubleWords(cols, top, bottom - 1);
      var end := MoveUp(origin + cols * top, origin + cols * (top + 1), (bottom - top - 1) * cols / 2);
      ghost var m1 := mem[..];
      Fill(end, cols);
      CopiedUp(m, m1, mem[..], origin, cols, lines, top, bottom);
    }

    /** With or without the hardware, and at the end of video memory too, the region scrolls up by one row. */
    method ScrUp()
      requires Valid()
      modifies this`origin, this`pos, this`scrEnd, mem
      ensures Valid() && Abs() == old(Abs()).(screen := ScrollUp(old(Abs().screen), cols, top, bottom))
    {
      if fast && top == 0 && bottom == lines {
        MoveOrigin();
      } else {
        CopyRows();
      }
    }

    method ScrDown()
      requires Valid()
      modifies mem
      ensures Valid() && Abs() == old(Abs()).(screen := ScrollDown(old(Abs().screen), cols, top, bottom))
    {
      hide At, ScreenOf, ScrollDown, Copied, Filled, TermOk, Grid;
      ghost var m := mem[..];
      Rows();
      Redrawn(Abs(), ScrollDown(Abs().screen, cols, top, bottom));
      DoubleWords(cols, top + 1, bottom);
      var end := MoveDown(origin + cols * bottom - 2, origin + cols * (bottom - 1) - 2, (bottom - top - 1) * cols / 2);
      ghost var m1 := mem[..];
      FillDown(end + 1, cols);
      CopiedDown(m, m1, mem[..], origin, cols, lines, top, bottom);
    }

    // ---------- the cursor ----------

    method GotoXY(nx: nat, ny: nat)
      requires Valid()
      modifies this`x, this`y, this`pos
      ensures Valid() && Abs() == Goto(old(Abs()), nx, ny)
    {
      hide ScreenOf, Grid, Words;
      if nx > cols || ny >= lines {
        return;
      }
      x := nx;
      y := ny;
      pos := origin + y * cols + x;
    }

    method Lf()
      requires Valid()
      modifies this`y, this`pos, this`origin, this`scrEnd, mem
      ensures Valid() && Abs() == LineFeed(old(Abs()))
    {
      hide At, ScreenOf, ScrollUp, Grid, Words;
      AtNext(cols, y);
      if y + 1 < bottom {
        y := y + 1;
        pos := pos + cols;
        return;
      }
      ScrUp();
    }

    method Ri()
      requires Valid()
      modifies this`y, this`pos, mem
      ensures Valid() && Abs() == ReverseLineFeed(old(Abs()))
    {
      hide At, ScreenOf, ScrollDown, Grid, Words;
      if y > top {
        AtNext(cols, y - 1);
        y := y - 1;
        pos := pos - cols;
        return;
      }
      ScrDown();
    }

    method Cr()
      requires Valid()
      modifies this`x, this`pos
      ensures Valid() && Abs() == old(Abs()).(x := 0)
    {
      hide At, ScreenOf, Grid, Words;
      pos := pos - x;
      x := 0;
    }

    /** A cell written at the cursor. */
    method SetHere(c: nat)
      requires Valid() && x < cols
      modifies mem
      ensures Valid() && Abs() == SetCell(old(Abs()), c)
    {
      hide At, ScreenOf, Grid, Words;
      Rows();
      ghost var m := mem[..];
      mem[pos] := c;
      CellSet(m, mem[..], origin, cols, lines, x, y, c);
    }

    method Del()
      requires Valid()
      modifies this`x, this`pos, mem
      ensures Valid() && Abs() == Rubout(old(Abs()))
    {
      hide At, ScreenOf, Grid, WithCell, Words;
      if x > 0 {
        pos := pos - 1;
        x := x - 1;
        SetHere(ERASE);
      }
    }

    method Print(c: nat)
      requires Valid()
      modifies this`x, this`y, this`pos, this`origin, this`scrEnd, mem
      ensures Valid() && Abs() == Put(old(Abs()), c)
    {
      hide At, ScreenOf, Grid, LineFeed, SetCell, Words;
      if x >= cols {
        x := x - cols;
        pos := pos - cols;
        Lf();
      }
      SetHere(attr * 256 + c);
      pos := pos + 1;
      x := x + 1;
    }

    method TabOn()
      requires Valid()
      modifies this`x, this`y, this`pos, this`origin, this`scrEnd, mem
      ensures Valid() && Abs() == Tab(old(Abs()))
    {
      hide At, ScreenOf, Grid, ScrollUp, Words;
      var c := 8 - x % 8;
      x := x + c;
      pos := pos + c;
      if x > cols {
        x := x - cols;
        pos := pos - cols;
        Lf();
      }
    }

    // ---------- inserting and deleting ----------

    method InsertChar()
      requires Valid()
      modifies mem
      ensures Valid() && Abs() == SetRow(old(Abs()), InsertCells(old(Abs()).screen[y], x, 1))
    {
      hide At, ScreenOf, Grid, Words;
      Rows();
      ghost var m := mem[..];
      var i, was, p := x, ERASE, pos;
      while i < cols
        invariant x <= i <= cols && p == pos + (i - x)
        invariant ShiftedIn(m, mem[..], pos, p)
        invariant was == if i == x then ERASE else m[p - 1]
      {
        var tmp := mem[p];
        mem[p] := was;
        was := tmp;
        i, p := i + 1, p + 1;
      }
      CellIn(m, mem[..], origin, cols, lines, x, y);
    }

    method DeleteChar()
      requires Valid()
      modifies mem
      ensures Valid() && Abs() == SetRow(old(Abs()), DeleteCells(old(Abs()).screen[y], x, 1))
    {
      hide At, ScreenOf, Grid, Words;
      Rows();
      if x >= cols {
        OneCellOut(Abs().screen[y], x, 0);
        return;
      }
      ghost var m := mem[..];
      var i, p := x + 1, pos;
      while i < cols
        invariant x < i <= cols && p == pos + (i - x) - 1
        invariant ShiftedOut(m, mem[..], pos, p)
      {
        mem[p] := mem[p + 1];
        i, p := i + 1, p + 1;
      }
      ghost var m1 := mem[..];
      mem[p] := ERASE;
      CellOut(m, m1, mem[..], origin, cols, lines, x, y);
    }

    /** The rows from the cursor's on, whatever the scroll region. */
    method InsertLine()
      requires Valid()
      modifies this`top, this`bottom, mem
      ensures Valid() && Abs() == old(Abs()).(screen := ScrollDown(old(Abs()).screen, cols, y, lines))
    {
      hide At, ScreenOf, ScrollDown, Grid, Words;
      var oldTop, oldBottom := top, bottom;
      top := y;
      bottom := lines;
      ScrDown();
      top := oldTop;
      bottom := oldBottom;
    }

    method DeleteLine()
      requires Valid()
      modifies this`top, this`bottom, this`origin, this`pos, this`scrEnd, mem
      ensures Valid() && Abs() == old(Abs()).(screen := ScrollUp(old(Abs()).screen, cols, y, lines))
    {
      hide At, ScreenOf, ScrollUp, Grid, Words;
      var oldTop, oldBottom := top, bottom;
      top := y;
      bottom := lines;
      ScrUp();
      top := oldTop;
      bottom := oldBottom;
    }

    method CsiInsertChars(count: nat)
      requires Valid()
      modifies mem
      ensures Valid() && Abs() == SetRow(old(Abs()), InsertCells(old(Abs()).screen[y], x, Count(count, cols)))
    {
      hide At, ScreenOf, Grid, InsertCells, Words;
      var nr: nat := if count > cols then cols else if count == 0 then 1 else count;
      ghost var t := Abs();
      ghost var n := 0;
      OneCellIn(t.screen[y], x, 0);
      while nr > 0
        invariant Valid() && n + nr == Count(count, cols)
        invariant Abs() == SetRow(t, InsertCells(t.screen[y], x, n))
      {
        nr := nr - 1;
        OneCellIn(t.screen[y], x, n);
        InsertChar();
        n := n + 1;
      }
    }

    method CsiDeleteChars(count: nat)
      requires Valid()
      modifies mem
      ensures Valid() && Abs() == SetRow(old(Abs()), DeleteCells(old(Abs()).screen[y], x, Count(count, cols)))
    {
      hide At, ScreenOf, Grid, DeleteCells, Words;
      var nr: nat := if count > cols then cols else if count == 0 then 1 else count;
      ghost var t := Abs();
      ghost var n := 0;
      OneCellOut(t.screen[y], x, 0);
      while nr > 0
        invariant Valid() && n + nr == Count(count, cols)
        invariant Abs() == SetRow(t, DeleteCells(t.screen[y], x, n))
      {
        nr := nr - 1;
        OneCellOut(t.screen[y], x, n);
        DeleteChar();
        n := n + 1;
      }
    }

    method CsiInsertLines(count: nat)
      requires Valid()
      modifies this`top, this`bottom, mem
      ensures Valid() && Abs() == old(Abs()).(screen := InsertLines(old(Abs()).screen, cols, y, Count(count, lines)))
    {
      hide At, ScreenOf, Grid, InsertLines, ScrollDown, Words;
      var nr: nat := if count > lines then lines else if count == 0 then 1 else count;
      ghost var t := Abs();
      ghost var n := 0;
      OneRowIn(t.screen, cols, y, 0);
      while nr > 0
        invariant Valid() && n + nr == Count(count, lines)
        invariant Abs() == t.(screen := InsertLines(t.screen, cols, y, n))
      {
        nr := nr - 1;
        OneRowIn(t.screen, cols, y, n);
        InsertLine();
        n := n + 1;
      }
    }

    method CsiDeleteLines(count: nat)
      requires Valid()
      modifies this`top, this`bottom, this`origin, this`pos, this`scrEnd, mem
      ensures Valid() && Abs() == old(Abs()).(screen := DeleteLines(old(Abs()).screen, cols, y, Count(count, lines)))
    {
      hide At, ScreenOf, Grid, DeleteLines, ScrollUp, Words;
      var nr: nat := if count > lines then lines else if count == 0 then 1 else count;
      ghost var t := Abs();
      ghost var n := 0;
      OneRowOut(t.screen, cols, y, 0);
      while nr > 0
        invariant Valid() && n + nr == Count(count, lines)
        invariant Abs() == t.(screen := DeleteLines(t.screen, cols, y, n))
      {
        nr := nr - 1;
        OneRowOut(t.screen, cols, y, n);
        DeleteLine();
        n := n + 1;
      }
    }

    // ---------- erasing and attributes ----------

    method EraseSpan(start: nat, count: nat, ghost span: Span)
      requires Valid() && start == origin + SpanFrom(span, cols, x, y)
          && start + count == origin + SpanTo(span, cols, lines, x, y) <= mem.Length
      modifies mem
      ensures Valid() && Abs() == old(Abs()).(screen := Erase(old(Abs()).screen, span, x, y))
    {
      hide At, ScreenOf, Grid, Erase, Filled, SpanFrom, SpanTo, Words;
      ghost var m := mem[..];
      Fill(start, count);
      Cleared(m, mem[..], origin, cols, lines, span, x, y);
    }

    method CsiEraseDisplay(code: nat)
      requires Valid() && code == par[0]
      modifies mem
      ensures Valid() && Abs() == EraseDisplay(old(Abs()))
    {
      hide At, ScreenOf, Grid, Erase, Filled, Words;
      Rows();
      var count, start;
      ghost var span;
      if code == 0 {
        count, start, span := scrEnd - pos, pos, ToEnd;
      } else if code == 1 {
        count, start, span := pos - origin, origin, FromStart;
      } else if code == 2 {
        count, start, span := cols * lines, origin, All;
      } else {
        return;
      }
      EraseSpan(start, count, span);
    }

    method CsiEraseLine(code: nat)
      requires Valid() && code == par[0]
      modifies mem
      ensures Valid() && Abs() == EraseLine(old(Abs()))
    {
      hide At, ScreenOf, Grid, Erase, Filled, Words;
      Rows();
      var count, start;
      ghost var span;
      if code == 0 {
        if x >= cols {
          NothingToErase(Abs().screen, x, y);
          return;
        }
        count, start, span := cols - x, pos, RowToEnd;
      } else if code == 1 {
        count, start, span := if x < cols then x else cols, pos - x, RowFromStart;
      } else if code == 2 {
        count, start, span := cols, pos - x, RowAll;
      } else {
        return;
      }
      EraseSpan(start, count, span);
    }

    method CsiAttributes()
      requires Valid()
      modifies this`attr
      ensures Valid() && Abs() == old(Abs()).(attr := Attributes(old(attr), par[..npar + 1]))
    {
      hide At, ScreenOf, Grid, Words;
      var i := 0;
      while i <= npar
        invariant 0 <= i <= npar + 1 && Valid()
        invariant Abs() == old(Abs()).(attr := Attributes(old(attr), par[..i]))
      {
        match par[i] {
          case 0 => attr := 0x07;
          case 1 => attr := 0x0f;
          case 4 => attr := 0x0f;
          case 7 => attr := 0x70;
          case 27 => attr := 0x07;
          case _ =>
        }
        assert par[..i + 1][..i] == par[..i];
        i := i + 1;
      }
    }

    method SetRegionHere()
      requires Valid()
      modifies this`top, this`bottom, par
      ensures Valid() && Abs() == SetRegion(old(Abs()))
    {
      hide At, ScreenOf, Grid;
      LessOne(0);
      if par[1] == 0 {
        par[1] := lines;
      }
      if par[0] < par[1] <= lines {
        top := par[0];
        bottom := par[1];
      }
    }

    // ---------- control sequences ----------

    method OneAtLeast()
      requires Valid()
      modifies par
      ensures Valid() && Abs() == AtLeastOne(old(Abs()))
    {
      hide At, ScreenOf, Grid;
      if par[0] == 0 {
        par[0] := par[0] + 1;
      }
    }

    method LessOne(i: nat)
      requires Valid() && i < NPAR
      modifies par
      ensures Valid() && Abs() == OneLess(old(Abs()), i)
    {
      hide At, ScreenOf, Grid;
      if par[i] > 0 {
        par[i] := par[i] - 1;
      }
    }

    method SaveCur()
      requires Valid()
      modifies this`savedX, this`savedY
      ensures Valid() && Abs() == old(Abs()).(savedX := x, savedY := y)
    {
      hide At, ScreenOf, Grid, Words;
      savedX := x;
      savedY := y;
    }

    /** Moving the cursor by a parameter. */
    method Move(c: int)
      requires Valid() && Moves(c)
      modifies this`x, this`y, this`pos, par
      ensures Valid() && Abs() == Control(old(Abs()), c)
    {
      hide At, ScreenOf, Grid, Words, Goto, AtLeastOne, OneLess, Plus, Minus;
      if c == 'G' as int || c == '`' as int {
        LessOne(0);
        GotoXY(par[0], y);
      } else if c == 'A' as int {
        OneAtLeast();
        GotoXY(x, Minus(y, par[0]));
      } else if c == 'B' as int || c == 'e' as int {
        OneAtLeast();
        GotoXY(x, Plus(y, par[0]));
      } else if c == 'C' as int || c == 'a' as int {
        OneAtLeast();
        GotoXY(Plus(x, par[0]), y);
      } else if c == 'D' as int {
        OneAtLeast();
        GotoXY(Minus(x, par[0]), y);
      } else if c == 'E' as int {
        OneAtLeast();
        GotoXY(0, Plus(y, par[0]));
      } else if c == 'F' as int {
        OneAtLeast();
        GotoXY(0, Minus(y, par[0]));
      } else if c == 'd' as int {
        LessOne(0);
        GotoXY(x, par[0]);
      } else {
        LessOne(0);
        LessOne(1);
        GotoXY(par[1], par[0]);
      }
    }

    static predicate Moves(c: int) {
      c in ['G' as int, '`' as int, 'A' as int, 'B' as int, 'e' as int, 'C' as int, 'a' as int, 'D' as int, 'E' as int,
          'F' as int,
            'd' as int, 'H' as int, 'f' as int]
    }

    /** The final character of a control sequence. */
    method Command(c: int)
      requires Valid()
      modifies this, mem, par
      ensures Valid() && Abs() == Control(old(Abs()), c)
    {
      hide At, ScreenOf, Grid, Words, EraseDisplay, EraseLine, InsertLines, DeleteLines, InsertCells, DeleteCells,
          SetRegion, Goto;
      if Moves(c) {
        Move(c);
      } else if c == 'J' as int {
        CsiEraseDisplay(par[0]);
      } else if c == 'K' as int {
        CsiEraseLine(par[0]);
      } else if c == 'L' as int {
        CsiInsertLines(par[0]);
      } else if c == 'M' as int {
        CsiDeleteLines(par[0]);
      } else if c == 'P' as int {
        CsiDeleteChars(par[0]);
      } else if c == '@' as int {
        CsiInsertChars(par[0]);
      } else if c == 'm' as int {
        CsiAttributes();
      } else if c == 'r' as int {
        SetRegionHere();
      } else if c == 's' as int {
        SaveCur();
      } else if c == 'u' as int {
        GotoXY(savedX, savedY);
      }
    }

    // ---------- the parser ----------

    method OnText(c: int, eraseChar: int)
      requires Valid()
      modifies this, mem, par
      ensures Valid() && Abs() == Text(old(Abs()), c, eraseChar)
    {
      hide At, ScreenOf, Grid, Words, Put, LineFeed, Rubout, Tab;
      if 31 < c < 127 {
        Print(c);
      } else if c == 27 {
        state := 1;
      } else if c == 10 || c == 11 || c == 12 {
        Lf();
      } else if c == 13 {
        Cr();
      } else if c == eraseChar {
        Del();
      } else if c == 8 {
        if x > 0 {
          x := x - 1;
          pos := pos - 1;
        }
      } else if c == 9 {
        TabOn();
      }
    }

    method OnEscape(c: int)
      requires Valid()
      modifies this, mem, par
      ensures Valid() && Abs() == Escape(old(Abs()), c)
    {
      hide At, ScreenOf, Grid, Words, LineFeed, ReverseLineFeed, Goto;
      state := 0;
      if c == '[' as int {
        state := 2;
      } else if c == 'E' as int {
        GotoXY(0, y + 1);
      } else if c == 'M' as int {
        Ri();
      } else if c == 'D' as int {
        Lf();
      } else if c == 'Z' as int {
        replies := replies + 1;
      } else if x == '7' as int {
        SaveCur();
      } else if x == '8' as int {
        GotoXY(savedX, savedY);
      }
    }

    method OnParameter(c: int)
      requires Valid()
      modifies this, mem, par
      ensures Valid() && Abs() == Parameter(old(Abs()), c)
    {
      hide At, ScreenOf, Grid, Control;
      if c == ';' as int && npar < NPAR - 1 {
        npar := npar + 1;
      } else if '0' as int <= c <= '9' as int {
        par[npar] := (10 * par[npar] + (c - '0' as int)) % WORD;
      } else {
        state := 0;
        Command(c);
      }
    }

    method ClearParameters(c: int)
      requires Valid()
      modifies this`npar, this`state, this`ques, par
      ensures Valid() && Abs() == old(Abs()).(par := seq(NPAR, i => 0), npar := 0, mode := 3, ques := c == '?' as int)
    {
      hide At, ScreenOf, Grid;
      npar := 0;
      while npar < NPAR
        invariant 0 <= npar <= NPAR && par.Length == NPAR
        invariant forall i :: 0 <= i < npar ==> par[i] == 0
      {
        par[npar] := 0;
        npar := npar + 1;
      }
      npar := 0;
      state := 3;
      ques := c == '?' as int;
      assert par[..] == seq(NPAR, i => 0);
    }

    /** One character, by the state of the parser. */
    method OnChar(c: int, eraseChar: int)
      requires Valid()
      modifies this, mem, par
      ensures Valid() && Abs() == Show(old(Abs()), c, eraseChar)
    {
      hide At, ScreenOf, Grid, Words, Text, Escape, Parameter;
      if state == 0 {
        OnText(c, eraseChar);
      } else if state == 1 {
        OnEscape(c);
      } else if state == 2 {
        ClearParameters(c);
        if !ques {
          OnParameter(c);
        }
      } else {
        OnParameter(c);
      }
    }

    /** Any stream of characters, in the order the console takes them: video memory, the cursor address and the origin
        show exactly the terminal's screen. Which characters it takes is the business of the terminal driver, whose
        queue con_write reads and to which it answers. */
    method ShowStream(cs: seq<int>, eraseChar: int)
      requires Valid()
      modifies this, mem, par
      ensures Valid() && Abs() == ShowAll(old(Abs()), cs, eraseChar)
    {
      hide At, ScreenOf, Grid, Words, Show;
      var n := 0;
      while n < |cs|
        invariant 0 <= n <= |cs| && Valid()
        invariant Abs() == ShowAll(old(Abs()), cs[..n], eraseChar)
      {
        OnChar(cs[n], eraseChar);
        assert cs[..n + 1][..n] == cs[..n];
        n := n + 1;
      }
      assert cs[..n] == cs;
    }
  }

  /** Two consoles that show the same screen go on doing so whatever is written, even if only one of them scrolls by
      moving its origin, or they stand at different places of video memories of different sizes. */
  method SameOnEveryAdapter(a: Console, b: Console, cs: seq<int>, eraseChar: int)
    requires a.Valid() && b.Valid() && {a, a.mem, a.par} !! {b, b.mem, b.par}
    requires a.Abs() == b.Abs()
    modifies a, a.mem, a.par, b, b.mem, b.par
    ensures a.Valid() && b.Valid() && a.Abs() == b.Abs()
  {
    a.ShowStream(cs, eraseChar);
    b.ShowStream(cs, eraseChar);
  }
}
