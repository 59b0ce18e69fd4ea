/** The screen a terminal shows, as a grid of cells with a cursor and a scroll region, and what each character does to
    it. There is no video memory, no origin and no scrolling hardware here. */
module Terminal {

  /** A blank in the default attribute. */
  const ERASE: nat := 0x0720
  const NPAR: nat := 16
  const WORD: nat := 0x1_0000_0000

  type Row = seq<nat>

  /** `mode` is the state of the escape-sequence parser: 0 text, 1 after ESC, 2 after ESC [, 3 in the parameters. */
  datatype Term = Term(cols: nat, lines: nat, screen: seq<Row>, x: nat, y: nat, top: nat, bottom: nat,
                       mode: nat, npar: nat, par: seq<nat>, ques: bool, attr: nat, savedX: nat, savedY: nat,
                           replies: nat)

  predicate Grid(s: seq<Row>, cols: nat, lines: nat) {
    |s| == lines && forall r :: 0 <= r < lines ==> |s[r]| == cols
  }

  /** A cursor one past the last column is allowed; the scroll region is not empty. Four columns are needed for tabs, an
      even number for scrolling by double words. */
  predicate TermOk(t: Term) {
    && 4 <= t.cols < 0x1_0000 && t.cols % 2 == 0 && 0 < t.lines < 0x1_0000 && Grid(t.screen, t.cols, t.lines)
    && t.x <= t.cols && t.y < t.lines && t.top < t.bottom <= t.lines
    && t.mode <= 3 && t.npar < NPAR && |t.par| == NPAR && Words(t.par)
  }

  /** Every parameter is a 32-bit word. */
  predicate Words(par: seq<nat>) {
    forall i :: 0 <= i < |par| ==> par[i] < WORD
  }

  function Blank(cols: nat): Row {
    seq(cols, j => ERASE)
  }

  // ---------- the grid ----------

  /** Rows top..bottom-1 move up one, a blank row comes in at the bottom. */
  function ScrollUp(s: seq<Row>, cols: nat, top: nat, bottom: nat): (r: seq<Row>)
    requires top < bottom <= |s|
    ensures |r| == |s| && (Grid(s, cols, |s|) ==> Grid(r, cols, |s|))
  {
    s[..top] + s[top + 1..bottom] + [Blank(cols)] + s[bottom..]
  }

  function ScrollDown(s: seq<Row>, cols: nat, top: nat, bottom: nat): (r: seq<Row>)
    requires top < bottom <= |s|
    ensures |r| == |s| && (Grid(s, cols, |s|) ==> Grid(r, cols, |s|))
  {
    s[..top] + [Blank(cols)] + s[top..bottom - 1] + s[bottom..]
  }

  function Min(a: nat, b: nat): nat { if a < b then a else b }

  /** n blank rows open at row y; what is pushed past the last line is lost. */
  function InsertLines(s: seq<Row>, cols: nat, y: nat, n: nat): (r: seq<Row>)
    requires y < |s|
    ensures |r| == |s| && (Grid(s, cols, |s|) ==> Grid(r, cols, |s|))
  {
    var k := Min(n, |s| - y);
    s[..y] + seq(k, i => Blank(cols)) + s[y..|s| - k]
  }

  /** n rows from row y on go; the rows below move up and blank rows come in at the end. */
  function DeleteLines(s: seq<Row>, cols: nat, y: nat, n: nat): (r: seq<Row>)
    requires y < |s|
    ensures |r| == |s| && (Grid(s, cols, |s|) ==> Grid(r, cols, |s|))
  {
    var k := Min(n, |s| - y);
    s[..y] + s[y + k..] + seq(k, i => Blank(cols))
  }

  function InsertCells(row: Row, x: nat, n: nat): (r: Row)
    requires x <= |row|
    ensures |r| == |row|
  {
    var k := Min(n, |row| - x);
    row[..x] + Blank(k) + row[x..|row| - k]
  }

  function DeleteCells(row: Row, x: nat, n: nat): (r: Row)
    requires x <= |row|
    ensures |r| == |row|
  {
    var k := Min(n, |row| - x);
    row[..x] + row[x + k..] + Blank(k)
  }

  /** Deleting undoes inserting, except that what was pushed off the end comes back blank. */
  lemma LinesUndone(s: seq<Row>, cols: nat, y: nat, n: nat)
    requires y < |s|
    ensures DeleteLines(InsertLines(s, cols, y, n), cols, y, n) ==
            var k := Min(n, |s| - y); s[..|s| - k] + seq(k, i => Blank(cols))
  {
    var k := Min(n, |s| - y);
    assert InsertLines(s, cols, y, n)[..y] == s[..y];
    assert InsertLines(s, cols, y, n)[y + k..] == s[y..|s| - k];
    assert s[..y] + s[y..|s| - k] == s[..|s| - k];
  }

  lemma CellsUndone(row: Row, x: nat, n: nat)
    requires x <= |row|
    ensures DeleteCells(InsertCells(row, x, n), x, n) == var k := Min(n, |row| - x); row[..|row| - k] + Blank(k)
  {
    var k := Min(n, |row| - x);
    assert InsertCells(row, x, n)[..x] == row[..x];
    assert InsertCells(row, x, n)[x + k..] == row[x..|row| - k];
    assert row[..x] + row[x..|row| - k] == row[..|row| - k];
  }

  function WithCell(s: seq<Row>, x: nat, y: nat, c: nat): (r: seq<Row>)
    requires y < |s| && x < |s[y]|
    ensures |r| == |s| && forall i :: 0 <= i < |s| ==> |r[i]| == |s[i]|
  {
    var row: Row := s[y][x := c];
    s[y := row]
  }

  /** The parts of the grid that erasing can name, relative to the cursor. */
  datatype Span = ToEnd | FromStart | All | RowToEnd | RowFromStart | RowAll

  predicate InSpan(span: Span, x: nat, y: nat, r: nat, j: nat) {
    match span
    case ToEnd => r > y || (r == y && j >= x)
    case FromStart => r < y || (r == y && j < x)
    case All => true
    case RowToEnd => r == y && j >= x
    case RowFromStart => r == y && j < x
    case RowAll => r == y
  }

  function Erase(s: seq<Row>, span: Span, x: nat, y: nat): (t: seq<Row>)
    ensures |t| == |s| && forall r :: 0 <= r < |s| ==> |t[r]| == |s[r]|
    ensures forall r, j :: 0 <= r < |s| && 0 <= j < |s[r]| ==>
        t[r][j] == if InSpan(span, x, y, r, j) then ERASE else s[r][j]
  {
    seq(|s|, r requires 0 <= r < |s| => seq(|s[r]|, j requires 0 <= j < |s[r]| => if InSpan(span, x, y, r, j) then ERASE
        else s[r][j]))
  }

  // ---------- cursor movements ----------

  /** A cursor position is taken if it is on the screen, one past the last column included; otherwise ignored. */
  function Goto(t: Term, nx: nat, ny: nat): (r: Term)
    requires TermOk(t)
    ensures TermOk(r) && r.cols == t.cols && r.lines == t.lines
  {
    if nx > t.cols || ny >= t.lines then t else t.(x := nx, y := ny)
  }

  function LineFeed(t: Term): (r: Term)
    requires TermOk(t)
    ensures TermOk(r)
  {
    if t.y + 1 < t.bottom then t.(y := t.y + 1) else t.(screen := ScrollUp(t.screen, t.cols, t.top, t.bottom))
  }

  function ReverseLineFeed(t: Term): (r: Term)
    requires TermOk(t)
    ensures TermOk(r)
  {
    if t.y > t.top then t.(y := t.y - 1) else t.(screen := ScrollDown(t.screen, t.cols, t.top, t.bottom))
  }

  /** A cell written at the cursor, which is not past the last column. */
  function SetCell(t: Term, c: nat): (r: Term)
    requires TermOk(t) && t.x < t.cols
    ensures TermOk(r)
  {
    t.(screen := WithCell(t.screen, t.x, t.y, c))
  }

  /** A printable character: from past the last column it goes to the start of the next line first. */
  function Put(t: Term, c: nat): (r: Term)
    requires TermOk(t)
    ensures TermOk(r)
  {
    var u := if t.x >= t.cols then LineFeed(t.(x := t.x - t.cols)) else t;
    var v := SetCell(u, u.attr * 256 + c);
    v.(x := v.x + 1)
  }

  function Backspace(t: Term): (r: Term)
    requires TermOk(t)
    ensures TermOk(r)
  {
    if t.x > 0 then t.(x := t.x - 1) else t
  }

  function Rubout(t: Term): (r: Term)
    requires TermOk(t)
    ensures TermOk(r)
  {
    if t.x > 0 then SetCell(Backspace(t), ERASE) else t
  }

  /** The column a tab leads to, counting on past the last column. */
  function TabStop(x: nat): nat {
    x + (8 - x % 8)
  }

  function Tab(t: Term): (r: Term)
    requires TermOk(t)
    ensures TermOk(r)
  {
    if TabStop(t.x) > t.cols then LineFeed(t.(x := TabStop(t.x) - t.cols)) else t.(x := TabStop(t.x))
  }

  /** A tab keeps the cursor on the screen from every column if and only if there are at least four columns. */
  lemma TabsNeedFourColumns(cols: nat)
    ensures (forall x: nat :: x <= cols && TabStop(x) > cols ==> TabStop(x) - cols <= cols) <==> cols >= 4
  {
    if cols < 4 {
      assert TabStop(0) - cols > cols;
    }
  }

  // ---------- control sequences ----------

  /** Parameters are 32-bit words; the source's unsigned sums and differences wrap. */
  function Plus(a: nat, b: nat): nat { (a + b) % WORD }

  function Minus(a: nat, b: nat): nat { if a >= b then a - b else (a + WORD - b) % WORD }

  function AtLeastOne(t: Term): (r: Term)
    requires TermOk(t)
    ensures TermOk(r) && r.cols == t.cols && r.lines == t.lines
  {
    if t.par[0] == 0 then t.(par := t.par[0 := 1]) else t
  }

  function OneLess(t: Term, i: nat): (r: Term)
    requires TermOk(t) && i < NPAR
    ensures TermOk(r) && r.cols == t.cols && r.lines == t.lines
  {
    if t.par[i] > 0 then t.(par := t.par[i := t.par[i] - 1]) else t
  }

  /** A repetition count: nothing means one, and more than there is room for is cut. */
  function Count(n: nat, max: nat): nat {
    if n > max then max else if n == 0 then 1 else n
  }

  function Attribute(attr: nat, par: nat): nat {
    match par
    case 0 => 0x07
    case 1 => 0x0f
    case 4 => 0x0f
    case 7 => 0x70
    case 27 => 0x07
    case _ => attr
  }

  function Attributes(attr: nat, par: seq<nat>): nat {
    if par == [] then attr else Attribute(Attributes(attr, par[..|par| - 1]), par[|par| - 1])
  }

  function EraseDisplay(t: Term): (r: Term)
    requires TermOk(t)
    ensures TermOk(r) && r.cols == t.cols && r.lines == t.lines
  {
    match t.par[0]
    case 0 => t.(screen := Erase(t.screen, ToEnd, t.x, t.y))
    case 1 => t.(screen := Erase(t.screen, FromStart, t.x, t.y))
    case 2 => t.(screen := Erase(t.screen, All, t.x, t.y))
    case _ => t
  }

  function EraseLine(t: Term): (r: Term)
    requires TermOk(t)
    ensures TermOk(r) && r.cols == t.cols && r.lines == t.lines
  {
    match t.par[0]
    case 0 => t.(screen := Erase(t.screen, RowToEnd, t.x, t.y))
    case 1 => t.(screen := Erase(t.screen, RowFromStart, t.x, t.y))
    case 2 => t.(screen := Erase(t.screen, RowAll, t.x, t.y))
    case _ => t
  }

  function SetRegion(t: Term): (r: Term)
    requires TermOk(t)
    ensures TermOk(r) && r.cols == t.cols && r.lines == t.lines
  {
    var u := OneLess(t, 0);
    var v := if u.par[1] == 0 then u.(par := u.par[1 := u.lines]) else u;
    if v.par[0] < v.par[1] <= v.lines then v.(top := v.par[0], bottom := v.par[1]) else v
  }

  function SetRow(t: Term, row: Row): (r: Term)
    requires TermOk(t) && |row| == t.cols
    ensures TermOk(r) && r.cols == t.cols && r.lines == t.lines
  {
    t.(screen := t.screen[t.y := row])
  }

  /** The final character of a control sequence. */
  function Control(t: Term, c: int): (r: Term)
    requires TermOk(t)
    ensures TermOk(r)
  {
    if c == 'G' as int || c == '`' as int then var u := OneLess(t, 0); Goto(u, u.par[0], u.y)
    else if c == 'A' as int then var u := AtLeastOne(t); Goto(u, u.x, Minus(u.y, u.par[0]))
    else if c == 'B' as int || c == 'e' as int then var u := AtLeastOne(t); Goto(u, u.x, Plus(u.y, u.par[0]))
    else if c == 'C' as int || c == 'a' as int then var u := AtLeastOne(t); Goto(u, Plus(u.x, u.par[0]), u.y)
    else if c == 'D' as int then var u := AtLeastOne(t); Goto(u, Minus(u.x, u.par[0]), u.y)
    else if c == 'E' as int then var u := AtLeastOne(t); Goto(u, 0, Plus(u.y, u.par[0]))
    else if c == 'F' as int then var u := AtLeastOne(t); Goto(u, 0, Minus(u.y, u.par[0]))
    else if c == 'd' as int then var u := OneLess(t, 0); Goto(u, u.x, u.par[0])
    else if c == 'H' as int || c == 'f' as int then var u := OneLess(OneLess(t, 0), 1); Goto(u, u.par[1], u.par[0])
    else if c == 'J' as int then EraseDisplay(t)
    else if c == 'K' as int then EraseLine(t)
    else if c == 'L' as int then t.(screen := InsertLines(t.screen, t.cols, t.y, Count(t.par[0], t.lines)))
    else if c == 'M' as int then t.(screen := DeleteLines(t.screen, t.cols, t.y, Count(t.par[0], t.lines)))
    else if c == 'P' as int then SetRow(t, DeleteCells(t.screen[t.y], t.x, Count(t.par[0], t.cols)))
    else if c == '@' as int then SetRow(t, InsertCells(t.screen[t.y], t.x, Count(t.par[0], t.cols)))
    else if c == 'm' as int then t.(attr := Attributes(t.attr, t.par[..t.npar + 1]))
    else if c == 'r' as int then SetRegion(t)
    else if c == 's' as int then t.(savedX := t.x, savedY := t.y)
    else if c == 'u' as int then Goto(t, t.savedX, t.savedY)
    else t
  }

  /** A character inside the parameters of a control sequence. */
  function Parameter(t: Term, c: int): (r: Term)
    requires TermOk(t)
    ensures TermOk(r)
  {
    if c == ';' as int && t.npar < NPAR - 1 then t.(npar := t.npar + 1)
    else if '0' as int <= c <= '9' as int then
      t.(par := t.par[t.npar := (10 * t.par[t.npar] + (c - '0' as int)) % WORD])
    else Control(t.(mode := 0), c)
  }

  /** A character after ESC. Saving and restoring the cursor go by the cursor's column, 55 or 56, not by the character:
      the source compares x where the character was meant. */
  function Escape(t: Term, c: int): (r: Term)
    requires TermOk(t)
    ensures TermOk(r)
  {
    var u := t.(mode := 0);
    if c == '[' as int then u.(mode := 2)
    else if c == 'E' as int then Goto(u, 0, u.y + 1)
    else if c == 'M' as int then ReverseLineFeed(u)
    else if c == 'D' as int then LineFeed(u)
    else if c == 'Z' as int then u.(replies := u.replies + 1)
    else if u.x == '7' as int then u.(savedX := u.x, savedY := u.y)
    else if u.x == '8' as int then Goto(u, u.savedX, u.savedY)
    else u
  }

  /** A character in text. */
  function Text(t: Term, c: int, eraseChar: int): (r: Term)
    requires TermOk(t)
    ensures TermOk(r)
  {
    if 31 < c < 127 then Put(t, c)
    else if c == 27 then t.(mode := 1)
    else if c == 10 || c == 11 || c == 12 then LineFeed(t)
    else if c == 13 then t.(x := 0)
    else if c == eraseChar then Rubout(t)
    else if c == 8 then Backspace(t)
    else if c == 9 then Tab(t)
    else t
  }

  /** One character. */
  function Show(t: Term, c: int, eraseChar: int): (r: Term)
    requires TermOk(t)
    ensures TermOk(r)
  {
    match t.mode
    case 0 => Text(t, c, eraseChar)
    case 1 => Escape(t, c)
    case 2 =>
      var u := t.(par := seq(NPAR, i => 0), npar := 0, mode := 3, ques := c == '?' as int);
      if u.ques then u else Parameter(u, c)
    case _ => Parameter(t, c)
  }

  /** A stream of characters. */
  function ShowAll(t: Term, cs: seq<int>, eraseChar: int): (r: Term)
    requires TermOk(t)
    ensures TermOk(r)
  {
    if cs == [] then t else Show(ShowAll(t, cs[..|cs| - 1], eraseChar), cs[|cs| - 1], eraseChar)
  }

  /** It does not matter in which pieces a stream arrives. */
  lemma {:induction false} PiecesJoin(t: Term, a: seq<int>, b: seq<int>, eraseChar: int)
    requires TermOk(t)
    ensures ShowAll(t, a + b, eraseChar) == ShowAll(ShowAll(t, a, eraseChar), b, eraseChar)
  {
    hide Show;
    if b == [] {
      assert a + b == a;
    } else {
      var c := b[|b| - 1];
      assert (a + b)[..|a + b| - 1] == a + b[..|b| - 1];
      PiecesJoin(t, a, b[..|b| - 1], eraseChar);
    }
  }

  function Cells(attr: nat, cs: seq<int>): (r: Row)
    requires Printable(cs)
    ensures |r| == |cs|
  {
    seq(|cs|, i requires 0 <= i < |cs| => attr * 256 + cs[i])
  }

  predicate Printable(cs: seq<int>) {
    forall i :: 0 <= i < |cs| ==> 31 < cs[i] < 127
  }

  function TypedRow(row: Row, x: nat, attr: nat, cs: seq<int>): (r: Row)
    requires Printable(cs) && x + |cs| <= |row|
    ensures |r| == |row|
  {
    row[..x] + Cells(attr, cs) + row[x + |cs|..]
  }

  lemma OneTyped(t: Term, u: Term, cs: seq<int>, eraseChar: int)
    requires TermOk(t) && t.mode == 0 && cs != [] && Printable(cs) && t.x + |cs| <= t.cols
    requires u == SetRow(t, TypedRow(t.screen[t.y], t.x, t.attr, cs[..|cs| - 1])).(x := t.x + |cs| - 1)
    ensures Show(u, cs[|cs| - 1], eraseChar) == SetRow(t, TypedRow(t.screen[t.y], t.x, t.attr, cs)).(x := t.x + |cs|)
  {
    var row, n := t.screen[t.y], |cs| - 1;
    var before, after := TypedRow(row, t.x, t.attr, cs[..n]), TypedRow(row, t.x, t.attr, cs);
    assert after == before[t.x + n := t.attr * 256 + cs[n]];
  }

  /** A line of printable characters that fits is what the row shows from the cursor on; nothing else changes. */
  lemma {:induction false} Typed(t: Term, cs: seq<int>, eraseChar: int)
    requires TermOk(t) && t.mode == 0 && Printable(cs) && t.x + |cs| <= t.cols
    ensures ShowAll(t, cs, eraseChar) == SetRow(t, TypedRow(t.screen[t.y], t.x, t.attr, cs)).(x := t.x + |cs|)
  {
    hide Show;
    if cs == [] {
      assert TypedRow(t.screen[t.y], t.x, t.attr, cs) == t.screen[t.y];
    } else {
      Typed(t, cs[..|cs| - 1], eraseChar);
      OneTyped(t, ShowAll(t, cs[..|cs| - 1], eraseChar), cs, eraseChar);
    }
  }

  function Decimal(ds: seq<int>): nat
    requires forall i :: 0 <= i < |ds| ==> '0' as int <= ds[i] <= '9' as int
  {
    if ds == [] then 0 else 10 * Decimal(ds[..|ds| - 1]) + (ds[|ds| - 1] - '0' as int)
  }

  /** Digits in a parameter, which was zero, make it the number they write, modulo the word size. */
  lemma {:induction false} ParameterRead(t: Term, ds: seq<int>, eraseChar: int)
    requires TermOk(t) && t.mode == 3 && t.par[t.npar] == 0
    requires forall i :: 0 <= i < |ds| ==> '0' as int <= ds[i] <= '9' as int
    ensures ShowAll(t, ds, eraseChar) == t.(par := t.par[t.npar := Decimal(ds) % WORD])
  {
    hide Control, Text, Escape, Grid;
    if ds != [] {
      var n := |ds| - 1;
      ParameterRead(t, ds[..n], eraseChar);
      var d := ds[n] - '0' as int;
      DigitOn(Decimal(ds[..n]), d);
    }
  }

  lemma DigitOn(v: nat, d: nat)
    ensures (10 * (v % WORD) + d) % WORD == (10 * v + d) % WORD
  {
  }

  /** ESC [ row ; column H puts the cursor there, counting from one, if there is such a place, and changes nothing else
      of the screen. */
  lemma CursorAddressed(t: Term, row: seq<int>, col: seq<int>, eraseChar: int)
    requires TermOk(t) && t.mode == 0
    requires forall i :: 0 <= i < |row| ==> '0' as int <= row[i] <= '9' as int
    requires forall i :: 0 <= i < |col| ==> '0' as int <= col[i] <= '9' as int
    requires 1 <= Decimal(row) <= t.lines && 1 <= Decimal(col) <= t.cols + 1
    ensures var u := ShowAll(t, [27, '[' as int] + row + [';' as int] + col + ['H' as int], eraseChar);
            u.x == Decimal(col) - 1 && u.y == Decimal(row) - 1 && u.screen == t.screen && u.mode == 0
            && u.top == t.top && u.bottom == t.bottom && u.attr == t.attr
  {
    FivePieces(t, [27, '[' as int], row, [';' as int], col, ['H' as int], eraseChar);
    RowRead(t, row, eraseChar);
    hide ShowAll, Show, Grid, Decimal;
    var b := t.(par := seq(NPAR, i => 0)[0 := Decimal(row)], npar := 0, mode := 3, ques := false);
    ColumnRead(b, col, eraseChar);
    Addressed(b.(npar := 1, par := b.par[1 := Decimal(col)]), eraseChar);
  }

  lemma RowRead(t: Term, row: seq<int>, eraseChar: int)
    requires TermOk(t) && t.mode == 0 && row != []
    requires forall i :: 0 <= i < |row| ==> '0' as int <= row[i] <= '9' as int
    requires Decimal(row) < WORD
    ensures ShowAll(ShowAll(t, [27, '[' as int], eraseChar), row, eraseChar) ==
            t.(par := seq(NPAR, i => 0)[0 := Decimal(row)], npar := 0, mode := 3, ques := false)
  {
    hide ShowAll, Show, Grid, Decimal;
    var a := t.(mode := 2);
    Introduced(t, eraseChar);
    var z := a.(par := seq(NPAR, i => 0), npar := 0, mode := 3, ques := false);
    FirstParameter(a, z, row, eraseChar);
    ParameterRead(z, row, eraseChar);
  }

  lemma ColumnRead(t: Term, col: seq<int>, eraseChar: int)
    requires TermOk(t) && t.mode == 3 && t.npar == 0 && t.par[1] == 0
    requires forall i :: 0 <= i < |col| ==> '0' as int <= col[i] <= '9' as int
    requires Decimal(col) < WORD
    ensures ShowAll(ShowAll(t, [';' as int], eraseChar), col, eraseChar) ==
        t.(npar := 1, par := t.par[1 := Decimal(col)])
  {
    hide ShowAll, Show, Grid, Decimal;
    Separated(t, eraseChar);
    ParameterRead(t.(npar := 1), col, eraseChar);
  }

  lemma Introduced(t: Term, eraseChar: int)
    requires TermOk(t) && t.mode == 0
    ensures ShowAll(t, [27, '[' as int], eraseChar) == t.(mode := 2)
  {
    hide Grid;
    assert [27] + ['[' as int] == [27, '[' as int];
    PiecesJoin(t, [27], ['[' as int], eraseChar);
    Single(t, 27, eraseChar);
    Single(t.(mode := 1), '[' as int, eraseChar);
  }

  lemma Separated(t: Term, eraseChar: int)
    requires TermOk(t) && t.mode == 3 && t.npar == 0
    ensures ShowAll(t, [';' as int], eraseChar) == t.(npar := 1)
  {
  }

  lemma Addressed(t: Term, eraseChar: int)
    requires TermOk(t) && t.mode == 3 && 1 <= t.par[0] <= t.lines && 1 <= t.par[1] <= t.cols + 1
    ensures ShowAll(t, ['H' as int], eraseChar) ==
            t.(mode := 0, x := t.par[1] - 1, y := t.par[0] - 1, par := t.par[0 := t.par[0] - 1][1 := t.par[1] - 1])
  {
    Single(t, 'H' as int, eraseChar);
  }

  lemma FivePieces(t: Term, a: seq<int>, b: seq<int>, c: seq<int>, d: seq<int>, e: seq<int>, eraseChar: int)
    requires TermOk(t)
    ensures ShowAll(t, a + b + c + d + e, eraseChar) ==
            ShowAll(ShowAll(ShowAll(ShowAll(ShowAll(t, a, eraseChar), b, eraseChar), c, eraseChar), d, eraseChar), e,
                eraseChar)
  {
    hide ShowAll;
    PiecesJoin(t, a, b, eraseChar);
    PiecesJoin(t, a + b, c, eraseChar);
    PiecesJoin(t, a + b + c, d, eraseChar);
    PiecesJoin(t, a + b + c + d, e, eraseChar);
  }

  lemma Single(t: Term, c: int, eraseChar: int)
    requires TermOk(t)
    ensures ShowAll(t, [c], eraseChar) == Show(t, c, eraseChar)
  {
  }

  /** The first character after ESC [ clears the parameters and is then read as any other. */
  lemma FirstParameter(a: Term, z: Term, ds: seq<int>, eraseChar: int)
    requires TermOk(a) && a.mode == 2 && ds != [] && ds[0] != '?' as int
    requires z == a.(par := seq(NPAR, i => 0), npar := 0, mode := 3, ques := false)
    ensures TermOk(z) && ShowAll(a, ds, eraseChar) == ShowAll(z, ds, eraseChar)
  {
  }

  /** The distance of a relative cursor movement: nothing means one. */
  function Distance(t: Term): nat
    requires TermOk(t)
  {
    if t.par[0] == 0 then 1 else t.par[0]
  }

  /** Where a cursor coordinate ends up: a target outside the limit is ignored. */
  function Land(target: nat, limit: nat, from: nat): nat {
    if target < limit then target else from
  }

  lemma RelativeMoves(t: Term)
    requires TermOk(t)
    ensures var up, down := Control(t, 'A' as int), Control(t, 'B' as int);
            && up.x == t.x == down.x
            && up.y == Land(Minus(t.y, Distance(t)), t.lines, t.y)
                && down.y == Land(Plus(t.y, Distance(t)), t.lines, t.y)
    ensures var right, left := Control(t, 'C' as int), Control(t, 'D' as int);
            && right.y == t.y == left.y
            && right.x == Land(Plus(t.x, Distance(t)), t.cols + 1, t.x)
                && left.x == Land(Minus(t.x, Distance(t)), t.cols + 1, t.x)
  {
    hide Plus, Minus;
  }

  /** A target computed with 32-bit words is the one meant exactly as long as the sum or difference does not wrap back
      onto the screen. */
  lemma WrapsBack(a: nat, n: nat, limit: nat)
    requires a < limit <= 0x1_0000 && 0 < n < WORD
    ensures Land(Minus(a, n), limit, a) == (if n <= a then a - n else a) <==> n <= a || WORD + a - n >= limit
    ensures Land(Plus(a, n), limit, a) == (if a + n < limit then a + n else a) <==> a + n < WORD
  {
  }

  /** A movement goes the whole distance if that stays on the screen and otherwise nowhere, exactly as long as the
      32-bit arithmetic does not wrap back onto the screen. */
  lemma VerticalMoves(t: Term)
    requires TermOk(t)
    ensures var n, up, down := Distance(t), Control(t, 'A' as int), Control(t, 'B' as int);
            && up.x == t.x == down.x
            && (up.y == (if n <= t.y then t.y - n else t.y) <==> n <= t.y || WORD + t.y - n >= t.lines)
            && (down.y == (if t.y + n < t.lines then t.y + n else t.y) <==> t.y + n < WORD)
  {
    WrapsBack(t.y, Distance(t), t.lines);
    hide *;
    RelativeMoves(t);
  }

  lemma HorizontalMoves(t: Term)
    requires TermOk(t)
    ensures var n, left, right := Distance(t), Control(t, 'D' as int), Control(t, 'C' as int);
            && left.y == t.y == right.y
            && (left.x == (if n <= t.x then t.x - n else t.x) <==> n <= t.x || WORD + t.x - n > t.cols)
            && (right.x == (if t.x + n <= t.cols then t.x + n else t.x) <==> t.x + n < WORD)
  {
    WrapsBack(t.x, Distance(t), t.cols + 1);
    hide *;
    RelativeMoves(t);
  }

  lemma ControlSize(t: Term, c: int)
    requires TermOk(t)
    ensures Control(t, c).cols == t.cols && Control(t, c).lines == t.lines
  {
    hide TermOk, Attributes, InsertLines, DeleteLines, InsertCells, DeleteCells, Count, Plus, Minus, Goto, AtLeastOne,
        OneLess, EraseDisplay, EraseLine, SetRegion, SetRow;
  }

  lemma ParameterSize(t: Term, c: int)
    requires TermOk(t)
    ensures Parameter(t, c).cols == t.cols && Parameter(t, c).lines == t.lines
  {
    hide Control, Grid;
    ControlSize(t.(mode := 0), c);
  }

  lemma TextSize(t: Term, c: int, eraseChar: int)
    requires TermOk(t)
    ensures Text(t, c, eraseChar).cols == t.cols && Text(t, c, eraseChar).lines == t.lines
  {
    hide Grid, Words, ScrollUp, ScrollDown, WithCell;
  }

  /** No character changes the size of the screen. */
  lemma SizeStays(t: Term, c: int, eraseChar: int)
    requires TermOk(t)
    ensures Show(t, c, eraseChar).cols == t.cols && Show(t, c, eraseChar).lines == t.lines
  {
    hide Text, Parameter, ScrollUp, ScrollDown, Grid;
    TextSize(t, c, eraseChar);
    if t.mode == 2 {
      var u := t.(par := seq(NPAR, i => 0), npar := 0, mode := 3, ques := c == '?' as int);
      ParameterSize(u, c);
    }
    if t.mode == 3 {
      ParameterSize(t, c);
    }
  }

  lemma {:induction false} SizeStaysAll(t: Term, cs: seq<int>, eraseChar: int)
    requires TermOk(t)
    ensures ShowAll(t, cs, eraseChar).cols == t.cols && ShowAll(t, cs, eraseChar).lines == t.lines
  {
    hide Show, Grid;
    if cs != [] {
      SizeStaysAll(t, cs[..|cs| - 1], eraseChar);
      SizeStays(ShowAll(t, cs[..|cs| - 1], eraseChar), cs[|cs| - 1], eraseChar);
    }
  }

  /** ESC and 7 or 8 go by the cursor's column, whichever of the two it was. */
  lemma EscapeDigit(t: Term, c: int, eraseChar: int)
    requires TermOk(t) && t.mode == 0 && (c == '7' as int || c == '8' as int)
    ensures ShowAll(t, [27, c], eraseChar)
         == (if t.x == 55 then t.(savedX := t.x, savedY := t.y)
             else if t.x == 56 then Goto(t, t.savedX, t.savedY)
             else t)
  {
    hide Grid;
    assert [27] + [c] == [27, c];
    PiecesJoin(t, [27], [c], eraseChar);
    Single(t, 27, eraseChar);
    Single(t.(mode := 1), c, eraseChar);
  }

  lemma ThreePieces(t: Term, a: seq<int>, b: seq<int>, c: seq<int>, eraseChar: int)
    requires TermOk(t)
    ensures ShowAll(t, a + b + c, eraseChar) == ShowAll(ShowAll(ShowAll(t, a, eraseChar), b, eraseChar), c, eraseChar)
  {
    hide ShowAll;
    PiecesJoin(t, a, b, eraseChar);
    PiecesJoin(t, a + b, c, eraseChar);
  }

  /** ESC 7 is meant to save the cursor and ESC 8 to bring it back there. Whatever text m moves the cursor away in
      between and saves nothing itself, the cursor comes back if and only if it stands in column 56 when it is to come
      back and stood in column 55 when it was to be saved, or had been saved where it stood. */
  lemma SaveRestoresIff(t: Term, m: seq<int>, eraseChar: int)
    requires TermOk(t) && t.mode == 0
    requires var u := ShowAll(t, [27, '7' as int], eraseChar);
             var w := ShowAll(u, m, eraseChar);
             w.mode == 0 && (w.savedX, w.savedY) == (u.savedX, u.savedY) && (w.x, w.y) != (t.x, t.y)
    ensures var w := ShowAll(ShowAll(t, [27, '7' as int], eraseChar), m, eraseChar);
            var z := ShowAll(t, [27, '7' as int] + m + [27, '8' as int], eraseChar);
            (z.x, z.y) == (t.x, t.y) <==> w.x == 56 && (t.x == 55 || (t.savedX, t.savedY) == (t.x, t.y))
  {
    hide Grid, ShowAll, Words;
    var u := ShowAll(t, [27, '7' as int], eraseChar);
    var w := ShowAll(u, m, eraseChar);
    ThreePieces(t, [27, '7' as int], m, [27, '8' as int], eraseChar);
    EscapeDigit(t, '7' as int, eraseChar);
    EscapeDigit(w, '8' as int, eraseChar);
    SizeStaysAll(u, m, eraseChar);
  }

  /** So it fails from almost everywhere: a line feed between the two leaves the cursor one line down. */
  lemma SaveFails(t: Term, eraseChar: int)
    requires TermOk(t) && t.mode == 0 && t.x != 55 && t.x != 56 && t.y + 1 < t.bottom
    ensures ShowAll(t, [27, '7' as int, 10, 27, '8' as int], eraseChar) == t.(y := t.y + 1)
  {
    hide Grid, ShowAll, Words;
    assert [27, '7' as int] + [10] + [27, '8' as int] == [27, '7' as int, 10, 27, '8' as int];
    ThreePieces(t, [27, '7' as int], [10], [27, '8' as int], eraseChar);
    EscapeDigit(t, '7' as int, eraseChar);
    Single(t, 10, eraseChar);
    EscapeDigit(t.(y := t.y + 1), '8' as int, eraseChar);
  }
}
