/** What each control sequence and control character does to the screen, cell by cell and in plain numbers, for streams
    as they arrive: ESC [ p ; ... ; p and a final character (drivers/char/tty/console.c:549-640). The functions the
    terminal is made of are not used to say it. */
module ControlStreams {
  import opened Terminal

  predicate Digits(ds: seq<int>) {
    forall i :: 0 <= i < |ds| ==> '0' as int <= ds[i] <= '9' as int
  }

  /** Up to sixteen parameters, any of them possibly empty. */
  predicate Parameters(ps: seq<seq<int>>) {
    1 <= |ps| <= 16 && forall i :: 0 <= i < |ps| ==> Digits(ps[i])
  }

  /** Parameters with semicolons between them. */
  function Joined(ps: seq<seq<int>>): seq<int>
    requires ps != []
  {
    if |ps| == 1 then ps[0] else Joined(ps[..|ps| - 1]) + [';' as int] + ps[|ps| - 1]
  }

  function Sequence(ps: seq<seq<int>>, c: char): seq<int>
    requires ps != []
  {
    [27, '[' as int] + Joined(ps) + [c as int]
  }

  /** Parameter i as a 32-bit word; one that is missing or empty is 0. */
  function Value(ps: seq<seq<int>>, i: nat): nat
    requires Parameters(ps)
  {
    if i < |ps| then Decimal(ps[i]) % 0x1_0000_0000 else 0
  }

  /** A count: nothing means one. */
  function AtLeast1(n: nat): nat { if n == 0 then 1 else n }

  /** A position counted from one: nothing means the first. */
  function FromOne(n: nat): nat { if n == 0 then 0 else n - 1 }

  // ---------- reading the parameters ----------

  function Values(ps: seq<seq<int>>): (r: seq<nat>)
    requires Parameters(ps)
    ensures |r| == 16 && Words(r)
  {
    seq(16, i requires 0 <= i => Value(ps, i))
  }

  /** The terminal when the parameters are read. */
  function Read(t: Term, ps: seq<seq<int>>): (r: Term)
    requires TermOk(t) && Parameters(ps)
    ensures TermOk(r)
  {
    t.(par := Values(ps), npar := |ps| - 1, mode := 3, ques := false)
  }

  lemma {:induction false} JoinedRead(z: Term, ps: seq<seq<int>>, eraseChar: int)
    requires TermOk(z) && z.mode == 3 && z.npar == 0 && !z.ques && Parameters(ps)
    requires z.par == seq(16, i => 0)
    ensures ShowAll(z, Joined(ps), eraseChar) == Read(z, ps)
  {
    hide ShowAll, Show, Grid, Decimal;
    var n := |ps| - 1;
    if n == 0 {
      ParameterRead(z, ps[0], eraseChar);
      assert Values(ps) == z.par[0 := Decimal(ps[0]) % WORD];
    } else {
      JoinedRead(z, ps[..n], eraseChar);
      var a := Read(z, ps[..n]);
      var b := a.(npar := n);
      PiecesJoin(z, Joined(ps[..n]), [';' as int], eraseChar);
      NextParameter(a, eraseChar);
      PiecesJoin(z, Joined(ps[..n]) + [';' as int], ps[n], eraseChar);
      ParameterRead(b, ps[n], eraseChar);
      assert Values(ps) == b.par[n := Decimal(ps[n]) % WORD];
    }
  }

  lemma NextParameter(t: Term, eraseChar: int)
    requires TermOk(t) && t.mode == 3 && t.npar < NPAR - 1
    ensures ShowAll(t, [';' as int], eraseChar) == t.(npar := t.npar + 1)
  {
    Single(t, ';' as int, eraseChar);
  }

  predicate Final(c: char) {
    !('0' <= c <= '9') && c != ';' && c != '?'
  }

  /** The sequence does what its final character does with the parameters it names. */
  lemma SequenceRead(t: Term, ps: seq<seq<int>>, c: char, eraseChar: int)
    requires TermOk(t) && t.mode == 0 && Parameters(ps) && Final(c)
    ensures ShowAll(t, Sequence(ps, c), eraseChar) == Control(Read(t, ps).(mode := 0), c as int)
  {
    hide ShowAll, Show, Grid, Control, Joined;
    var a := t.(mode := 2);
    var z := a.(par := seq(NPAR, i => 0), npar := 0, mode := 3, ques := false);
    var rest := Joined(ps) + [c as int];
    assert Sequence(ps, c) == [27, '[' as int] + rest;
    PiecesJoin(t, [27, '[' as int], rest, eraseChar);
    Introduced(t, eraseChar);
    NotAQuestion(ps, c);
    FirstParameter(a, z, rest, eraseChar);
    JoinedRead(z, ps, eraseChar);
    PiecesJoin(z, Joined(ps), [c as int], eraseChar);
    assert Read(z, ps) == Read(t, ps);
    FinalShown(Read(t, ps), c, eraseChar);
  }

  lemma FinalShown(t: Term, c: char, eraseChar: int)
    requires TermOk(t) && t.mode == 3 && Final(c)
    ensures ShowAll(t, [c as int], eraseChar) == Control(t.(mode := 0), c as int)
  {
    hide Control;
    Single(t, c as int, eraseChar);
  }

  lemma {:induction false} NotAQuestion(ps: seq<seq<int>>, c: char)
    requires Parameters(ps) && c != '?'
    ensures (Joined(ps) + [c as int])[0] != '?' as int
  {
    if |ps| > 1 {
      NotAQuestion(ps[..|ps| - 1], ';');
      var before := Joined(ps[..|ps| - 1]);
      assert (Joined(ps) + [c as int])[0] == (before + [';' as int])[0];
    }
  }

  // ---------- what the final characters do ----------

  /** The stream can be read. */
  ghost predicate Ready(t: Term, ps: seq<seq<int>>) {
    TermOk(t) && t.mode == 0 && Parameters(ps)
  }

  predicate SameCursor(t: Term, u: Term) {
    u.x == t.x && u.y == t.y
  }

  /** Everything but screen and cursor is as it was, and the parser is back in text. */
  predicate SameSettings(t: Term, u: Term) {
    && u.cols == t.cols && u.lines == t.lines && u.top == t.top && u.bottom == t.bottom && u.attr == t.attr
    && u.savedX == t.savedX && u.savedY == t.savedY && u.replies == t.replies && u.mode == 0
  }

  /** ESC [ J blanks the cells from the cursor on, ESC [ 1 J those before it, ESC [ 2 J all of them. */
  lemma DisplayErased(t: Term, ps: seq<seq<int>>, eraseChar: int)
    requires Ready(t, ps)
    ensures var n, u := Value(ps, 0), ShowAll(t, Sequence(ps, 'J'), eraseChar);
            && SameCursor(t, u) && SameSettings(t, u)
            && (forall r, j :: 0 <= r < t.lines && 0 <= j < t.cols ==>
                  u.screen[r][j] ==
                    if (n == 0 && (r > t.y || (r == t.y && j >= t.x))) || (n == 1 && (r < t.y || (r == t.y && j < t.x)))
                       || n == 2
                    then 0x0720 else t.screen[r][j])
  {
    hide ShowAll, Show, Sequence;
    SequenceRead(t, ps, 'J', eraseChar);
  }

  /** K does the same within the cursor's row. */
  lemma LineErased(t: Term, ps: seq<seq<int>>, eraseChar: int)
    requires Ready(t, ps)
    ensures var n, u := Value(ps, 0), ShowAll(t, Sequence(ps, 'K'), eraseChar);
            && SameCursor(t, u) && SameSettings(t, u)
            && (forall r, j :: 0 <= r < t.lines && 0 <= j < t.cols ==>
                  u.screen[r][j] ==
                    if r == t.y && ((n == 0 && j >= t.x) || (n == 1 && j < t.x) || n == 2)
                    then 0x0720 else t.screen[r][j])
  {
    hide ShowAll, Show, Sequence;
    SequenceRead(t, ps, 'K', eraseChar);
  }

  /** The cursor goes to column nx of row ny if that is on the screen, one past the last column included. */
  predicate Moved(t: Term, u: Term, nx: nat, ny: nat) {
    && u.screen == t.screen && SameSettings(t, u)
    && (u.x, u.y) == if nx <= t.cols && ny < t.lines then (nx, ny) else (t.x, t.y)
  }

  /** G and ` go to a column, d to a row, H and f to both. */
  lemma PlaceNamed(t: Term, ps: seq<seq<int>>, c: char, eraseChar: int)
    requires Ready(t, ps) && c in {'G', '`', 'd', 'H', 'f'}
    ensures var p, q, u := FromOne(Value(ps, 0)), FromOne(Value(ps, 1)), ShowAll(t, Sequence(ps, c), eraseChar);
            if c == 'G' || c == '`' then Moved(t, u, p, t.y)
            else if c == 'd' then Moved(t, u, t.x, p)
            else Moved(t, u, q, p)
  {
    hide ShowAll, Show, Sequence;
    SequenceRead(t, ps, c, eraseChar);
  }

  /** A, B, C, D and their aliases move the cursor up, down, right and left; E and F go to the start of a later or an
      earlier line. Sums and differences are those of 32-bit words. */
  lemma DistanceMoved(t: Term, ps: seq<seq<int>>, c: char, eraseChar: int)
    requires Ready(t, ps) && c in {'A', 'B', 'e', 'C', 'a', 'D', 'E', 'F'}
    ensures var n, u := AtLeast1(Value(ps, 0)), ShowAll(t, Sequence(ps, c), eraseChar);
            if c == 'A' then Moved(t, u, t.x, (t.y - n) % 0x1_0000_0000)
            else if c == 'B' || c == 'e' then Moved(t, u, t.x, (t.y + n) % 0x1_0000_0000)
            else if c == 'C' || c == 'a' then Moved(t, u, (t.x + n) % 0x1_0000_0000, t.y)
            else if c == 'D' then Moved(t, u, (t.x - n) % 0x1_0000_0000, t.y)
            else if c == 'E' then Moved(t, u, 0, (t.y + n) % 0x1_0000_0000)
            else Moved(t, u, 0, (t.y - n) % 0x1_0000_0000)
  {
    hide ShowAll, Show, Sequence, Plus, Minus, Grid;
    SequenceRead(t, ps, c, eraseChar);
    var n := AtLeast1(Value(ps, 0));
    WordArithmetic(t.x, n);
    WordArithmetic(t.y, n);
  }

  lemma WordArithmetic(a: nat, n: nat)
    requires a < 0x1_0000_0000 && n < 0x1_0000_0000
    ensures Plus(a, n) == (a + n) % 0x1_0000_0000 && Minus(a, n) == (a - n) % 0x1_0000_0000
  {
  }

  predicate BlankRow(row: Row) {
    forall j :: 0 <= j < |row| ==> row[j] == 0x0720
  }

  /** L opens blank lines at the cursor's row; the rows from there on move down and off the screen. */
  lemma LinesOpened(t: Term, ps: seq<seq<int>>, eraseChar: int)
    requires Ready(t, ps)
    ensures var n, u := AtLeast1(Value(ps, 0)), ShowAll(t, Sequence(ps, 'L'), eraseChar);
            && SameCursor(t, u) && SameSettings(t, u)
            && (forall r :: 0 <= r < t.y ==> u.screen[r] == t.screen[r])
            && (forall r :: t.y <= r < t.lines && r < t.y + n ==> BlankRow(u.screen[r]))
            && (forall r :: t.y + n <= r < t.lines ==> u.screen[r] == t.screen[r - n])
  {
    hide ShowAll, Show, Sequence;
    SequenceRead(t, ps, 'L', eraseChar);
  }

  /** M takes lines away at the cursor's row; the rows below move up and blank ones come in at the end. */
  lemma LinesClosed(t: Term, ps: seq<seq<int>>, eraseChar: int)
    requires Ready(t, ps)
    ensures var n, u := AtLeast1(Value(ps, 0)), ShowAll(t, Sequence(ps, 'M'), eraseChar);
            && SameCursor(t, u) && SameSettings(t, u)
            && (forall r :: 0 <= r < t.y ==> u.screen[r] == t.screen[r])
            && (forall r :: t.y <= r && r + n < t.lines ==> u.screen[r] == t.screen[r + n])
            && (forall r :: t.y <= r < t.lines && r + n >= t.lines ==> BlankRow(u.screen[r]))
  {
    hide ShowAll, Show, Sequence;
    SequenceRead(t, ps, 'M', eraseChar);
  }

  /** @ opens blank cells at the cursor within its row. */
  lemma CellsOpened(t: Term, ps: seq<seq<int>>, eraseChar: int)
    requires Ready(t, ps)
    ensures var n, u := AtLeast1(Value(ps, 0)), ShowAll(t, Sequence(ps, '@'), eraseChar);
            && SameCursor(t, u) && SameSettings(t, u)
            && (forall r, j :: 0 <= r < t.lines && 0 <= j < t.cols ==>
                  u.screen[r][j] ==
                    if r != t.y || j < t.x then t.screen[r][j] else if j < t.x + n then 0x0720 else t.screen[r][j - n])
  {
    hide ShowAll, Show, Sequence;
    SequenceRead(t, ps, '@', eraseChar);
  }

  /** P takes cells away at the cursor; the rest of the row moves left and blanks come in at its end. */
  lemma CellsClosed(t: Term, ps: seq<seq<int>>, eraseChar: int)
    requires Ready(t, ps)
    ensures var n, u := AtLeast1(Value(ps, 0)), ShowAll(t, Sequence(ps, 'P'), eraseChar);
            && SameCursor(t, u) && SameSettings(t, u)
            && (forall r, j :: 0 <= r < t.lines && 0 <= j < t.cols ==>
                  u.screen[r][j] ==
                    if r != t.y || j < t.x then t.screen[r][j] else if j + n < t.cols then t.screen[r][j + n]
                    else 0x0720)
  {
    hide ShowAll, Show, Sequence;
    SequenceRead(t, ps, 'P', eraseChar);
  }

  /** r sets the scroll region if it names one; nothing else changes, not even the cursor. */
  lemma RegionSet(t: Term, ps: seq<seq<int>>, eraseChar: int)
    requires Ready(t, ps)
    ensures var n, u := Value(ps, 1), ShowAll(t, Sequence(ps, 'r'), eraseChar);
            var a, b := FromOne(Value(ps, 0)), if n == 0 then t.lines else n;
            && u.screen == t.screen && SameCursor(t, u)
            && (u.top, u.bottom) == (if a < b <= t.lines then (a, b) else (t.top, t.bottom))
            && SameSettings(t, u.(top := t.top, bottom := t.bottom))
  {
    hide ShowAll, Show, Sequence;
    SequenceRead(t, ps, 'r', eraseChar);
  }

  /** s keeps the cursor's place, u goes back to the place kept, if it is on the screen. */
  lemma CursorKept(t: Term, ps: seq<seq<int>>, eraseChar: int)
    requires Ready(t, ps)
    ensures var s, u := ShowAll(t, Sequence(ps, 's'), eraseChar), ShowAll(t, Sequence(ps, 'u'), eraseChar);
            && s.screen == t.screen && SameCursor(t, s) && s.savedX == t.x && s.savedY == t.y
            && SameSettings(t, s.(savedX := t.savedX, savedY := t.savedY))
            && Moved(t, u, t.savedX, t.savedY)
  {
    hide ShowAll, Show, Sequence;
    SequenceRead(t, ps, 's', eraseChar);
    SequenceRead(t, ps, 'u', eraseChar);
  }

  /** Whatever m does to screen and cursor in between, as long as it saves nothing itself and is complete, ESC [ s and
      ESC [ u bring the cursor back. */
  lemma KeptComesBack(t: Term, m: seq<int>, eraseChar: int)
    requires TermOk(t) && t.mode == 0
    requires var s := ShowAll(t, [27, '[' as int, 's' as int], eraseChar);
             var w := ShowAll(s, m, eraseChar);
             w.mode == 0 && w.savedX == s.savedX && w.savedY == s.savedY
    ensures SameCursor(t, ShowAll(t, [27, '[' as int, 's' as int] + m + [27, '[' as int, 'u' as int], eraseChar))
  {
    hide ShowAll, Show, Grid, Words;
    var none: seq<seq<int>> := [[]];
    var save, back := [27, '[' as int, 's' as int], [27, '[' as int, 'u' as int];
    assert Sequence(none, 's') == save && Sequence(none, 'u') == back;
    var s := ShowAll(t, save, eraseChar);
    var w := ShowAll(s, m, eraseChar);
    ThreePieces(t, save, m, back, eraseChar);
    CursorKept(t, none, eraseChar);
    CursorKept(w, none, eraseChar);
    SizeStaysAll(s, m, eraseChar);
  }

  /** The attribute a parameter of m selects. */
  predicate Selects(n: nat, attr: nat) {
    || ((n == 0 || n == 27) && attr == 0x07)
    || ((n == 1 || n == 4) && attr == 0x0f)
    || (n == 7 && attr == 0x70)
  }

  /** m selects the attribute of the last of its parameters that means something, and leaves it if none does. */
  lemma AttributeSelected(t: Term, ps: seq<seq<int>>, i: nat, eraseChar: int)
    requires Ready(t, ps) && i <= |ps|
    requires forall k :: i <= k < |ps| ==> Value(ps, k) !in {0, 1, 4, 7, 27}
    requires i > 0 ==> Value(ps, i - 1) in {0, 1, 4, 7, 27}
    ensures var u := ShowAll(t, Sequence(ps, 'm'), eraseChar);
            && u.screen == t.screen && SameCursor(t, u) && SameSettings(t, u.(attr := t.attr))
            && if i == 0 then u.attr == t.attr else Selects(Value(ps, i - 1), u.attr)
  {
    hide ShowAll, Show, Sequence;
    SequenceRead(t, ps, 'm', eraseChar);
    assert Values(ps)[..|ps|] == seq(|ps|, k requires 0 <= k => Value(ps, k));
    LastSelects(t.attr, Values(ps)[..|ps|], i);
  }

  lemma {:induction false} LastSelects(attr: nat, ns: seq<nat>, i: nat)
    requires i <= |ns| && forall k :: i <= k < |ns| ==> ns[k] !in {0, 1, 4, 7, 27}
    requires i > 0 ==> ns[i - 1] in {0, 1, 4, 7, 27}
    ensures if i == 0 then Attributes(attr, ns) == attr else Selects(ns[i - 1], Attributes(attr, ns))
  {
    if i < |ns| {
      LastSelects(attr, ns[..|ns| - 1], i);
    }
  }

  /** Any other final character does nothing. */
  lemma OthersIgnored(t: Term, ps: seq<seq<int>>, c: char, eraseChar: int)
    requires Ready(t, ps) && Final(c)
    requires c !in {'A', 'B', 'C', 'D', 'E', 'F', 'G', 'H', 'J', 'K', 'L', 'M', 'P', '@', '`', 'a', 'd', 'e', 'f', 'm',
                    'r', 's', 'u'}
    ensures var u := ShowAll(t, Sequence(ps, c), eraseChar);
            u.screen == t.screen && SameCursor(t, u) && SameSettings(t, u)
  {
    hide ShowAll, Show, Sequence;
    SequenceRead(t, ps, c, eraseChar);
  }

  // ---------- what control characters do ----------

  /** Line feed and its two aliases: one row down, or the region moves up and a blank row comes in at its end. */
  lemma LineFed(t: Term, c: int, eraseChar: int)
    requires TermOk(t) && t.mode == 0 && c in {10, 11, 12}
    ensures var u := ShowAll(t, [c], eraseChar);
            && SameSettings(t, u) && u.x == t.x
            && (t.y + 1 < t.bottom ==> u.y == t.y + 1 && u.screen == t.screen)
            && (t.y + 1 >= t.bottom ==>
                  && u.y == t.y && BlankRow(u.screen[t.bottom - 1])
                  && (forall r :: t.top <= r < t.bottom - 1 ==> u.screen[r] == t.screen[r + 1])
                  && (forall r :: 0 <= r < t.top || t.bottom <= r < t.lines ==> u.screen[r] == t.screen[r]))
  {
    Single(t, c, eraseChar);
  }

  /** ESC M: one row up, or the region moves down and a blank row comes in at its start. ESC D is a line feed. */
  lemma LineFedBack(t: Term, eraseChar: int)
    requires TermOk(t) && t.mode == 0
    ensures var u := ShowAll(t, [27, 'M' as int], eraseChar);
            && SameSettings(t, u) && u.x == t.x
            && (t.y > t.top ==> u.y == t.y - 1 && u.screen == t.screen)
            && (t.y <= t.top ==>
                  && u.y == t.y && BlankRow(u.screen[t.top])
                  && (forall r :: t.top < r < t.bottom ==> u.screen[r] == t.screen[r - 1])
                  && (forall r :: 0 <= r < t.top || t.bottom <= r < t.lines ==> u.screen[r] == t.screen[r]))
    ensures ShowAll(t, [27, 'D' as int], eraseChar) == ShowAll(t, [10], eraseChar)
  {
    EscapeShown(t, 'M' as int, eraseChar);
    EscapeShown(t, 'D' as int, eraseChar);
    Single(t, 10, eraseChar);
    hide ShowAll, Show;
  }

  lemma EscapeShown(t: Term, c: int, eraseChar: int)
    requires TermOk(t) && t.mode == 0
    ensures ShowAll(t, [27, c], eraseChar) == Escape(t.(mode := 1), c)
  {
    hide Escape, Grid;
    assert [27] + [c] == [27, c];
    PiecesJoin(t, [27], [c], eraseChar);
    Single(t, 27, eraseChar);
    Single(t.(mode := 1), c, eraseChar);
  }

  /** ESC E goes to the start of the next line if there is one on the screen; ESC Z asks for one reply more. */
  lemma EscapesShown(t: Term, eraseChar: int)
    requires TermOk(t) && t.mode == 0
    ensures Moved(t, ShowAll(t, [27, 'E' as int], eraseChar), 0, t.y + 1)
    ensures ShowAll(t, [27, 'Z' as int], eraseChar) == t.(replies := t.replies + 1)
  {
    EscapeShown(t, 'E' as int, eraseChar);
    EscapeShown(t, 'Z' as int, eraseChar);
    hide ShowAll, Show;
  }

  /** Carriage return, backspace, tab, and the other control characters. */
  lemma CursorControls(t: Term, c: int, eraseChar: int)
    requires TermOk(t) && t.mode == 0 && c < 32 && c !in {10, 11, 12, 27, eraseChar}
    ensures var u := ShowAll(t, [c], eraseChar);
            && (c != 9 || t.x / 8 * 8 + 8 <= t.cols ==>
                  && SameSettings(t, u) && u.screen == t.screen && u.y == t.y
                  && u.x == if c == 13 then 0
                            else if c == 8 then (if t.x == 0 then 0 else t.x - 1)
                            else if c == 9 then t.x / 8 * 8 + 8
                            else t.x)
            && (c == 9 && t.x / 8 * 8 + 8 > t.cols ==>
                  t.x / 8 * 8 + 8 - t.cols <= t.cols
                  && u == ShowAll(t.(x := t.x / 8 * 8 + 8 - t.cols), [10], eraseChar))
  {
    Single(t, c, eraseChar);
    TabStops(t.x);
    if c == 9 && t.x / 8 * 8 + 8 > t.cols {
      Single(t.(x := t.x / 8 * 8 + 8 - t.cols), 10, eraseChar);
    }
  }

  lemma TabStops(x: nat)
    ensures TabStop(x) == x / 8 * 8 + 8
  {
  }

  /** The erase character takes away the cell before the cursor, if there is one in the row. */
  lemma CellRubbedOut(t: Term, eraseChar: int)
    requires TermOk(t) && t.mode == 0 && !(31 < eraseChar < 127) && eraseChar !in {10, 11, 12, 13, 27}
    ensures var u := ShowAll(t, [eraseChar], eraseChar);
            && SameSettings(t, u) && u.y == t.y && u.x == (if t.x == 0 then 0 else t.x - 1)
            && (forall r, j :: 0 <= r < t.lines && 0 <= j < t.cols ==>
                  u.screen[r][j] == if r == t.y && j + 1 == t.x then 0x0720 else t.screen[r][j])
  {
    Single(t, eraseChar, eraseChar);
  }

  /** A printable character that finds the cursor past the last column goes to the start of the next line. */
  lemma CharacterWraps(t: Term, c: int, eraseChar: int)
    requires TermOk(t) && t.mode == 0 && 31 < c < 127 && t.x == t.cols
    ensures ShowAll(t, [c], eraseChar) == ShowAll(t, [13, 10, c], eraseChar)
  {
    hide Grid, ShowAll, Words, ScrollUp, ScrollDown, WithCell;
    assert [13] + [10] + [c] == [13, 10, c];
    ThreePieces(t, [13], [10], [c], eraseChar);
    Single(t, 13, eraseChar);
    Single(t.(x := 0), 10, eraseChar);
    Single(Show(t.(x := 0), 10, eraseChar), c, eraseChar);
    Single(t, c, eraseChar);
  }
}
