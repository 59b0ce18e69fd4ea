/** Line editing seen on the screen: what erasing and killing send takes away what the echo had put there. */
module EchoOnScreen {
  import opened Terminal
  import LineEditor
  import OutputText

  /** A character whose echo is made of printable characters. */
  predicate Shown(c: int) {
    0 <= c < 127 && c != 10
  }

  function Echoes(t: LineEditor.Termios, line: seq<int>): seq<int>
    decreases |line|
  {
    if line == [] then [] else Echoes(t, LineEditor.Front(line)) + LineEditor.Echo(t, LineEditor.Last(line))
  }

  /** The n cells from the cursor on are blank and in the cursor's row. */
  predicate BlankAhead(s: Term, n: nat)
    requires TermOk(s)
  {
    s.x + n <= s.cols && forall j :: s.x <= j < s.x + n ==> s.screen[s.y][j] == ERASE
  }

  /** The screen s with the text cs typed at its cursor. */
  function After(s: Term, cs: seq<int>): (r: Term)
    requires TermOk(s) && Printable(cs) && s.x + |cs| <= s.cols
    ensures TermOk(r)
  {
    SetRow(s, TypedRow(s.screen[s.y], s.x, s.attr, cs)).(x := s.x + |cs|)
  }

  lemma RuboutTakesOne(s: Term, cs: seq<int>)
    requires TermOk(s) && s.mode == 0 && Printable(cs) && cs != [] && BlankAhead(s, |cs|)
    ensures ShowAll(After(s, cs), [127], 127) == After(s, cs[..|cs| - 1])
  {
    var n := |cs| - 1;
    Single(After(s, cs), 127, 127);
    var a, b := TypedRow(s.screen[s.y], s.x, s.attr, cs), TypedRow(s.screen[s.y], s.x, s.attr, cs[..n]);
    assert b == a[s.x + n := ERASE];
  }

  lemma NothingTyped(s: Term)
    requires TermOk(s)
    ensures After(s, []) == s
  {
    assert TypedRow(s.screen[s.y], s.x, s.attr, []) == s.screen[s.y];
  }

  function Rubouts(n: nat): seq<int> {
    seq(n, i => 127)
  }

  /** As many rubouts as characters typed take them all away. */
  lemma {:induction false} RuboutsTakeAll(s: Term, cs: seq<int>)
    requires TermOk(s) && s.mode == 0 && Printable(cs) && BlankAhead(s, |cs|)
    ensures ShowAll(After(s, cs), Rubouts(|cs|), 127) == s
    decreases |cs|
  {
    NothingTyped(s);
    if cs == [] {
      Empty(s);
      assert Rubouts(0) == [];
    } else {
      RuboutTakesOne(s, cs);
      RuboutsTakeAll(s, cs[..|cs| - 1]);
      hide ShowAll, After;
      assert Rubouts(|cs|) == [127] + Rubouts(|cs| - 1);
      PiecesJoin(After(s, cs), [127], Rubouts(|cs| - 1), 127);
    }
  }

  lemma RubIsRubouts(t: LineEditor.Termios, c: int)
    requires t.echo && t.echoctl && Shown(c)
    ensures LineEditor.Rub(t, c) == Rubouts(|LineEditor.Echo(t, c)|) && Printable(LineEditor.Echo(t, c))
  {
  }

  lemma TypedUndone(s: Term, cs: seq<int>)
    requires TermOk(s) && s.mode == 0 && Printable(cs) && BlankAhead(s, |cs|)
    ensures ShowAll(ShowAll(s, cs, 127), Rubouts(|cs|), 127) == s
  {
    ShownAfter(s, cs);
    RuboutsTakeAll(s, cs);
  }

  /** The rubouts for one character take away its echo. */
  lemma EchoUndone(t: LineEditor.Termios, s: Term, c: int)
    requires TermOk(s) && s.mode == 0 && t.echo && t.echoctl && Shown(c)
    requires BlankAhead(s, |LineEditor.Echo(t, c)|)
    ensures ShowAll(ShowAll(s, LineEditor.Echo(t, c), 127), LineEditor.Rub(t, c), 127) == s
  {
    hide *;
    RubIsRubouts(t, c);
    TypedUndone(s, LineEditor.Echo(t, c));
  }

  lemma {:induction false} EchoesPrintable(t: LineEditor.Termios, line: seq<int>)
    requires t.echo && t.echoctl && forall i :: 0 <= i < |line| ==> Shown(line[i])
    ensures Printable(Echoes(t, line))
    decreases |line|
  {
    if line != [] {
      EchoesPrintable(t, LineEditor.Front(line));
    }
  }

  /** A line typed and then killed leaves the screen and the cursor as they were, if the line fits in the row and the
      cells it takes were blank. */
  lemma {:induction false} KillUndoesEcho(t: LineEditor.Termios, s: Term, line: seq<int>)
    requires TermOk(s) && s.mode == 0 && t.echo && t.echoctl
    requires forall i :: 0 <= i < |line| ==> Shown(line[i])
    requires BlankAhead(s, |Echoes(t, line)|)
    ensures ShowAll(ShowAll(s, Echoes(t, line), 127), LineEditor.RubAll(t, line), 127) == s
    decreases |line|
  {
    hide Show, ShowAll;
    if line == [] {
      Empty(s);
    } else {
      var front, c := LineEditor.Front(line), LineEditor.Last(line);
      var before, echo, rub := Echoes(t, front), LineEditor.Echo(t, c), LineEditor.Rub(t, c);
      EchoesPrintable(t, front);
      Typed(s, before, 127);
      var u := ShowAll(s, before, 127);
      PiecesJoin(s, before, echo, 127);
      EchoUndone(t, u, c);
      PiecesJoin(ShowAll(u, echo, 127), rub, LineEditor.RubAll(t, front), 127);
      KillUndoesEcho(t, s, front);
    }
  }

  lemma Empty(s: Term)
    requires TermOk(s)
    ensures ShowAll(s, [], 127) == s
  {
  }

  lemma {:induction false} PlainText(t: LineEditor.Termios, cs: seq<int>)
    requires Printable(cs) && t.opost && !t.olcuc
    ensures OutputText.Translated(t, false, cs) == cs
    decreases |cs|
  {
    if cs != [] {
      PlainText(t, cs[1..]);
    }
  }

  lemma LineEndText(t: LineEditor.Termios)
    requires t.opost && t.onlcr && !t.onlret && !t.olcuc
    ensures OutputText.Translated(t, false, [10]) == [13, 10]
  {
    assert OutputText.Translated(t, false, [10][1..]) == [];
  }

  /** A line of text written with the console's settings stands in its row from the cursor on; the cursor goes to the
      start of the next row, and at the end of the scroll region the region scrolls up. */
  lemma LineWritten(t: LineEditor.Termios, s: Term, cs: seq<int>)
    requires TermOk(s) && s.mode == 0 && Printable(cs) && s.x + |cs| <= s.cols
    requires t.opost && t.onlcr && !t.onlret && !t.olcuc
    ensures ShowAll(s, OutputText.Translated(t, false, cs + [10]), 127) == LineFeed(After(s, cs).(x := 0))
  {
    LineOut(t, cs);
    LineShown(s, cs);
  }

  lemma LineOut(t: LineEditor.Termios, cs: seq<int>)
    requires Printable(cs) && t.opost && t.onlcr && !t.onlret && !t.olcuc
    ensures OutputText.Translated(t, false, cs + [10]) == cs + [13, 10]
  {
    PlainText(t, cs);
    LineEndText(t);
    OutputText.PiecesJoin(t, false, cs, [10]);
  }

  lemma LineShown(s: Term, cs: seq<int>)
    requires TermOk(s) && s.mode == 0 && Printable(cs) && s.x + |cs| <= s.cols
    ensures ShowAll(s, cs + [13, 10], 127) == LineFeed(After(s, cs).(x := 0))
  {
    ShownAfter(s, cs);
    hide *;
    LineEnd(After(s, cs));
    PiecesJoin(s, cs, [13, 10], 127);
  }

  lemma ShownAfter(s: Term, cs: seq<int>)
    requires TermOk(s) && s.mode == 0 && Printable(cs) && s.x + |cs| <= s.cols
    ensures ShowAll(s, cs, 127) == After(s, cs) && After(s, cs).mode == 0
  {
    hide Show, ShowAll;
    Typed(s, cs, 127);
  }

  lemma LineEnd(s: Term)
    requires TermOk(s) && s.mode == 0
    ensures ShowAll(s, [13, 10], 127) == LineFeed(s.(x := 0))
  {
    Single(s, 13, 127);
    Single(s.(x := 0), 10, 127);
    PiecesJoin(s, [13], [10], 127);
    assert [13] + [10] == [13, 10];
  }
}
