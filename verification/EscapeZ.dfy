/** A text on which the console's answer does harm: ESC Z in the middle of it, with the console's own settings. */
module EscapeZ {
  import opened CharQueue
  import opened EchoRuns
  import opened LineEditor
  import opened OutputText
  import opened Replies
  import opened TextWrites
  import opened TtyRun
  import Terminal

  /** The settings the console starts with. */
  const SETTINGS: Termios := Termios(true, false, false, false, true, true, true, true, true, false, false, true, false,
                                     21, 127, 4, 19, 17, 3, 28)

  const TEXT: seq<int> := [27, 'Z' as int, 'x' as int]

  /** The reply as it is echoed: ^[[?1;2c. */
  const ECHO: seq<int> := ['^' as int,
      '[' as int, '[' as int, '?' as int, '1' as int, ';' as int, '2' as int, 'c' as int]

  /** Nothing queued, nothing typed, the parser in text. */
  predicate Fresh(s: State) {
    Ok(s) && s.term.mode == 0 && Held(s.read) == [] && Held(s.write) == [] && Held(s.second) == []
  }

  lemma CookOne(t: Termios, l: Line, input: seq<int>, c: int)
    requires input != [] && |l.held| < ROOM && VerbOf(t, input[0]) == Enter(c)
    ensures Cook(t, l, input) == Cook(t, Append(t, l, c), input[1..])
  {
  }

  /** The line after i characters of the reply. */
  function Stage(l: Line, i: nat): Line
    requires i <= |REPLY|
  {
    l.(held := REPLY[..i], sent := if i == 0 then [] else ECHO[..i + 1])
  }

  lemma StageStep(l: Line, i: nat)
    requires i < |REPLY|
    ensures VerbOf(SETTINGS, REPLY[i]) == Enter(REPLY[i])
    ensures Append(SETTINGS, Stage(l, i), REPLY[i]) == Stage(l, i + 1)
  {
    assert REPLY[..i + 1] == REPLY[..i] + [REPLY[i]];
    if i == 0 {
      assert ECHO[..2] == [] + ['^' as int, '[' as int];
    } else {
      assert ECHO[i + 1] == REPLY[i];
      assert ECHO[..i + 2] == ECHO[..i + 1] + [REPLY[i]];
    }
  }

  /** Every character of the reply enters the line and is echoed. */
  lemma {:induction false} ReplyCooked(l: Line, i: nat)
    requires i <= |REPLY|
    ensures Cook(SETTINGS, Stage(l, i), REPLY[i..]) == (l.(held := REPLY, sent := ECHO), [])
    decreases |REPLY| - i
  {
    hide Append, VerbOf;
    if i == |REPLY| {
      assert REPLY[i..] == [] && REPLY[..i] == REPLY && ECHO[..i + 1] == ECHO;
    } else {
      assert REPLY[i..][1..] == REPLY[i + 1..];
      StageStep(l, i);
      CookOne(SETTINGS, Stage(l, i), REPLY[i..], REPLY[i]);
      ReplyCooked(l, i + 1);
    }
  }

  /** Printable text asks for nothing and leaves the parser in text. */
  lemma {:induction false} PrintableAsksNothing(t: Termios, term: Terminal.Term, q: seq<int>)
    requires Terminal.TermOk(term) && term.mode == 0 && Terminal.Printable(q)
    ensures NoAsk(t, term, q) && Terminal.ShowAll(term, q, t.erase).mode == 0
    decreases |q|
  {
    if q == [] {
    } else {
      PrintableKeepsMode(t, term, q[0]);
      hide Terminal.Show, Terminal.TermOk;
      PrintableAsksNothing(t, Terminal.Show(term, q[0], t.erase), q[1..]);
      assert q == [q[0]] + q[1..];
      Terminal.PiecesJoin(term, [q[0]], q[1..], t.erase);
      Terminal.Single(term, q[0], t.erase);
    }
  }

  lemma PrintableKeepsMode(t: Termios, term: Terminal.Term, c: int)
    requires Terminal.TermOk(term) && term.mode == 0 && 31 < c < 127
    ensures Terminal.Show(term, c, t.erase).mode == 0
  {
  }

  lemma EscapeModes(term: Terminal.Term)
    requires Terminal.TermOk(term)
    ensures term.mode == 0 ==> Terminal.Show(term, 27, 127).mode == 1
    ensures term.mode == 1 ==> Terminal.Show(term, 'Z' as int, 127).mode == 0
  {
  }

  /** The answer: its echo, and the x queued behind the Z, are shown by the console called within itself. */
  lemma AnswerShows(fuel: nat, k: State)
    requires Ok(k) && fuel >= SIZE + ROOM && k.term.mode == 0
    requires Held(k.read) == [] && Held(k.second) == [] && Held(k.write) == ['x' as int]
    ensures Respond(SETTINGS, fuel, k).Some?
    ensures var v := Respond(SETTINGS, fuel, k).value;
            v.term.mode == 0 && Held(v.write) == [] && v.shown == k.shown + ['x' as int] + ECHO
                && v.sent == k.sent + ECHO
  {
    hide Terminal.Show, Terminal.ShowAll, Terminal.TermOk, NoAsk, RingOk, Held, Cook, CopyToCooked, PutAll, Queued;
    var m := k.(read := PutAll(k.read, REPLY));
    PutAllHeld(k.read, REPLY);
    QueuedFits([], REPLY);
    assert [] + REPLY == REPLY;
    ReplyCooked(LineOf(m), 0);
    assert Stage(LineOf(m), 0) == LineOf(m) && REPLY[0..] == REPLY;
    TwoAreEnough(SETTINGS, LineOf(m), REPLY, 1);
    PrintableAsksNothing(SETTINGS, k.term, ['x' as int] + ECHO);
    CopyEchoes(SETTINGS, fuel, m);
    var v := CopyToCooked(SETTINGS, fuel, m).value;
    assert Held(v.write) == [] && v.shown == k.shown + ['x' as int] + ECHO by {
      AllShown(k.shown, v.shown, Held(v.write), Held(k.write), ECHO);
    }
    assert v.shown[|k.shown|..] == ['x' as int] + ECHO;
  }

  lemma AllShown(a: seq<int>, b: seq<int>, w: seq<int>, p: seq<int>, e: seq<int>)
    requires b + w == a + p + e && e != [] && ((w == p && b == a) || w == [])
    ensures w == [] && b == a + p + e
  {
    assert b + [] == b;
    if w == p && b == a {
      assert |b + w| == |a + p|;
    }
  }

  /** The first two characters ask for a reply while the third is still queued. */
  lemma AskedWithOneLeft(fuel: nat, s: State) returns (k: State)
    requires Ok(s) && fuel > 0 && s.term.mode == 0 && Held(s.write) == TEXT && Held(s.read) == []
        && Held(s.second) == []
    ensures Ok(k) && k.term.mode == 0 && Held(k.write) == ['x' as int] && Held(k.read) == [] && Held(k.second) == []
    ensures k.shown == s.shown + TEXT[..2] && k.sent == s.sent
    ensures TakeAll(SETTINGS, fuel, s, 3) ==
            match Respond(SETTINGS, fuel - 1, k) case None => None case Some(v) => TakeAll(SETTINGS, fuel, v, 1)
  {
    TakeHeld(SETTINGS, s);
    var j := Take(SETTINGS, s);
    assert j.term.mode == 1 by { EscapeModes(s.term); }
    TakeHeld(SETTINGS, j);
    k := Take(SETTINGS, j);
    EscapeModes(j.term);
    hide Terminal.Show, Terminal.ShowAll, Terminal.TermOk, Held, RingOk, Respond, Take;
    assert !AsksNow(s) && AsksNow(j);
    assert TakeOne(SETTINGS, fuel, s) == Some(j) && TakeOne(SETTINGS, fuel, j) == Respond(SETTINGS, fuel - 1, k);
    assert TakeAll(SETTINGS, fuel, s, 3) == TakeAll(SETTINGS, fuel, j, 2);
    assert TakeAll(SETTINGS, fuel, j, 2) ==
           match TakeOne(SETTINGS, fuel, j) case None => None case Some(v) => TakeAll(SETTINGS, fuel, v, 1);
    assert s.shown + [TEXT[0]] + [TEXT[1]] == s.shown + TEXT[..2];
  }

  /** From a fresh state, the write of ESC Z x returns; but the console has shown the echo of its answer behind
      the x, then one stale character that no one wrote, and takes the queue to hold 1023 more. No write ever
      returns after it. */
  lemma WriteGoesWrong(fuel: nat, s: State)
    requires Fresh(s) && fuel > SIZE + ROOM
    ensures WriteText(SETTINGS, fuel, s, false, TEXT).Some?
    ensures var r := WriteText(SETTINGS, fuel, s, false, TEXT).value.0;
            && |Held(r.write)| == ROOM && |r.shown| == |s.shown| + |TEXT| + |ECHO| + 1
            && s.shown + TEXT + ECHO <= r.shown
            && forall f: nat, flag, text :: text != [] ==> WriteText(SETTINGS, f, r, flag, text) == None
  {
    hide Terminal.Show, Terminal.ShowAll, Terminal.TermOk, Respond, RingOk;
    FillIs(SETTINGS, s, false, TEXT);
    var (u, g, rest) := FillQueue(SETTINGS, s, false, TEXT);
    PlainText();
    assert rest == [] && Held(u.write) == [] + TEXT && [] + TEXT == TEXT by { Room3(s, u, g, rest); }
    var k := AskedWithOneLeft(fuel, u);
    AnswerShows(fuel - 1, k);
    var v := Respond(SETTINGS, fuel - 1, k).value;
    GotHeld(v.write);
    var r := Take(SETTINGS, v);
    assert TakeAll(SETTINGS, fuel, v, 1) == Some(r);
    assert k.shown + ['x' as int] == s.shown + TEXT;
    assert WriteText(SETTINGS, fuel, s, false, TEXT) == Some((r, g));
  }

  lemma PlainText()
    ensures Translated(SETTINGS, false, TEXT) == TEXT
  {
    assert TEXT[1..] == ['Z' as int, 'x' as int] && TEXT[1..][1..] == ['x' as int] && TEXT[1..][1..][1..] == [];
    assert Translated(SETTINGS, false, []) == [];
    TranslatedStep(SETTINGS, false, TEXT[1..][1..]);
    TranslatedStep(SETTINGS, false, TEXT[1..]);
    TranslatedStep(SETTINGS, false, TEXT);
  }

  lemma Room3(s: State, u: State, g: bool, rest: seq<int>)
    requires Ok(s) && Held(s.write) == [] && Translated(SETTINGS, false, TEXT) == TEXT
    requires Filled(s, u, TEXT, Translated(SETTINGS, g, rest)) && (rest == [] || |Held(u.write)| == ROOM)
    ensures rest == [] && Held(u.write) == TEXT
  {
    if rest == [] {
      assert Translated(SETTINGS, g, rest) == [] && TEXT[..3] == TEXT;
    }
  }
}
