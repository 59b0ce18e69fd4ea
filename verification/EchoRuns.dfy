/** Simple conditions for the exact ones of Replies and TextWrites, input with echo, and what happens to a text with ESC
    Z in it under echo. */
module EchoRuns {
  import opened CharQueue
  import opened LineEditor
  import opened OutputText
  import opened Replies
  import opened TextWrites
  import opened TtyRun
  import Terminal

  /** No character of q completes ESC Z. */
  predicate NoAsk(t: Termios, term: Terminal.Term, q: seq<int>)
    requires Terminal.TermOk(term)
    decreases |q|
  {
    q == [] || (!Asks(term, q[0]) && NoAsk(t, Terminal.Show(term, q[0], t.erase), q[1..]))
  }

  lemma {:induction false} NoEchoIsQuiet(t: Termios, l: Line, input: seq<int>, idle: bool)
    requires !t.echo
    ensures QuietCook(t, l, input, idle)
    decreases |input|
  {
    if input != [] && |l.held| != ROOM {
      NoEchoIsQuiet(t, Edit(t, l, input[0]), input[1..], idle);
    }
  }

  /** Without echo every text is calm. */
  lemma {:induction false} NoEchoIsCalm(t: Termios, term: Terminal.Term, l: Line, input: seq<int>, q: seq<int>,
      left: nat)
    requires Terminal.TermOk(term) && !t.echo
    ensures CalmText(t, term, l, input, q, left)
    decreases |q|
  {
    hide Terminal.Show, Terminal.TermOk, Cook, Queued, QuietCook;
    if q != [] {
      var u := Terminal.Show(term, q[0], t.erase);
      var (m, rest) := Cook(t, l, Queued(input, REPLY));
      NoEchoIsQuiet(t, l, Queued(input, REPLY), |q| == 1 || left <= 1);
      NoEchoIsCalm(t, u, m, rest, q[1..], Next(left));
      NoEchoIsCalm(t, u, l, input, q[1..], Next(left));
    }
  }

  /** A key that types itself. */
  predicate Enters(t: Termios, key: int) {
    VerbOf(t, key).Enter?
  }

  /** At most six of the seven characters of a reply can have another meaning. */
  lemma ReplyEnters(t: Termios) returns (i: nat)
    ensures i < |REPLY| && Enters(t, REPLY[i])
  {
    i := if !Special(t, 27) then 0 else if !Special(t, '[' as int) then 1 else if !Special(t, '?' as int) then 2
         else if !Special(t, '1' as int) then 3 else if !Special(t, ';' as int) then 4
             else if !Special(t, '2' as int) then 5
         else 6;
    assert !Special(t, REPLY[i]);
  }

  predicate Special(t: Termios, c: int) {
    c == t.kill || c == t.erase || c == t.stop || c == t.start || c == t.intr || c == t.quit
  }

  /** With carets, whatever changes the line is echoed. */
  lemma ChangeIsEchoed(t: Termios, l: Line, key: int)
    requires t.echo && t.echoctl
    ensures Edit(t, l, key).held != l.held ==> Edit(t, l, key).sent != l.sent
    ensures Enters(t, key) ==> Edit(t, l, key).held != l.held
  {
    if VerbOf(t, key) == KillIt && l.held != [] && !Ends(t, Last(l.held)) {
      KillShortens(t, l);
    }
  }

  lemma {:induction false} EnteredIsLoud(t: Termios, l: Line, input: seq<int>, i: nat, idle: bool)
    requires t.echo && t.echoctl && |l.held| < ROOM && i < |input| && Enters(t, input[i])
    ensures !QuietCook(t, l, input, idle)
    decreases |input|
  {
    ChangeIsEchoed(t, l, input[0]);
    hide Edit;
    if i > 0 && QuietKey(t, l, input[0], idle) {
      EnteredIsLoud(t, Edit(t, l, input[0]), input[1..], i - 1, idle);
    }
  }

  /** With echo, carets and room for a reply on both queues, a text is calm if and only if no character of it
      completes ESC Z. */
  lemma {:induction false} UsualIff(t: Termios, term: Terminal.Term, l: Line, input: seq<int>, q: seq<int>, left: nat)
    requires Terminal.TermOk(term) && t.echo && t.echoctl && |input| + |REPLY| < SIZE && |l.held| < ROOM
    ensures CalmText(t, term, l, input, q, left) <==> NoAsk(t, term, q)
    decreases |q|
  {
    hide Terminal.Show, Terminal.TermOk, Cook, Queued, QuietCook, Enters;
    if q != [] {
      if Asks(term, q[0]) {
        var i := ReplyEnters(t);
        QueuedFits(input, REPLY);
        EnteredIsLoud(t, l, input + REPLY, |input| + i, |q| == 1 || left <= 1);
      } else {
        UsualIff(t, Terminal.Show(term, q[0], t.erase), l, input, q[1..], Next(left));
      }
    }
  }

  lemma {:induction false} NoAskIsCalm(t: Termios, term: Terminal.Term, l: Line, input: seq<int>, q: seq<int>,
      left: nat)
    requires Terminal.TermOk(term) && NoAsk(t, term, q)
    ensures CalmText(t, term, l, input, q, left) && Answered(t, term, l, input, q) == (l, input)
    decreases |q|
  {
    hide Terminal.Show, Terminal.TermOk, Cook, Queued, QuietCook;
    if q != [] {
      NoAskIsCalm(t, Terminal.Show(term, q[0], t.erase), l, input, q[1..], Next(left));
    }
  }

  lemma {:induction false} NoAskSplit(t: Termios, term: Terminal.Term, a: seq<int>, b: seq<int>)
    requires Terminal.TermOk(term)
    ensures NoAsk(t, term, a + b) <==> NoAsk(t, term, a) && NoAsk(t, Terminal.ShowAll(term, a, t.erase), b)
    decreases |a|
  {
    hide Terminal.Show, Terminal.TermOk;
    if a == [] {
      assert a + b == b && Terminal.ShowAll(term, [], t.erase) == term;
    } else {
      assert (a + b)[0] == a[0] && (a + b)[1..] == a[1..] + b && a == [a[0]] + a[1..];
      Terminal.PiecesJoin(term, [a[0]], a[1..], t.erase);
      Terminal.Single(term, a[0], t.erase);
      NoAskSplit(t, Terminal.Show(term, a[0], t.erase), a[1..], b);
    }
  }

  // ---------- input with echo ----------

  /** The console shows a queue that asks for nothing, and empties it. */
  lemma {:induction false} TakeAllNoAsk(t: Termios, fuel: nat, s: State)
    requires Ok(s) && NoAsk(t, s.term, Held(s.write))
    ensures var r := TakeAll(t, fuel, s, |Held(s.write)|);
            && r.Some? && Ok(r.value) && Held(r.value.write) == []
            && r.value == s.(write := r.value.write, term := Terminal.ShowAll(s.term, Held(s.write), t.erase),
                             shown := s.shown + Held(s.write))
    decreases |Held(s.write)|
  {
    hide Terminal.Show, Terminal.TermOk, Respond, Held;
    var q := Held(s.write);
    if q == [] {
      assert s.shown + q == s.shown && Terminal.ShowAll(s.term, [], t.erase) == s.term;
    } else {
      TakeHeld(t, s);
      var u := Take(t, s);
      TakeAllNoAsk(t, fuel, u);
      assert q == [q[0]] + q[1..];
      Terminal.PiecesJoin(s.term, [q[0]], q[1..], t.erase);
      Terminal.Single(s.term, q[0], t.erase);
      assert s.shown + q == s.shown + [q[0]] + q[1..];
    }
  }

  /** The echo cs of one key: everything queued and the echo shown, the queue empty. */
  predicate EchoDone(t: Termios, s: State, r: State, cs: seq<int>)
    requires Ok(s)
  {
    && Ok(r) && Held(r.write) == [] && r.sent == s.sent + cs && r.shown == s.shown + Held(s.write) + cs
    && r == s.(write := r.write, sent := r.sent, shown := r.shown, term := r.term)
    && r.term == Terminal.ShowAll(s.term, Held(s.write) + cs, t.erase)
  }

  lemma EchoShown(t: Termios, fuel: nat, s: State, cs: seq<int>)
    requires Ok(s) && t.echo && |Held(s.write)| + |cs| < SIZE && NoAsk(t, s.term, Held(s.write) + cs)
    ensures Echoed(t, fuel, s, cs).Some? && EchoDone(t, s, Echoed(t, fuel, s, cs).value, cs)
  {
    var u := SendAll(s, cs);
    PutAllHeld(s.write, cs);
    QueuedFits(Held(s.write), cs);
    hide PutAll, Queued, Terminal.Show, Terminal.ShowAll, Terminal.TermOk, NoAsk;
    TakeAllNoAsk(t, fuel, u);
    assert s.shown + (Held(s.write) + cs) == s.shown + Held(s.write) + cs;
  }

  /** Echo is kept exactly as long as it fits behind what is queued; one character more and a whole ring of output is
      lost. The queue asks for nothing. */
  lemma EchoFitsIff(t: Termios, fuel: nat, s: State, cs: seq<int>)
    requires Ok(s) && t.echo && |cs| < SIZE && NoAsk(t, s.term, Queued(Held(s.write), cs))
    ensures Echoed(t, fuel, s, cs).Some?
    ensures Echoed(t, fuel, s, cs).value.shown == s.shown + Held(s.write) + cs <==> |Held(s.write)| + |cs| < SIZE
  {
    hide PutAll, Terminal.Show, Terminal.ShowAll, Terminal.TermOk, NoAsk, TakeAll, Queued, Held, RingOk;
    PutAllHeld(s.write, cs);
    TakeAllNoAsk(t, fuel, SendAll(s, cs));
    if |Held(s.write)| + |cs| < SIZE {
      QueuedFits(Held(s.write), cs);
      assert s.shown + (Held(s.write) + cs) == s.shown + Held(s.write) + cs;
    } else {
      QueuedLoses(Held(s.write), cs);
    }
  }

  /** The first characters a key has echoed, if it changes the line. */
  function FirstSent(t: Termios, l: Line, key: int): seq<int> {
    match VerbOf(t, key)
    case Enter(c) => Echo(t, c)
    case KillIt => if l.held == [] || Ends(t, Last(l.held)) then [] else Rub(t, Last(l.held))
    case EraseIt => if l.held == [] || Ends(t, Last(l.held)) then [] else Rub(t, Last(l.held))
    case _ => []
  }

  /** From s to r echo e has been sent after what was queued; the line is l, the rest of the state is as before. */
  predicate EchoedTo(t: Termios, s: State, r: State, l: Line, e: seq<int>)
    requires Ok(s)
  {
    && Ok(r) && r.read == s.read && r.sent == s.sent + e && r.shown + Held(r.write) == s.shown + Held(s.write) + e
    && LineOf(r) == l.(sent := []) && s.shown <= r.shown
        && r.term == Terminal.ShowAll(s.term, r.shown[|s.shown|..], t.erase)
    && ((r.write == s.write && r.shown == s.shown) || Held(r.write) == [])
  }

  lemma EchoedToTrans(t: Termios, s: State, u: State, r: State, l: Line, d: seq<int>, m: Line, e: seq<int>)
    requires Ok(s) && EchoedTo(t, s, u, l, d) && EchoedTo(t, u, r, m, e) && (Held(u.write) == [] || d == [])
    ensures EchoedTo(t, s, r, m, d + e)
  {
    hide Terminal.ShowAll, Terminal.TermOk, Held, RingOk;
    assert s.sent + (d + e) == s.sent + d + e;
    assert s.shown + Held(s.write) + (d + e) == s.shown + Held(s.write) + d + e;
    Terminal.PiecesJoin(s.term, u.shown[|s.shown|..], r.shown[|u.shown|..], t.erase);
    assert u.shown[|s.shown|..] + r.shown[|u.shown|..] == r.shown[|s.shown|..];
  }

  lemma EchoedNothing(t: Termios, s: State, r: State, l: Line)
    requires Ok(s) && Settled(s, r, l) && l.sent == []
    ensures EchoedTo(t, s, r, l, [])
  {
    assert r.shown[|s.shown|..] == [] && r.sent + [] == r.sent;
    assert s.shown + Held(s.write) + [] == s.shown + Held(s.write);
    assert Terminal.ShowAll(s.term, [], t.erase) == s.term;
  }

  lemma DoneIsEchoedTo(t: Termios, s: State, k: State, u: State, r: State, l: Line, cs: seq<int>)
    requires Ok(s) && k == s.(data := k.data) && EchoDone(t, k, u, cs) && Ok(r)
        && r == u.(second := r.second, data := r.data) && LineOf(r) == l.(sent := [])
    ensures EchoedTo(t, s, r, l, cs)
  {
    assert r.shown + Held(r.write) == r.shown;
    assert s.shown + Held(s.write) + cs == s.shown + (Held(s.write) + cs);
    assert r.shown[|s.shown|..] == Held(s.write) + cs;
  }

  lemma RubEchoes(t: Termios, fuel: nat, s: State)
    requires Ok(s) && t.echo && !AtLineStart(t, s)
    requires var e := Rub(t, Newest(s.second)); |Held(s.write)| + |e| < SIZE && NoAsk(t, s.term, Held(s.write) + e)
    ensures var r := RubOut(t, fuel, s, Newest(s.second));
            r.Some? && EchoedTo(t, s, r.value, Erase(t, LineOf(s)), Rub(t, Newest(s.second)))
                && Held(r.value.write) == []
  {
    LineStart(t, s);
    hide Terminal.Show, Terminal.ShowAll, Terminal.TermOk, NoAsk, Held, ConWrite;
    var e := Rub(t, Newest(s.second));
    EchoShown(t, fuel, s, e);
    var u := Echoed(t, fuel, s, e).value;
    DoneIsEchoedTo(t, s, s, u, u.(second := Dropped(u.second)), Erase(t, LineOf(s)), e);
  }

  lemma AcceptEchoes(t: Termios, fuel: nat, s: State, c: int)
    requires Ok(s) && t.echo && HasRoom(s) && |Held(s.write)| + |Echo(t, c)| < SIZE
        && NoAsk(t, s.term, Held(s.write) + Echo(t, c))
    ensures var r := Accept(t, fuel, s, c);
            r.Some? && EchoedTo(t, s, r.value, Append(t, LineOf(s), c), Echo(t, c)) && Held(r.value.write) == []
  {
    hide Terminal.Show, Terminal.ShowAll, Terminal.TermOk, NoAsk, ConWrite;
    var k := s.(data := if Ends(t, c) then s.data + 1 else s.data);
    EchoShown(t, fuel, k, Echo(t, c));
    var u := Echoed(t, fuel, k, Echo(t, c)).value;
    PutHeld(s.second, c);
    hide Held;
    DoneIsEchoedTo(t, s, k, u, u.(second := Put(u.second, c)), Append(t, LineOf(s), c), Echo(t, c));
  }

  /** What was sent before plays no part in editing. */
  lemma {:induction false} KillSent(t: Termios, l: Line, before: seq<int>)
    ensures Kill(t, l.(sent := before + l.sent)) == Kill(t, l).(sent := before + Kill(t, l).sent)
    decreases |l.held|
  {
    if l.held != [] && !Ends(t, Last(l.held)) {
      var c := Last(l.held);
      KillSent(t, Erase(t, l), before);
      assert before + l.sent + Rub(t, c) == before + (l.sent + Rub(t, c));
    }
  }

  lemma EditSent(t: Termios, l: Line, before: seq<int>, key: int)
    ensures Edit(t, l.(sent := before + l.sent), key) == Edit(t, l, key).(sent := before + Edit(t, l, key).sent)
  {
    KillSent(t, l, before);
    match VerbOf(t, key)
    case Enter(c) => assert before + l.sent + Echo(t, c) == before + (l.sent + Echo(t, c));
    case EraseIt =>
      if l.held != [] {
        assert before + l.sent + Rub(t, Last(l.held)) == before + (l.sent + Rub(t, Last(l.held)));
      }
    case _ =>
  }

  lemma {:induction false} CookSent(t: Termios, l: Line, before: seq<int>, input: seq<int>)
    ensures var (m, rest) := Cook(t, l, input);
            Cook(t, l.(sent := before + l.sent), input) == (m.(sent := before + m.sent), rest)
    decreases |input|
  {
    hide Edit;
    if input != [] && |l.held| != ROOM {
      EditSent(t, l, before, input[0]);
      CookSent(t, Edit(t, l, input[0]), before, input[1..]);
    }
  }

  /** The first rubout of a kill. */
  lemma KillFirst(t: Termios, fuel: nat, s: State)
    requires Ok(s) && t.echo && !AtLineStart(t, s)
    requires |Held(s.write)| + |Rub(t, Newest(s.second))| < SIZE
        && NoAsk(t, s.term, Held(s.write) + Kill(t, LineOf(s)).sent)
    ensures RubOut(t, fuel, s, Newest(s.second)).Some?
    ensures var u, d, m := RubOut(t, fuel, s, Newest(s.second)).value, Rub(t, Newest(s.second)), Erase(t,
        LineOf(s)).(sent := []);
            && EchoedTo(t, s, u, Erase(t, LineOf(s)), d) && Held(u.write) == [] && LineOf(u) == m
            && Kill(t, LineOf(s)) == Kill(t, m).(sent := d + Kill(t, m).sent)
            && NoAsk(t, u.term, Held(u.write) + Kill(t, m).sent)
  {
    LineStart(t, s);
    var l, c := LineOf(s), Newest(s.second);
    var d, m := Rub(t, c), Erase(t, l).(sent := []);
    KillSent(t, m, d);
    assert Erase(t, l) == m.(sent := d + m.sent);
    hide Terminal.Show, Terminal.ShowAll, Terminal.TermOk, NoAsk, Held, RubOut, EchoedTo;
    var e := Kill(t, m).sent;
    NoAskParts(t, s.term, Held(s.write), d, e);
    RubEchoes(t, fuel, s);
    RestAsks(t, s, RubOut(t, fuel, s, c).value, Erase(t, l), d, e);
  }

  lemma {:induction false} KillEchoes(t: Termios, fuel: nat, s: State)
    requires Ok(s) && t.echo && !AtLineStart(t, s) && fuel >= |Held(s.second)|
    requires |Held(s.write)| + |Rub(t, Newest(s.second))| < SIZE
        && NoAsk(t, s.term, Held(s.write) + Kill(t, LineOf(s)).sent)
    ensures var r := KillLine(t, fuel, s);
            r.Some? && EchoedTo(t, s, r.value, Kill(t, LineOf(s)), Kill(t, LineOf(s)).sent) && Held(r.value.write) == []
    decreases fuel
  {
    hide Terminal.Show, Terminal.ShowAll, Terminal.TermOk, NoAsk, Held, RubOut, EchoedTo, RingOk, Dropped, Newest;
    LineStart(t, s);
    KillFirst(t, fuel - 1, s);
    var c := Newest(s.second);
    var u, d, m := RubOut(t, fuel - 1, s, c).value, Rub(t, c), Erase(t, LineOf(s)).(sent := []);
    LineStart(t, u);
    if AtLineStart(t, u) {
      assert d + [] == d;
    } else {
      KillEchoes(t, fuel - 1, u);
      EchoedToTrans(t, s, u, KillLine(t, fuel - 1, u).value, Erase(t, LineOf(s)), d, Kill(t, m), Kill(t, m).sent);
      EchoedToLine(t, s, KillLine(t, fuel - 1, u).value, Kill(t, m), Kill(t, LineOf(s)), d + Kill(t, m).sent);
    }
  }

  lemma EchoedToLine(t: Termios, s: State, r: State, m: Line, n: Line, e: seq<int>)
    requires Ok(s) && EchoedTo(t, s, r, m, e) && n.(sent := []) == m.(sent := [])
    ensures EchoedTo(t, s, r, n, e)
  {
  }

  lemma NoAskParts(t: Termios, term: Terminal.Term, p: seq<int>, d: seq<int>, e: seq<int>)
    requires Terminal.TermOk(term) && NoAsk(t, term, p + (d + e))
    ensures NoAsk(t, term, p + d) && NoAsk(t, Terminal.ShowAll(term, p + d, t.erase), e)
  {
    assert p + (d + e) == (p + d) + e;
    NoAskSplit(t, term, p + d, e);
  }

  /** After one echo has emptied the queue the rest of the stream still asks for nothing. */
  lemma RestAsks(t: Termios, s: State, u: State, l: Line, d: seq<int>, e: seq<int>)
    requires Ok(s) && EchoedTo(t, s, u, l, d) && Held(u.write) == []
    requires NoAsk(t, Terminal.ShowAll(s.term, Held(s.write) + d, t.erase), e)
    ensures NoAsk(t, u.term, Held(u.write) + e) && LineOf(u) == l.(sent := [])
  {
    hide Terminal.Show, Terminal.ShowAll, Terminal.TermOk, NoAsk, Held, RingOk;
    assert u.shown + [] == u.shown && [] + e == e;
    assert s.shown + Held(s.write) + d == s.shown + (Held(s.write) + d);
    assert u.shown[|s.shown|..] == Held(s.write) + d;
  }

  /** One key, whose echo fits and asks for nothing, does what the line editor does with it, and its echo follows
      what was queued. */
  lemma KeyEchoes(t: Termios, fuel: nat, s: State, key: int)
    requires Ok(s) && HasRoom(s) && fuel >= ROOM
    requires var m := Edit(t, LineOf(s), key);
             && (t.echo && m.held != LineOf(s).held ==> |Held(s.write)| + |FirstSent(t, LineOf(s), key)| < SIZE)
             && NoAsk(t, s.term, Held(s.write) + m.sent)
    ensures var m, r := Edit(t, LineOf(s), key), OnKey(t, fuel, s, key);
            && r.Some? && EchoedTo(t, s, r.value, m, m.sent) && (Held(r.value.write) == [] || m.sent == [])
            && (t.echo && m.held != LineOf(s).held ==> Held(r.value.write) == [])
  {
    hide Terminal.Show, Terminal.ShowAll, Terminal.TermOk, NoAsk, RingOk, EchoedTo, Held, QuietKey, Settled;
    var m := Edit(t, LineOf(s), key);
    if !t.echo || m.held == LineOf(s).held {
      SilentKey(t, LineOf(s), key, Held(s.write) == []);
      KeyQuiet(t, fuel, s, key);
      EchoedNothing(t, s, OnKey(t, fuel, s, key).value, m);
    } else {
      LoudKey(t, fuel, s, key);
    }
  }

  lemma SilentKey(t: Termios, l: Line, key: int, idle: bool)
    requires l.sent == [] && (!t.echo || Edit(t, l, key).held == l.held)
    ensures QuietKey(t, l, key, idle) && Edit(t, l, key).sent == []
  {
    if VerbOf(t, key) == KillIt && l.held != [] && !Ends(t, Last(l.held)) {
      if t.echo {
        KillShortens(t, l);
      } else {
        KillSilent(t, l);
      }
    }
  }

  lemma {:induction false} KillSilent(t: Termios, l: Line)
    requires !t.echo
    ensures Kill(t, l).sent == l.sent
    decreases |l.held|
  {
    if l.held != [] && !Ends(t, Last(l.held)) {
      KillSilent(t, Erase(t, l));
      assert l.sent + [] == l.sent;
    }
  }

  lemma LoudKey(t: Termios, fuel: nat, s: State, key: int)
    requires Ok(s) && HasRoom(s) && fuel >= ROOM && t.echo && Edit(t, LineOf(s), key).held != LineOf(s).held
    requires |Held(s.write)| + |FirstSent(t, LineOf(s), key)| < SIZE
    requires NoAsk(t, s.term, Held(s.write) + Edit(t, LineOf(s), key).sent)
    ensures var m, r := Edit(t, LineOf(s), key), OnKey(t, fuel, s, key);
            r.Some? && EchoedTo(t, s, r.value, m, m.sent) && Held(r.value.write) == []
  {
    hide Terminal.Show, Terminal.ShowAll, Terminal.TermOk, NoAsk, RingOk, EchoedTo, Held, Newest, Dropped, VerbOf,
        Accept, RubOut;
    LineStart(t, s);
    match VerbOf(t, key)
    case KillIt => KillEchoes(t, fuel, s);
    case EraseIt =>
      assert [] + Rub(t, Newest(s.second)) == Rub(t, Newest(s.second));
      RubEchoes(t, fuel, s);
    case Enter(c) =>
      assert [] + Echo(t, c) == Echo(t, c);
      AcceptEchoes(t, fuel, s, c);
    case _ =>
  }

  /** The first echo of a copy fits behind p queued characters; later ones find the queue empty. */
  predicate FirstFits(t: Termios, l: Line, input: seq<int>, p: nat)
    decreases |input|
  {
    !t.echo || input == [] || |l.held| == ROOM ||
    (if Edit(t, l, input[0]).held != l.held then p + |FirstSent(t, l, input[0])| < SIZE
     else FirstFits(t, Edit(t, l, input[0]), input[1..], p))
  }

  /** At most two characters of room are ever needed. */
  lemma {:induction false} TwoAreEnough(t: Termios, l: Line, input: seq<int>, p: nat)
    requires p + 2 < SIZE
    ensures FirstFits(t, l, input, p)
    decreases |input|
  {
    if input != [] {
      TwoAreEnough(t, Edit(t, l, input[0]), input[1..], p);
    }
  }

  lemma {:induction false} CopyEchoes(t: Termios, fuel: nat, s: State)
    requires Ok(s) && fuel >= |Held(s.read)| + ROOM
    requires FirstFits(t, LineOf(s), Held(s.read), |Held(s.write)|)
    requires NoAsk(t, s.term, Held(s.write) + Cook(t, LineOf(s), Held(s.read)).0.sent)
    ensures var (m, rest), r := Cook(t, LineOf(s), Held(s.read)), CopyToCooked(t, fuel, s);
            r.Some? && EchoedTo(t, s.(read := r.value.read), r.value, m, m.sent) && Held(r.value.read) == rest
    decreases fuel
  {
    hide Terminal.Show, Terminal.ShowAll, Terminal.TermOk, NoAsk, RingOk, EchoedTo, Edit, OnKey, FirstSent, Held;
    RoomIs(s);
    if Held(s.read) == [] || !HasRoom(s) {
      EchoedNothing(t, s, s, LineOf(s));
    } else {
      GotHeld(s.read);
      var k, key := s.(read := Got(s.read)), First(s.read);
      assert Held(s.read)[0] == key && Held(s.read)[1..] == Held(k.read);
      FirstKeyEchoes(t, fuel - 1, k, key);
      var n := Edit(t, LineOf(s), key);
      var u := OnKey(t, fuel - 1, k, key).value;
      CopyEchoes(t, fuel - 1, u);
      var r := CopyToCooked(t, fuel - 1, u).value;
      var m := Cook(t, LineOf(u), Held(u.read)).0;
      CookSent(t, LineOf(u), n.sent, Held(u.read));
      assert LineOf(u).(sent := n.sent + []) == n by {
        assert n.sent + [] == n.sent;
      }
      CopyEchoesOn(t, s, k, u, r, n, m);
    }
  }

  lemma CopyEchoesOn(t: Termios, s: State, k: State, u: State, r: State, n: Line, m: Line)
    requires Ok(s) && k == s.(read := k.read) && Ok(k) && EchoedTo(t, k, u, n, n.sent)
        && (Held(u.write) == [] || n.sent == [])
    requires Ok(r) && EchoedTo(t, u.(read := r.read), r, m, m.sent)
    ensures EchoedTo(t, s.(read := r.read), r, m.(sent := n.sent + m.sent), n.sent + m.sent)
  {
    hide Terminal.ShowAll, Terminal.TermOk, Held, RingOk;
    EchoedToTrans(t, s.(read := r.read), u.(read := r.read), r, n, n.sent, m, m.sent);
  }

  /** The first key of a copy, and what the rest needs. */
  lemma FirstKeyEchoes(t: Termios, fuel: nat, k: State, key: int)
    requires Ok(k) && HasRoom(k) && fuel >= ROOM
    requires FirstFits(t, LineOf(k), [key] + Held(k.read), |Held(k.write)|)
    requires NoAsk(t, k.term, Held(k.write) + Cook(t, LineOf(k), [key] + Held(k.read)).0.sent)
    ensures var n, o := Edit(t, LineOf(k), key), OnKey(t, fuel, k, key);
            && o.Some? && EchoedTo(t, k, o.value, n, n.sent) && (Held(o.value.write) == [] || n.sent == [])
            && o.value.read == k.read && LineOf(o.value) == n.(sent := [])
            && FirstFits(t, LineOf(o.value), Held(k.read), |Held(o.value.write)|)
            && NoAsk(t, o.value.term, Held(o.value.write) + Cook(t, LineOf(o.value), Held(k.read)).0.sent)
  {
    hide Terminal.Show, Terminal.ShowAll, Terminal.TermOk, NoAsk, RingOk, Edit, OnKey, FirstSent, Held;
    var input := [key] + Held(k.read);
    assert input[0] == key && input[1..] == Held(k.read);
    var n := Edit(t, LineOf(k), key);
    var e := Cook(t, n.(sent := []), Held(k.read)).0.sent;
    CookSent(t, n.(sent := []), n.sent, Held(k.read));
    assert n.(sent := []).(sent := n.sent + n.(sent := []).sent) == n;
    RoomIs(k);
    assert Cook(t, LineOf(k), input).0.sent == n.sent + e;
    NoAskParts(t, k.term, Held(k.write), n.sent, e);
    assert t.echo && n.held != LineOf(k).held ==> |Held(k.write)| + |FirstSent(t, LineOf(k), key)| < SIZE;
    KeyEchoes(t, fuel, k, key);
    var u := OnKey(t, fuel, k, key).value;
    if Held(u.write) == [] {
      RestAsks(t, k, u, n, n.sent, e);
      TwoAreEnough(t, LineOf(u), Held(k.read), 0);
    } else {
      SilentKey(t, LineOf(k), key, false);
      assert [] + e == e && n.(sent := []) == n;
      assert u.shown[|k.shown|..] == [] && u.term == k.term by {
        Unshown(t, k, u, n);
      }
    }
  }

  lemma Unshown(t: Termios, k: State, u: State, n: Line)
    requires Ok(k) && EchoedTo(t, k, u, n, n.sent) && Held(u.write) != []
    ensures u.write == k.write && u.shown == k.shown && u.term == k.term
  {
    assert u.shown[|k.shown|..] == [];
  }
}
