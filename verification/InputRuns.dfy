/** Input is edited in the same way whatever becomes of its echo: an overflow of the write queue loses output only. */
module InputRuns {
  import opened CharQueue
  import opened EchoRuns
  import opened KeyMeanings
  import opened LineEditor
  import opened Replies
  import opened TtyRun
  import Terminal

  /** Nothing that the console showed from s to r completes ESC Z. */
  predicate Plain(t: Termios, s: State, r: State)
    requires Ok(s)
  {
    |s.shown| <= |r.shown| && NoAsk(t, s.term, r.shown[|s.shown|..])
  }

  /** The reader's side: both input queues, the count of lines and the stop flag. */
  predicate SameInput(s: State, r: State) {
    r.read == s.read && r.second == s.second && r.data == s.data && r.stopped == s.stopped
  }

  /** A line without what was sent for it. */
  function Bare(l: Line): Line {
    l.(sent := [])
  }

  lemma PlainSplit(t: Termios, s: State, u: State, r: State)
    requires Ok(s) && Grows(t, s, u) && Grows(t, u, r) && Plain(t, s, r)
    ensures Plain(t, s, u) && Plain(t, u, r)
  {
    hide Terminal.Show, Terminal.ShowAll, Terminal.TermOk, NoAsk, Held, RingOk;
    var a, b := u.shown[|s.shown|..], r.shown[|u.shown|..];
    assert r.shown[|s.shown|..] == a + b;
    NoAskSplit(t, s.term, a, b);
  }

  /** A character that asks for nothing touches no input. */
  lemma TakeOnePlain(t: Termios, fuel: nat, s: State, r: State)
    requires Ok(s) && TakeOne(t, fuel, s) == Some(r) && Plain(t, s, r)
    ensures SameInput(s, r)
  {
    hide Terminal.Show, Terminal.ShowAll, Terminal.TermOk, Held;
    if AsksNow(s) {
      RespondGrows(t, fuel - 1, Take(t, s), r);
    }
  }

  lemma {:induction false} TakeAllPlain(t: Termios, fuel: nat, s: State, nr: nat, r: State)
    requires Ok(s) && TakeAll(t, fuel, s, nr) == Some(r) && Plain(t, s, r)
    ensures SameInput(s, r)
    decreases nr
  {
    hide Terminal.Show, Terminal.ShowAll, Terminal.TermOk, TakeOne, Plain, Grows;
    if nr > 0 {
      var u := TakeOne(t, fuel, s).value;
      TakeOneGrows(t, fuel, s, u);
      TakeAllGrows(t, fuel, u, nr - 1, r);
      PlainSplit(t, s, u, r);
      TakeOnePlain(t, fuel, s, u);
      TakeAllPlain(t, fuel, u, nr - 1, r);
    }
  }

  lemma EchoedPlain(t: Termios, fuel: nat, s: State, cs: seq<int>, r: State)
    requires Ok(s) && Echoed(t, fuel, s, cs) == Some(r) && Plain(t, s, r)
    ensures SameInput(s, r)
  {
    hide Terminal.Show, Terminal.ShowAll, Terminal.TermOk, PutAll, NoAsk;
    if t.echo {
      TakeAllPlain(t, fuel, SendAll(s, cs), |Held(SendAll(s, cs).write)|, r);
    }
  }

  lemma RubPlain(t: Termios, fuel: nat, s: State, r: State)
    requires Ok(s) && !AtLineStart(t, s) && RubOut(t, fuel, s, Newest(s.second)) == Some(r) && Plain(t, s, r)
    ensures r.read == s.read && LineOf(r) == Bare(Erase(t, LineOf(s)))
  {
    LineStart(t, s);
    hide Held, Terminal.TermOk, Echoed, NoAsk;
    EchoedPlain(t, fuel, s, Rub(t, Newest(s.second)), Echoed(t, fuel, s, Rub(t, Newest(s.second))).value);
  }

  lemma BareEdit(t: Termios, l: Line, key: int)
    ensures Bare(Edit(t, l, key)) == Bare(Edit(t, Bare(l), key)) && Bare(Kill(t, l)) == Bare(Kill(t, Bare(l)))
  {
    assert l.sent + Bare(l).sent == l.sent;
    assert Bare(l).(sent := l.sent + Bare(l).sent) == l;
    EditSent(t, Bare(l), l.sent, key);
    KillSent(t, Bare(l), l.sent);
    hide Edit, Kill;
  }

  lemma {:induction false} KillPlain(t: Termios, fuel: nat, s: State, r: State)
    requires Ok(s) && KillLine(t, fuel, s) == Some(r) && Plain(t, s, r)
    ensures r.read == s.read && LineOf(r) == Bare(Kill(t, LineOf(s)))
    decreases fuel
  {
    hide Held, Terminal.TermOk, Plain, RubOut, Grows, LineOf, Erase;
    LineStart(t, s);
    LineIs(s);
    if AtLineStart(t, s) {
    } else {
      var u := RubOut(t, fuel - 1, s, Newest(s.second)).value;
      RubGrows(t, fuel - 1, s, Newest(s.second), u);
      KillGrows(t, fuel - 1, u, r);
      PlainSplit(t, s, u, r);
      RubPlain(t, fuel - 1, s, u);
      KillPlain(t, fuel - 1, u, r);
      BareEdit(t, Erase(t, LineOf(s)), 0);
    }
  }

  lemma LineIs(s: State)
    requires Ok(s)
    ensures LineOf(s).held == Held(s.second) && LineOf(s).sent == [] && Bare(LineOf(s)) == LineOf(s)
  {
  }

  lemma AcceptPlain(t: Termios, fuel: nat, s: State, c: int, r: State)
    requires Ok(s) && HasRoom(s) && Accept(t, fuel, s, c) == Some(r) && Plain(t, s, r)
    ensures r.read == s.read && LineOf(r) == Bare(Append(t, LineOf(s), c))
  {
    hide Terminal.TermOk, Echoed, NoAsk;
    var k := s.(data := if Ends(t, c) then s.data + 1 else s.data);
    EchoedPlain(t, fuel, k, Echo(t, c), Echoed(t, fuel, k, Echo(t, c)).value);
    PutHeld(s.second, c);
  }

  lemma KeyPlain(t: Termios, fuel: nat, s: State, key: int, r: State)
    requires Ok(s) && HasRoom(s) && OnKey(t, fuel, s, key) == Some(r) && Plain(t, s, r)
    ensures r.read == s.read && LineOf(r) == Bare(Edit(t, LineOf(s), key))
  {
    hide Held, Terminal.TermOk, Plain, KillLine, RubOut, Accept, Kill, Append, VerbOf;
    LineStart(t, s);
    match VerbOf(t, key)
    case Ignore =>
    case KillIt => KillPlain(t, fuel, s, r);
    case EraseIt =>
      if !AtLineStart(t, s) {
        RubPlain(t, fuel, s, r);
      }
    case Pause(on) =>
    case Enter(c) => AcceptPlain(t, fuel, s, c, r);
  }

  /** copy_to_cooked is the line editor, at any room on the write queue: if nothing the console showed meanwhile
      completes ESC Z, the reader's queue, the count of lines, the stop flag and what is left on the keyboard queue
      are the editor's. */
  lemma {:induction false} CopyIsCook(t: Termios, fuel: nat, s: State, r: State)
    requires Ok(s) && CopyToCooked(t, fuel, s) == Some(r) && Plain(t, s, r)
    ensures var (m, rest) := Cook(t, LineOf(s), Held(s.read));
            Held(r.second) == m.held && r.data == m.data && r.stopped == m.stopped && Held(r.read) == rest
    decreases fuel
  {
    hide Terminal.TermOk, NoAsk, OnKey, Grows, Edit, RingOk, Held;
    RoomIs(s);
    if Held(s.read) != [] && HasRoom(s) {
      GotHeld(s.read);
      var k, key := s.(read := Got(s.read)), First(s.read);
      assert Held(s.read)[0] == key && Held(s.read)[1..] == Held(k.read);
      var u := OnKey(t, fuel - 1, k, key).value;
      KeyGrows(t, fuel - 1, k, key, u);
      CopyGrows(t, fuel - 1, u, r);
      PlainSplit(t, k, u, r);
      KeyPlain(t, fuel - 1, k, key, u);
      CopyIsCook(t, fuel - 1, u, r);
      var n := Edit(t, LineOf(s), key);
      assert Bare(n).(sent := n.sent + Bare(n).sent) == n;
      CookSent(t, Bare(n), n.sent, Held(k.read));
    }
  }

  /** A line typed at the keyboard reaches the reader: with Enter translated, keys that stand for themselves and Enter,
      waiting on the keyboard queue, are behind the reader's queue after copy_to_cooked, ended by a line feed, with one
      line more counted; whatever became of their echo. */
  lemma LineReachesReader(t: Termios, fuel: nat, s: State, r: State, cs: seq<int>)
    requires Ok(s) && CopyToCooked(t, fuel, s) == Some(r) && Plain(t, s, r)
    requires t.icrnl && !Reserved(t, 10) && TypeThemselves(t, cs) && Held(s.read) == cs + [13]
    requires |Held(s.second)| + |cs| < 1023
    ensures Held(r.second) == Held(s.second) + cs + [10] && r.data == s.data + 1 && r.stopped == s.stopped
    ensures Held(r.read) == []
  {
    hide Terminal.TermOk, NoAsk, CopyToCooked, RingOk, Held, Reserved, TypeThemselves, Cook;
    CopyIsCook(t, fuel, s, r);
    LineIs(s);
    EnterEndsLine(t, LineOf(s), cs);
  }

  /** The answer to ESC Z reaches the reader as ESC [ ? 1 ; 2 c, if no character of it has a special meaning. */
  lemma AnswerReachesReader(t: Termios, fuel: nat, s: State, r: State)
    requires Ok(s) && Respond(t, fuel, s) == Some(r) && Plain(t, s, r)
    requires TypeThemselves(t, [27, 91, 63, 49, 59, 50, 99]) && Held(s.read) == [] && |Held(s.second)| + 7 <= 1023
    ensures Held(r.second) == Held(s.second) + [27, 91, 63, 49, 59, 50, 99] && r.data == s.data && Held(r.read) == []
  {
    hide Terminal.TermOk, NoAsk, CopyToCooked, RingOk, Held, TypeThemselves, Cook, PutAll;
    PutAllHeld(s.read, REPLY);
    QueuedFits([], REPLY);
    var k := s.(read := PutAll(s.read, REPLY));
    assert [] + REPLY == REPLY == [27, 91, 63, 49, 59, 50, 99];
    CopyIsCook(t, fuel, k, r);
    LineIs(k);
    TextQueued(t, LineOf(k), REPLY);
  }
}
