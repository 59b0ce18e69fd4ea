/** When the console's answers to ESC Z do no harm: exact conditions, on what the queues hold before the call. */
module Replies {
  import opened CharQueue
  import opened LineEditor
  import opened TtyRun
  import Terminal

  /** The line being edited, with nothing sent for it yet. */
  function LineOf(s: State): Line
    requires Ok(s)
  {
    Line(Held(s.second), s.data, [], s.stopped)
  }

  /** Copying one key calls the console for nothing: no echo, or nothing to echo it for, or nothing to write at all.
      `idle` says that the write queue is empty. */
  predicate QuietKey(t: Termios, l: Line, key: int, idle: bool) {
    !t.echo || Edit(t, l, key).held == l.held || (idle && Edit(t, l, key).sent == l.sent)
  }

  predicate QuietCook(t: Termios, l: Line, input: seq<int>, idle: bool)
    decreases |input|
  {
    input == [] || |l.held| == ROOM || (QuietKey(t, l, input[0], idle)
        && QuietCook(t, Edit(t, l, input[0]), input[1..], idle))
  }

  /** Only the line has been edited. */
  predicate Settled(s: State, r: State, l: Line)
    requires Ok(s)
  {
    && Ok(r) && r.term == s.term && r.read == s.read && r.write == s.write && r.sent == s.sent && r.shown == s.shown
    && LineOf(r) == l
  }

  predicate Still(s: State, r: State) {
    |r.sent| == |s.sent| && |r.shown| == |s.shown|
  }

  lemma EchoStill(t: Termios, fuel: nat, s: State, cs: seq<int>, r: State)
    requires Ok(s) && Echoed(t, fuel, s, cs) == Some(r) && Still(s, r)
    ensures r == s && (t.echo ==> cs == [] && Held(s.write) == [])
  {
    if t.echo {
      var u := SendAll(s, cs);
      ConWriteGrows(t, fuel, u, r);
      assert cs == [];
      assert u == s;
    }
  }

  lemma EchoNothing(t: Termios, fuel: nat, s: State, cs: seq<int>)
    requires Ok(s) && (t.echo ==> cs == [] && Held(s.write) == [])
    ensures Echoed(t, fuel, s, cs) == Some(s)
  {
    if t.echo {
      assert s.sent + cs == s.sent;
      assert SendAll(s, cs) == s;
      assert TakeAll(t, fuel, s, 0) == Some(s);
    }
  }

  lemma LineStart(t: Termios, s: State)
    requires Ok(s)
    ensures AtLineStart(t, s) <==> Held(s.second) == [] || Ends(t, Last(Held(s.second)))
    ensures !AtLineStart(t, s) ==>
        Newest(s.second) == Last(Held(s.second)) && Held(Dropped(s.second)) == Front(Held(s.second))
  {
    DroppedHeld(s.second);
  }

  lemma {:induction false} KillStill(t: Termios, fuel: nat, s: State, r: State)
    requires Ok(s) && KillLine(t, fuel, s) == Some(r) && Still(s, r)
    ensures Settled(s, r, Kill(t, LineOf(s))) && (t.echo ==> r == s)
    decreases fuel
  {
    LineStart(t, s);
    if !AtLineStart(t, s) {
      var c := Newest(s.second);
      var e := Echoed(t, fuel - 1, s, Rub(t, c)).value;
      var u := RubOut(t, fuel - 1, s, c).value;
      EchoGrows(t, fuel - 1, s, Rub(t, c), e);
      KillGrows(t, fuel - 1, u, r);
      EchoStill(t, fuel - 1, s, Rub(t, c), e);
      assert LineOf(u) == Erase(t, LineOf(s));
      KillStill(t, fuel - 1, u, r);
    }
  }

  lemma {:induction false} KillQuiet(t: Termios, fuel: nat, s: State)
    requires Ok(s) && fuel >= |Held(s.second)| && (t.echo ==> AtLineStart(t, s))
    ensures KillLine(t, fuel, s).Some? && Settled(s, KillLine(t, fuel, s).value, Kill(t, LineOf(s)))
    decreases fuel
  {
    LineStart(t, s);
    if !AtLineStart(t, s) {
      var c := Newest(s.second);
      EchoNothing(t, fuel - 1, s, Rub(t, c));
      var u := RubOut(t, fuel - 1, s, c).value;
      assert LineOf(u) == Erase(t, LineOf(s));
      KillQuiet(t, fuel - 1, u);
    }
  }

  /** A key that leaves the accounts as they are was a quiet one. */
  lemma KeyStill(t: Termios, fuel: nat, s: State, key: int, r: State)
    requires Ok(s) && HasRoom(s) && OnKey(t, fuel, s, key) == Some(r) && Still(s, r)
    ensures QuietKey(t, LineOf(s), key, Held(s.write) == []) && Settled(s, r, Edit(t, LineOf(s), key))
  {
    LineStart(t, s);
    hide Held, KillLine, RubOut, Accept, Kill, Append, Echo, VerbOf;
    match VerbOf(t, key)
    case Ignore =>
    case KillIt => KillStill(t, fuel, s, r);
    case EraseIt =>
      if !AtLineStart(t, s) {
        RubStill(t, fuel, s, Newest(s.second), r);
      }
    case Pause(on) =>
    case Enter(c) => AcceptStill(t, fuel, s, c, r);
  }

  lemma RubStill(t: Termios, fuel: nat, s: State, c: int, r: State)
    requires Ok(s) && RubOut(t, fuel, s, c) == Some(r) && Still(s, r)
    ensures !t.echo && r == s.(second := Dropped(s.second))
  {
    EchoStill(t, fuel, s, Rub(t, c), Echoed(t, fuel, s, Rub(t, c)).value);
  }

  lemma AcceptStill(t: Termios, fuel: nat, s: State, c: int, r: State)
    requires Ok(s) && HasRoom(s) && Accept(t, fuel, s, c) == Some(r) && Still(s, r)
    ensures Settled(s, r, Append(t, LineOf(s), c)) && (t.echo ==> Echo(t, c) == [] && Held(s.write) == [])
  {
    var k := s.(data := if Ends(t, c) then s.data + 1 else s.data);
    EchoStill(t, fuel, k, Echo(t, c), Echoed(t, fuel, k, Echo(t, c)).value);
    PutHeld(s.second, c);
    assert [] + Echo(t, c) == Echo(t, c);
  }

  /** And a quiet key does leave them. */
  lemma KeyQuiet(t: Termios, fuel: nat, s: State, key: int)
    requires Ok(s) && HasRoom(s) && fuel >= ROOM && QuietKey(t, LineOf(s), key, Held(s.write) == [])
    ensures OnKey(t, fuel, s, key).Some? && Settled(s, OnKey(t, fuel, s, key).value, Edit(t, LineOf(s), key))
  {
    LineStart(t, s);
    hide Held, KillLine, RubOut, Accept, Kill, Append, Echo, VerbOf;
    match VerbOf(t, key)
    case Ignore =>
    case KillIt =>
      if t.echo && !AtLineStart(t, s) {
        KillShortens(t, LineOf(s));
      }
      KillQuiet(t, fuel, s);
    case EraseIt =>
      if !AtLineStart(t, s) {
        RubQuiet(t, fuel, s);
      }
    case Pause(on) =>
    case Enter(c) => AcceptQuiet(t, fuel, s, c);
  }

  lemma RubQuiet(t: Termios, fuel: nat, s: State)
    requires Ok(s) && !AtLineStart(t, s) && !t.echo
    ensures RubOut(t, fuel, s, Newest(s.second)) == Some(s.(second := Dropped(s.second)))
  {
  }

  /** Killing a line that is not empty sends rubouts. */
  lemma {:induction false} KillShortens(t: Termios, l: Line)
    requires t.echo && l.held != [] && !Ends(t, Last(l.held))
    ensures |Kill(t, l).held| < |l.held| && |Kill(t, l).sent| > |l.sent|
    decreases |l.held|
  {
    var m := Erase(t, l);
    if m.held != [] && !Ends(t, Last(m.held)) {
      KillShortens(t, m);
    }
  }

  lemma AcceptQuiet(t: Termios, fuel: nat, s: State, c: int)
    requires Ok(s) && HasRoom(s) && (t.echo ==> Held(s.write) == [] && Echo(t, c) == [])
    ensures Accept(t, fuel, s, c).Some? && Settled(s, Accept(t, fuel, s, c).value, Append(t, LineOf(s), c))
  {
    var k := s.(data := if Ends(t, c) then s.data + 1 else s.data);
    EchoNothing(t, fuel, k, Echo(t, c));
    PutHeld(s.second, c);
    assert [] + Echo(t, c) == Echo(t, c);
  }

  // ---------- a whole reply ----------

  /** Copying has done what the line editor does, and neither sent nor shown anything. */
  predicate CookedQuietly(t: Termios, s: State, r: State)
    requires Ok(s)
  {
    && Ok(r) && r.term == s.term && r.write == s.write && r.sent == s.sent && r.shown == s.shown
    && (LineOf(r), Held(r.read)) == Cook(t, LineOf(s), Held(s.read))
  }

  lemma {:induction false} CopyStill(t: Termios, fuel: nat, s: State, r: State)
    requires Ok(s) && CopyToCooked(t, fuel, s) == Some(r) && Still(s, r)
    ensures QuietCook(t, LineOf(s), Held(s.read), Held(s.write) == []) && CookedQuietly(t, s, r)
    decreases fuel
  {
    hide OnKey, Edit, QuietKey, Held, Grows;
    RoomIs(s);
    if Held(s.read) != [] && HasRoom(s) {
      var k := s.(read := Got(s.read));
      var key := First(s.read);
      var u := OnKey(t, fuel - 1, k, key).value;
      GotHeld(s.read);
      assert Held(s.read)[0] == key && Held(s.read)[1..] == Held(k.read);
      SplitStill(t, fuel, k, key, u, r);
      KeyStill(t, fuel - 1, k, key, u);
      CopyStill(t, fuel - 1, u, r);
    }
  }

  lemma RoomIs(s: State)
    requires Ok(s)
    ensures HasRoom(s) <==> |LineOf(s).held| != ROOM
  {
  }

  /** If nothing was sent or shown in all, nothing was on the way. */
  lemma SplitStill(t: Termios, fuel: nat, k: State, key: int, u: State, r: State)
    requires Ok(k) && fuel > 0 && OnKey(t, fuel - 1, k, key) == Some(u) && CopyToCooked(t, fuel - 1, u) == Some(r)
        && Still(k, r)
    ensures Still(k, u) && Still(u, r)
  {
    KeyGrows(t, fuel - 1, k, key, u);
    CopyGrows(t, fuel - 1, u, r);
  }

  lemma {:induction false} CopyQuiet(t: Termios, fuel: nat, s: State)
    requires Ok(s) && fuel >= |Held(s.read)| + ROOM && QuietCook(t, LineOf(s), Held(s.read), Held(s.write) == [])
    ensures CopyToCooked(t, fuel, s).Some? && CookedQuietly(t, s, CopyToCooked(t, fuel, s).value)
    decreases fuel
  {
    hide OnKey, Edit, QuietKey, Held;
    RoomIs(s);
    if Held(s.read) != [] && HasRoom(s) {
      var k := s.(read := Got(s.read));
      var key := First(s.read);
      GotHeld(s.read);
      assert Held(s.read)[0] == key && Held(s.read)[1..] == Held(k.read);
      KeyQuiet(t, fuel - 1, k, key);
      CopyQuiet(t, fuel - 1, OnKey(t, fuel - 1, k, key).value);
    }
  }

  // ---------- a queue of characters ----------

  /** No reply asked for by q disturbs the console. `left` says after how many characters the console is called anew. */
  predicate CalmText(t: Termios, term: Terminal.Term, l: Line, input: seq<int>, q: seq<int>, left: nat)
    requires Terminal.TermOk(term)
    decreases |q|
  {
    q == [] ||
      (var next := Next(left);
       var u := Terminal.Show(term, q[0], t.erase);
       if Asks(term, q[0]) then
         var reply := Queued(input, REPLY);
         var (m, rest) := Cook(t, l, reply);
         QuietCook(t, l, reply, |q| == 1 || left <= 1) && CalmText(t, u, m, rest, q[1..], next)
       else CalmText(t, u, l, input, q[1..], next))
  }

  /** The line and the keyboard queue after the replies. */
  function Answered(t: Termios, term: Terminal.Term, l: Line, input: seq<int>, q: seq<int>): (Line, seq<int>)
    requires Terminal.TermOk(term)
    decreases |q|
  {
    if q == [] then (l, input)
    else
      var u := Terminal.Show(term, q[0], t.erase);
      if Asks(term, q[0]) then
        var (m, rest) := Cook(t, l, Queued(input, REPLY));
        Answered(t, u, m, rest, q[1..])
      else Answered(t, u, l, input, q[1..])
  }

  /** The console has shown its queue in order, nothing else, and emptied it; replies have only been typed. */
  predicate Exact(t: Termios, s: State, r: State)
    requires Ok(s)
  {
    && Ok(r) && r.sent == s.sent && r.shown == s.shown + Held(s.write) && Held(r.write) == []
    && r.term == Terminal.ShowAll(s.term, Held(s.write), t.erase)
    && (LineOf(r), Held(r.read)) == Answered(t, s.term, LineOf(s), Held(s.read), Held(s.write))
  }

  predicate Calm(t: Termios, s: State, left: nat)
    requires Ok(s)
  {
    CalmText(t, s.term, LineOf(s), Held(s.read), Held(s.write), left)
  }

  /** One character taken. */
  lemma TakeHeld(t: Termios, s: State)
    requires Ok(s) && Held(s.write) != []
    ensures var u, q := Take(t, s), Held(s.write);
            && First(s.write) == q[0] && Held(u.write) == q[1..] && u.shown == s.shown + [q[0]]
            && u.term == Terminal.Show(s.term, q[0], t.erase)
            && u.sent == s.sent && u.read == s.read && LineOf(u) == LineOf(s)
  {
    GotHeld(s.write);
  }

  lemma ExactTrans(t: Termios, s: State, u: State, r: State)
    requires Ok(s) && Held(s.write) != [] && Ok(u) && Exact(t, u, r)
    requires Held(u.write) == Held(s.write)[1..] && u.shown == s.shown + [Held(s.write)[0]] && u.sent == s.sent
    requires u.term == Terminal.Show(s.term, Held(s.write)[0], t.erase)
    requires var q := Held(s.write);
             if Asks(s.term, q[0]) then (LineOf(u), Held(u.read)) == Cook(t, LineOf(s), Queued(Held(s.read), REPLY))
             else LineOf(u) == LineOf(s) && u.read == s.read
    ensures Exact(t, s, r)
  {
    hide Held, Terminal.Show, Terminal.ShowAll, Cook, Queued, Terminal.TermOk;
    var q := Held(s.write);
    assert q == [q[0]] + q[1..];
    Terminal.PiecesJoin(s.term, [q[0]], q[1..], t.erase);
    Terminal.Single(s.term, q[0], t.erase);
    assert s.shown + q == s.shown + [q[0]] + q[1..];
  }

  lemma {:induction false} TakeAllStill(t: Termios, fuel: nat, s: State, r: State, left: nat)
    requires Ok(s) && TakeAll(t, fuel, s, |Held(s.write)|) == Some(r) && left >= |Held(s.write)|
    requires |r.sent| == |s.sent| && |r.shown| == |s.shown| + |Held(s.write)|
    ensures Calm(t, s, left) && Exact(t, s, r)
    decreases |Held(s.write)|
  {
    hide Terminal.Show, Cook, Queued, QuietCook, TakeOne, Take, RingOk;
    var q := Held(s.write);
    if q == [] {
      assert s.shown + q == s.shown;
    } else {
      TakeHeld(t, s);
      var k := Take(t, s);
      var u := TakeOne(t, fuel, s).value;
      TakeOneIs(t, fuel, s);
      SplitTake(t, fuel, s, u, r);
      if AsksNow(s) {
        AskStill(t, fuel - 1, k, u);
      }
      TakeAllStill(t, fuel, u, r, Next(left));
      ExactTrans(t, s, u, r);
    }
  }

  lemma TakeOneIs(t: Termios, fuel: nat, s: State)
    requires Ok(s) && TakeOne(t, fuel, s).Some?
    ensures if AsksNow(s) then fuel > 0 && TakeOne(t, fuel, s) == Respond(t, fuel - 1, Take(t, s))
            else TakeOne(t, fuel, s) == Some(Take(t, s))
  {
  }

  lemma SplitTake(t: Termios, fuel: nat, s: State, u: State, r: State)
    requires Ok(s) && Held(s.write) != [] && TakeOne(t, fuel, s) == Some(u)
    requires TakeAll(t, fuel, u, |Held(s.write)| - 1) == Some(r)
    requires |r.sent| == |s.sent| && |r.shown| == |s.shown| + |Held(s.write)|
    ensures Still(Take(t, s), u) && |u.sent| == |s.sent| && |r.shown| == |u.shown| + |Held(s.write)| - 1
  {
    hide TakeAll, TakeOne, Held, Terminal.ShowAll, Terminal.Show, Terminal.TermOk, RingOk;
    TakeOneGrows(t, fuel, s, u);
    TakeAllGrows(t, fuel, u, |Held(s.write)| - 1, r);
  }

  lemma AskStill(t: Termios, fuel: nat, k: State, u: State)
    requires Ok(k) && Respond(t, fuel, k) == Some(u) && Still(k, u)
    ensures QuietCook(t, LineOf(k), Queued(Held(k.read), REPLY), Held(k.write) == [])
    ensures Settled(k.(read := u.read), u, LineOf(u))
        && (LineOf(u), Held(u.read)) == Cook(t, LineOf(k), Queued(Held(k.read), REPLY))
  {
    var m := k.(read := PutAll(k.read, REPLY));
    PutAllHeld(k.read, REPLY);
    hide PutAll, Held, Queued, Cook, QuietCook;
    CopyStill(t, fuel, m, u);
  }

  lemma AskQuiet(t: Termios, fuel: nat, k: State)
    requires Ok(k) && fuel >= SIZE + ROOM && QuietCook(t, LineOf(k), Queued(Held(k.read), REPLY), Held(k.write) == [])
    ensures Respond(t, fuel, k).Some?
    ensures var u := Respond(t, fuel, k).value;
            Settled(k.(read := u.read), u, LineOf(u))
                && (LineOf(u), Held(u.read)) == Cook(t, LineOf(k), Queued(Held(k.read), REPLY))
  {
    var m := k.(read := PutAll(k.read, REPLY));
    PutAllHeld(k.read, REPLY);
    hide PutAll, Queued, Cook, QuietCook;
    CopyQuiet(t, fuel, m);
  }

  function Next(left: nat): nat {
    if left <= 1 then ROOM else left - 1
  }

  /** One calm character: where it leads. */
  lemma TakeOneCalm(t: Termios, fuel: nat, s: State, left: nat)
    requires Ok(s) && fuel > SIZE + ROOM && left >= |Held(s.write)| > 0 && Calm(t, s, left)
    ensures TakeOne(t, fuel, s).Some?
    ensures var u, q := TakeOne(t, fuel, s).value, Held(s.write);
            && Held(u.write) == q[1..] && u.shown == s.shown + [q[0]] && u.sent == s.sent
            && u.term == Terminal.Show(s.term, q[0], t.erase)
            && (if Asks(s.term, q[0]) then (LineOf(u), Held(u.read)) == Cook(t, LineOf(s), Queued(Held(s.read), REPLY))
                else LineOf(u) == LineOf(s) && u.read == s.read)
            && Calm(t, u, Next(left))
  {
    TakeHeld(t, s);
    hide Held, Take, Terminal.Show, Cook, Queued, QuietCook, Respond;
    if AsksNow(s) {
      AskQuiet(t, fuel - 1, Take(t, s));
    }
  }

  lemma {:induction false} TakeAllCalm(t: Termios, fuel: nat, s: State, left: nat)
    requires Ok(s) && fuel > SIZE + ROOM && left >= |Held(s.write)| && Calm(t, s, left)
    ensures TakeAll(t, fuel, s, |Held(s.write)|).Some? && Exact(t, s, TakeAll(t, fuel, s, |Held(s.write)|).value)
    decreases |Held(s.write)|
  {
    if Held(s.write) == [] {
      assert s.shown + Held(s.write) == s.shown;
    } else {
      TakeOneCalm(t, fuel, s, left);
      hide Held, TakeOne, Calm, Exact;
      var u := TakeOne(t, fuel, s).value;
      TakeAllCalm(t, fuel, u, Next(left));
      ExactTrans(t, s, u, TakeAll(t, fuel, u, |Held(u.write)|).value);
    }
  }
}
