/** Text on its way to the screen: exactly when the console shows its queue and nothing else, and exactly when a write
    shows the translation of its text. */
module TextWrites {
  import opened CharQueue
  import opened LineEditor
  import opened OutputText
  import opened Replies
  import opened TtyRun
  import Terminal

  /** One call of the console has gone as meant: its queue shown in order, nothing else sent, the queue empty. */
  predicate Showed(t: Termios, fuel: nat, s: State)
    requires Ok(s)
  {
    ConWrite(t, fuel, s).Some? &&
    var r := ConWrite(t, fuel, s).value;
    r.sent == s.sent && r.shown == s.shown + Held(s.write) && Held(r.write) == []
  }

  /** The console shows exactly its queue if and only if no reply disturbs it. */
  lemma ShowsQueueIff(t: Termios, s: State)
    requires Ok(s)
    ensures (exists fuel: nat :: Showed(t, fuel, s)) <==> Calm(t, s, ROOM)
  {
    if fuel: nat :| Showed(t, fuel, s) {
      TakeAllStill(t, fuel, s, ConWrite(t, fuel, s).value, ROOM);
    }
    if Calm(t, s, ROOM) {
      TakeAllCalm(t, SIZE + ROOM + 1, s, ROOM);
      assert Showed(t, SIZE + ROOM + 1, s);
    }
  }

  // ---------- filling the queue ----------

  lemma TranslatedStep(t: Termios, flag: bool, text: seq<int>)
    requires text != []
    ensures NeedsReturn(t, text[0]) && !flag ==> Translated(t, flag, text) == [13] + Translated(t, true, text)
    ensures !NeedsReturn(t, text[0]) || flag ==>
        Translated(t, flag, text) == [Sent(t, text[0])] + Translated(t, false, text[1..])
  {
    hide Sent, NeedsReturn;
    var c, x := [Sent(t, text[0])], Translated(t, false, text[1..]);
    assert [] + c == c && [13] + c + x == [13] + (c + x);
  }

  /** The first part of the translation goes on the queue: all of it, or as much as there is room for. */
  predicate Filled(s: State, u: State, all: seq<int>, rest: seq<int>)
    requires Ok(s)
  {
    && Ok(u) && |rest| <= |all|
    && var part := all[..|all| - |rest|];
       && rest == all[|part|..] && u.sent == s.sent + part && Held(u.write) == Held(s.write) + part
       && u == s.(sent := u.sent, write := u.write)
  }

  lemma {:induction false} FillIs(t: Termios, s: State, flag: bool, text: seq<int>)
    requires Ok(s)
    ensures var (u, f, rest) := FillQueue(t, s, flag, text);
            && Filled(s, u, Translated(t, flag, text), Translated(t, f, rest))
            && (rest == [] || |Held(u.write)| == ROOM) && (rest == [] && text != [] ==> !f)
    decreases |text|, if flag then 0 else 1
  {
    var all := Translated(t, flag, text);
    if text == [] || |Held(s.write)| == SIZE - 1 {
      assert all[..0] == [] && s.sent + [] == s.sent && Held(s.write) + [] == Held(s.write);
    } else {
      var again := NeedsReturn(t, text[0]) && !flag;
      var c := if again then 13 else Sent(t, text[0]);
      var m := Send(s, c);
      TranslatedStep(t, flag, text);
      PutHeld(s.write, c);
      FillIs(t, m, again, if again then text else text[1..]);
      FilledMore(s, m, c, FillQueue(t, s, flag, text).0, all,
          Translated(t, FillQueue(t, s, flag, text).1, FillQueue(t, s, flag, text).2));
    }
  }

  lemma FilledMore(s: State, m: State, c: int, u: State, all: seq<int>, rest: seq<int>)
    requires Ok(s) && m == Send(s, c) && all != [] && all[0] == c && Held(m.write) == Held(s.write) + [c]
    requires Filled(m, u, all[1..], rest)
    ensures Filled(s, u, all, rest)
  {
    hide Held, RingOk, Terminal.TermOk;
    var part := all[1..][..|all| - 1 - |rest|];
    assert all[..|all| - |rest|] == [c] + part;
    assert s.sent + ([c] + part) == s.sent + [c] + part;
    assert Held(s.write) + ([c] + part) == Held(s.write) + [c] + part;
  }

  lemma TranslatedEmpty(t: Termios, flag: bool, text: seq<int>)
    ensures Translated(t, flag, text) == [] <==> text == []
  {
  }

  // ---------- streams in chunks ----------

  /** The console is called anew after every `left` characters; what it does then does not depend on what follows. */
  lemma {:induction false} CalmSplit(t: Termios, term: Terminal.Term, l: Line, input: seq<int>, a: seq<int>,
      b: seq<int>, left: nat)
    requires Terminal.TermOk(term) && |a| == left && left > 0
    ensures var (m, rest) := Answered(t, term, l, input, a);
            CalmText(t, term, l, input, a + b, left) <==>
            CalmText(t, term, l, input, a, left) && CalmText(t, Terminal.ShowAll(term, a, t.erase), m, rest, b, ROOM)
    decreases |a|
  {
    hide Terminal.Show, Cook, Queued, QuietCook, Terminal.TermOk;
    var q := a + b;
    var u := Terminal.Show(term, a[0], t.erase);
    assert q[0] == a[0] && q[1..] == a[1..] + b;
    assert a == [a[0]] + a[1..];
    Terminal.PiecesJoin(term, [a[0]], a[1..], t.erase);
    Terminal.Single(term, a[0], t.erase);
    var (m, rest) := if Asks(term, a[0]) then Cook(t, l, Queued(input, REPLY)) else (l, input);
    if |a| > 1 {
      CalmSplit(t, u, m, rest, a[1..], b, left - 1);
    } else {
      assert a[1..] == [] && [] + b == b && Terminal.ShowAll(u, [], t.erase) == u;
    }
  }

  // ---------- a whole write ----------

  /** A write never sends less than its translation; and unless more was sent, what is shown and left adds up to at
      least what there was and the translation. */
  lemma {:induction false} WriteGrows(t: Termios, fuel: nat, s: State, flag: bool, text: seq<int>, r: State, g: bool)
    requires Ok(s) && WriteText(t, fuel, s, flag, text) == Some((r, g))
    ensures Ok(r) && |r.sent| >= |s.sent| + |Translated(t, flag, text)|
    ensures |r.sent| == |s.sent| + |Translated(t, flag, text)| ==>
              |r.shown| + |Held(r.write)| >= |s.shown| + |Held(s.write)| + |Translated(t, flag, text)|
    decreases |text|, if flag then 0 else 1
  {
    if text != [] {
      var (u, f, rest) := FillQueue(t, s, flag, text);
      var v := ConWrite(t, fuel, u).value;
      FillIs(t, s, flag, text);
      ConWriteGrows(t, fuel, u, v);
      WriteGrows(t, fuel, v, f, rest, r, g);
    }
  }

  /** The write has returned, and the console has shown what was queued before it, the translation of the text, and
      nothing else; the queue is empty and no carriage return is owed. */
  predicate Wrote(t: Termios, fuel: nat, s: State, flag: bool, text: seq<int>)
    requires Ok(s)
  {
    WriteText(t, fuel, s, flag, text).Some? &&
    var (r, g) := WriteText(t, fuel, s, flag, text).value;
    var all := Translated(t, flag, text);
    r.sent == s.sent + all && r.shown == s.shown + Held(s.write) + all && Held(r.write) == [] && !g
  }

  /** What the screen is to show: what is queued, then the translation. */
  function Stream(t: Termios, s: State, flag: bool, text: seq<int>): seq<int>
    requires Ok(s)
  {
    Held(s.write) + Translated(t, flag, text)
  }

  predicate CalmWrite(t: Termios, s: State, flag: bool, text: seq<int>)
    requires Ok(s)
  {
    |Held(s.write)| < ROOM && CalmText(t, s.term, LineOf(s), Held(s.read), Stream(t, s, flag, text), ROOM)
  }

  /** What is left to show after one turn of the loop is calm. */
  predicate CalmRest(t: Termios, u: State, rest: seq<int>)
    requires Ok(u)
  {
    var (m, input) := Answered(t, u.term, LineOf(u), Held(u.read), Held(u.write));
    CalmText(t, Terminal.ShowAll(u.term, Held(u.write), t.erase), m, input, rest, ROOM)
  }

  /** One turn seen on the stream: the queue is filled with its first part. */
  lemma TurnSplits(t: Termios, s: State, flag: bool, text: seq<int>)
    requires Ok(s) && text != [] && |Held(s.write)| < ROOM
    ensures var (u, f, rest) := FillQueue(t, s, flag, text);
            && Stream(t, s, flag, text) == Held(u.write) + Translated(t, f, rest)
            && (CalmWrite(t, s, flag, text) <==> Calm(t, u, ROOM) && CalmRest(t, u, Translated(t, f, rest)))
  {
    hide Terminal.Show, Terminal.ShowAll, Terminal.TermOk, Answered, RingOk, CalmText;
    var (u, f, rest) := FillQueue(t, s, flag, text);
    FillIs(t, s, flag, text);
    TranslatedEmpty(t, f, rest);
    var a, b := Held(u.write), Translated(t, f, rest);
    assert Stream(t, s, flag, text) == a + b && u.term == s.term && LineOf(u) == LineOf(s) && u.read == s.read;
    CalmEmpty(t, u);
    hide FillQueue, Translated, Held, Answered, LineOf, Terminal.ShowAll, Terminal.TermOk, CalmText, RingOk, Filled;
    if rest == [] {
      assert a + b == a;
    } else {
      CalmSplit(t, u.term, LineOf(u), Held(u.read), a, b, ROOM);
    }
  }

  lemma CalmEmpty(t: Termios, u: State)
    requires Ok(u)
    ensures CalmRest(t, u, [])
  {
    hide Terminal.Show, Terminal.ShowAll, Terminal.TermOk, Answered;
  }

  /** The console's call in a turn, if it went as meant, leaves just the rest of the stream to do. */
  lemma TurnLeaves(t: Termios, u: State, v: State, f: bool, rest: seq<int>)
    requires Ok(u) && Exact(t, u, v)
    ensures Stream(t, v, f, rest) == Translated(t, f, rest)
    ensures CalmWrite(t, v, f, rest) <==> CalmRest(t, u, Translated(t, f, rest))
  {
    hide CalmText, Answered, Translated, Terminal.ShowAll;
    assert [] + Translated(t, f, rest) == Translated(t, f, rest);
  }

  /** A write that comes out right was calm. */
  lemma {:induction false} WroteIsCalm(t: Termios, fuel: nat, s: State, flag: bool, text: seq<int>, r: State, g: bool)
    requires Ok(s) && text != [] && WriteText(t, fuel, s, flag, text) == Some((r, g))
    requires var n := |Translated(t, flag, text)|;
             |r.sent| == |s.sent| + n && |r.shown| == |s.shown| + |Held(s.write)| + n && Held(r.write) == []
    ensures CalmWrite(t, s, flag, text)
    decreases |text|, if flag then 0 else 1
  {
    var (u, f, rest) := FillQueue(t, s, flag, text);
    var v := ConWrite(t, fuel, u).value;
    FillIs(t, s, flag, text);
    TurnSplits(t, s, flag, text);
    CalmEmpty(t, u);
    TranslatedEmpty(t, f, rest);
    TurnStill(t, fuel, u, v, f, rest, r, g);
    if rest != [] {
      hide FillQueue, Translated, CalmRest, Calm, Exact;
      TurnLeaves(t, u, v, f, rest);
      WroteIsCalm(t, fuel, v, f, rest, r, g);
    }
  }

  lemma TurnStill(t: Termios, fuel: nat, u: State, v: State, f: bool, rest: seq<int>, r: State, g: bool)
    requires Ok(u) && ConWrite(t, fuel, u) == Some(v) && WriteText(t, fuel, v, f, rest) == Some((r, g))
    requires var n := |Translated(t, f, rest)|;
             |r.sent| == |u.sent| + n && |r.shown| == |u.shown| + |Held(u.write)| + n && Held(r.write) == []
    ensures Calm(t, u, ROOM) && Exact(t, u, v)
  {
    ConWriteGrows(t, fuel, u, v);
    WriteGrows(t, fuel, v, f, rest, r, g);
    TakeAllStill(t, fuel, u, v, ROOM);
  }

  /** A calm write comes out right, and never sleeps. */
  lemma {:induction false} CalmIsWrote(t: Termios, fuel: nat, s: State, flag: bool, text: seq<int>)
    requires Ok(s) && text != [] && fuel > SIZE + ROOM && CalmWrite(t, s, flag, text)
    ensures Wrote(t, fuel, s, flag, text)
    decreases |text|, if flag then 0 else 1
  {
    var (u, f, rest) := FillQueue(t, s, flag, text);
    FillIs(t, s, flag, text);
    TurnSplits(t, s, flag, text);
    TakeAllCalm(t, fuel, u, ROOM);
    var v := ConWrite(t, fuel, u).value;
    TranslatedEmpty(t, f, rest);
    TurnLeaves(t, u, v, f, rest);
    if rest != [] {
      CalmIsWrote(t, fuel, v, f, rest);
    }
    TurnWrote(t, fuel, s, flag, text);
  }

  lemma TurnWrote(t: Termios, fuel: nat, s: State, flag: bool, text: seq<int>)
    requires Ok(s) && text != [] && |Held(s.write)| < ROOM
    requires var (u, f, rest) := FillQueue(t, s, flag, text);
             && ConWrite(t, fuel, u).Some?
             && var v := ConWrite(t, fuel, u).value;
                Exact(t, u, v) && (rest != [] ==> Wrote(t, fuel, v, f, rest))
    ensures Wrote(t, fuel, s, flag, text)
  {
    hide Terminal.Show, Terminal.ShowAll, Terminal.TermOk, TakeAll, TakeOne, Answered, RingOk;
    var (u, f, rest) := FillQueue(t, s, flag, text);
    FillIs(t, s, flag, text);
    TranslatedEmpty(t, f, rest);
    TurnStep(t, fuel, s, flag, text);
    var v := ConWrite(t, fuel, u).value;
    var (r, g) := WriteText(t, fuel, v, f, rest).value;
    var more := Translated(t, f, rest);
    if rest == [] {
      Appended(v, r, more);
    } else {
      assert v.shown + Held(v.write) + more == v.shown + more;
    }
    hide FillQueue, ConWrite, WriteText, Translated, Terminal.ShowAll, Answered, Terminal.TermOk, RingOk;
    SumsUp(s, u, v, r, Translated(t, flag, text), more);
  }

  lemma TurnStep(t: Termios, fuel: nat, s: State, flag: bool, text: seq<int>)
    requires Ok(s) && text != [] && |Held(s.write)| < ROOM
    ensures var (u, f, rest) := FillQueue(t, s, flag, text);
            ConWrite(t, fuel, u).Some? ==>
                WriteText(t, fuel, s, flag, text) == WriteText(t, fuel, ConWrite(t, fuel, u).value, f, rest)
  {
  }

  lemma Appended(v: State, r: State, more: seq<int>)
    requires r == v && more == []
    ensures r.sent == v.sent + more && r.shown == v.shown + more
  {
  }

  /** The accounts of one turn and of the rest. */
  lemma SumsUp(s: State, u: State, v: State, r: State, all: seq<int>, more: seq<int>)
    requires Ok(s) && Filled(s, u, all, more) && v.sent == u.sent && v.shown == u.shown + Held(u.write)
    requires r.sent == v.sent + more && r.shown == v.shown + more
    ensures r.sent == s.sent + all && r.shown == s.shown + Held(s.write) + all
  {
    hide Held, Terminal.TermOk, RingOk;
    var part := all[..|all| - |more|];
    assert all == part + more;
    assert s.sent + all == s.sent + part + more;
    assert s.shown + Held(s.write) + all == s.shown + (Held(s.write) + part) + more;
  }

  /** A write of a text returns with exactly the translation shown if and only if the queue is not full when it
      starts and no reply disturbs the stream. Then the loop never sleeps; a write that starts with a full queue
      sleeps for ever. */
  lemma WritesTextIff(t: Termios, s: State, flag: bool, text: seq<int>)
    requires Ok(s) && text != []
    ensures (exists fuel: nat :: Wrote(t, fuel, s, flag, text)) <==> CalmWrite(t, s, flag, text)
    ensures |Held(s.write)| == ROOM ==> forall fuel: nat :: WriteText(t, fuel, s, flag, text) == None
  {
    if fuel: nat :| Wrote(t, fuel, s, flag, text) {
      var (r, g) := WriteText(t, fuel, s, flag, text).value;
      WroteIsCalm(t, fuel, s, flag, text, r, g);
    }
    if CalmWrite(t, s, flag, text) {
      CalmIsWrote(t, SIZE + ROOM + 1, s, flag, text);
    }
  }
}
