/** What every key does to the reader's queue, in plain numbers and flag by flag (copy_to_cooked,
    drivers/char/tty/tty_io.c:81-164), and what a whole line ended with the Enter key leaves there. The functions the
    line editor is made of are not used to say it. */
module KeyMeanings {
  import opened LineEditor

  /** Key k comes to the editor as character d: 13 is Enter, 10 a line feed, 65 to 90 are the capital letters. */
  predicate Arrives(t: Termios, k: int, d: int) {
    if k == 13 then (if t.icrnl then d == 10 else d == 13 && !t.igncr)
    else if k == 10 then d == if t.inlcr then 13 else 10
    else if 65 <= k <= 90 then d == if t.iuclc then k + 32 else k
    else d == k
  }

  /** A key comes as one character, or not at all: that is Enter when it is not translated and is to be ignored. */
  lemma ArrivesAsOne(t: Termios, k: int, d: int, e: int)
    ensures Arrives(t, k, d) && Arrives(t, k, e) ==> d == e
    ensures (exists x :: Arrives(t, k, x)) <==> !(k == 13 && !t.icrnl && t.igncr)
  {
    if !(k == 13 && !t.icrnl && t.igncr) {
      var x := if k == 13 && t.icrnl then 10 else if k == 10 && t.inlcr then 13
               else if 65 <= k <= 90 && t.iuclc then k + 32 else k;
      assert Arrives(t, k, x);
    }
  }

  /** The queue is empty or stands right behind a line end. */
  predicate AtStart(t: Termios, h: seq<int>) {
    h == [] || h[|h| - 1] == 10 || h[|h| - 1] == t.eof
  }

  /** The character has an editing, flow control or signal meaning. */
  predicate Reserved(t: Termios, d: int) {
    || (t.canon && (d == t.kill || d == t.erase || d == t.stop || d == t.start))
    || (t.isig && (d == t.intr || d == t.quit))
  }

  /** It has a signal meaning and no other that comes first. */
  predicate SignalOnly(t: Termios, d: int) {
    && t.isig && (d == t.intr || d == t.quit)
    && !(t.canon && (d == t.kill || d == t.erase || d == t.stop || d == t.start))
  }

  /** What the echo of a character is. */
  predicate EchoIs(t: Termios, d: int, out: seq<int>) {
    if !t.echo then out == []
    else if d == 10 then out == [10, 13]
    else if d >= 32 then out == [d]
    else out == if t.echoctl then [94, d + 64] else []
  }

  /** A key that is dropped does nothing. */
  lemma Dropped(t: Termios, s: Line, k: int)
    requires |s.held| < 1023 && k == 13 && !t.icrnl && t.igncr
    ensures Cook(t, s, [k]) == (s, [])
  {
    OneKey(t, s, k);
  }

  lemma OneKey(t: Termios, s: Line, k: int)
    requires |s.held| < 1023
    ensures Cook(t, s, [k]) == (Edit(t, s, k), [])
  {
    assert [k][1..] == [];
  }

  /** A character without a special meaning is queued; the lines are counted by line feeds and ends of file. */
  lemma Queued(t: Termios, s: Line, k: int, d: int)
    requires |s.held| < 1023 && Arrives(t, k, d) && !Reserved(t, d)
    ensures var (r, rest) := Cook(t, s, [k]);
            && rest == [] && r.held == s.held + [d] && r.stopped == s.stopped
            && r.data == s.data + (if d == 10 || d == t.eof then 1 else 0)
            && s.sent <= r.sent && EchoIs(t, d, r.sent[|s.sent|..])
  {
    OneKey(t, s, k);
    assert Edit(t, s, k).sent == s.sent + Echo(t, d);
  }

  /** The erase key takes the last character of the line back, and nothing at the start of one. */
  lemma LastErased(t: Termios, s: Line, k: int, d: int)
    requires |s.held| < 1023 && Arrives(t, k, d) && t.canon && d == t.erase && d != t.kill
    ensures var (r, rest) := Cook(t, s, [k]);
            && rest == [] && r.data == s.data && r.stopped == s.stopped
            && (AtStart(t, s.held) ==> r == s)
            && (!AtStart(t, s.held) ==>
                  && r.held == s.held[..|s.held| - 1]
                  && r.sent == s.sent + if !t.echo then []
                                        else if s.held[|s.held| - 1] < 32 then [127, 127]
                                        else [127])
  {
    OneKey(t, s, k);
  }

  /** The kill key takes back everything behind the last line end. */
  lemma LineKilled(t: Termios, s: Line, k: int, d: int)
    requires |s.held| < 1023 && Arrives(t, k, d) && t.canon && d == t.kill
    ensures var (r, rest) := Cook(t, s, [k]);
            && rest == [] && r.data == s.data && r.stopped == s.stopped
            && r.held <= s.held && AtStart(t, r.held)
            && (forall i :: |r.held| <= i < |s.held| ==> s.held[i] != 10 && s.held[i] != t.eof)
  {
    OneKey(t, s, k);
    KillStops(t, s);
  }

  lemma {:induction false} KillStops(t: Termios, s: Line)
    ensures var r := Kill(t, s);
            && r.data == s.data && r.stopped == s.stopped && r.held <= s.held && AtStart(t, r.held)
            && (forall i :: |r.held| <= i < |s.held| ==> s.held[i] != 10 && s.held[i] != t.eof)
    decreases |s.held|
  {
    if !AtStart(t, s.held) {
      KillStops(t, Erase(t, s));
    }
  }

  /** Stop and start set the stop flag and signal keys do nothing here; all of them are taken off the queue. */
  lemma NotQueued(t: Termios, s: Line, k: int, d: int)
    requires |s.held| < 1023 && Arrives(t, k, d) && Reserved(t, d)
    requires t.canon ==> d != t.kill && d != t.erase
    ensures Cook(t, s, [k])
         == (s.(stopped := if t.canon && d == t.stop then true else if t.canon && d == t.start then false
                           else s.stopped), [])
  {
    OneKey(t, s, k);
  }

  // ---------- a line ----------

  /** Keys that stand for themselves. */
  predicate TypeThemselves(t: Termios, cs: seq<int>) {
    forall i :: 0 <= i < |cs| ==>
      Arrives(t, cs[i], cs[i]) && !Reserved(t, cs[i]) && cs[i] != 10 && cs[i] != t.eof
  }

  lemma {:induction false} CookJoins(t: Termios, s: Line, a: seq<int>, b: seq<int>)
    requires Cook(t, s, a).1 == []
    ensures Cook(t, s, a + b) == Cook(t, Cook(t, s, a).0, b)
    decreases |a|
  {
    hide Edit;
    if a == [] {
      assert a + b == b;
    } else if |s.held| != ROOM {
      assert (a + b)[1..] == a[1..] + b;
      CookJoins(t, Edit(t, s, a[0]), a[1..], b);
    }
  }

  lemma {:induction false} TextQueued(t: Termios, s: Line, cs: seq<int>)
    requires |s.held| + |cs| <= 1023 && TypeThemselves(t, cs)
    ensures var (r, rest) := Cook(t, s, cs);
            && rest == [] && r.held == s.held + cs && r.data == s.data && r.stopped == s.stopped
            && (t.echo && (forall i :: 0 <= i < |cs| ==> cs[i] >= 32) ==> r.sent == s.sent + cs)
            && (!t.echo ==> r.sent == s.sent)
    decreases |cs|
  {
    if cs == [] {
      assert s.held + cs == s.held && s.sent + cs == s.sent;
    } else {
      Queued(t, s, cs[0], cs[0]);
      OneKey(t, s, cs[0]);
      hide Edit;
      var u := Edit(t, s, cs[0]);
      TextQueued(t, u, cs[1..]);
      assert s.held + [cs[0]] + cs[1..] == s.held + cs;
      if t.echo && forall i :: 0 <= i < |cs| ==> cs[i] >= 32 {
        assert u.sent == s.sent + u.sent[|s.sent|..] == s.sent + [cs[0]];
        assert s.sent + [cs[0]] + cs[1..] == s.sent + cs;
      } else if !t.echo {
        assert u.sent == s.sent + u.sent[|s.sent|..] == s.sent;
      }
    }
  }

  /** With Enter translated, a text and Enter leave the text and a line feed on the reader's queue and one line more
      counted; the text and a line feed with its carriage return have been sent, if there is echo. */
  lemma EnterEndsLine(t: Termios, s: Line, cs: seq<int>)
    requires t.icrnl && !Reserved(t, 10) && |s.held| + |cs| < 1023 && TypeThemselves(t, cs)
    ensures var (r, rest) := Cook(t, s, cs + [13]);
            && rest == [] && r.held == s.held + cs + [10] && r.data == s.data + 1 && r.stopped == s.stopped
            && (t.echo && (forall i :: 0 <= i < |cs| ==> cs[i] >= 32) ==> r.sent == s.sent + cs + [10, 13])
            && (!t.echo ==> r.sent == s.sent)
  {
    TextQueued(t, s, cs);
    var u := Cook(t, s, cs).0;
    CookJoins(t, s, cs, [13]);
    Queued(t, u, 13, 10);
    var r := Cook(t, u, [13]).0;
    assert r.sent == u.sent + r.sent[|u.sent|..];
    hide Cook;
    assert s.held + cs + [10] == u.held + [10];
  }

  /** The same on the simple editor's pad: the line is finished and the next one empty. */
  lemma EnterFinishes(t: Termios, p: Pad, cs: seq<int>)
    requires t.icrnl && !Reserved(t, 10) && TypeThemselves(t, cs)
    ensures TypeAll(t, p, cs + [13]) == Pad(p.done + p.current + cs + [10], [])
  {
    var q := p.(current := p.current + cs);
    EnterTyped(t, q);
    hide TypeAll, Reserved, TypeThemselves;
    TextTyped(t, p, cs);
    TypeJoins(t, p, cs, [13]);
    assert p.done + (p.current + cs) == p.done + p.current + cs;
  }

  lemma EnterTyped(t: Termios, p: Pad)
    requires t.icrnl && !Reserved(t, 10)
    ensures TypeAll(t, p, [13]) == Pad(p.done + p.current + [10], [])
  {
    assert [13][1..] == [];
  }

  lemma {:induction false} TextTyped(t: Termios, p: Pad, cs: seq<int>)
    requires TypeThemselves(t, cs)
    ensures TypeAll(t, p, cs) == p.(current := p.current + cs)
    decreases |cs|
  {
    if cs == [] {
      assert p.current + cs == p.current;
    } else {
      TextTyped(t, Type(t, p, cs[0]), cs[1..]);
      assert p.current + [cs[0]] + cs[1..] == p.current + cs;
    }
  }

  lemma {:induction false} TypeJoins(t: Termios, p: Pad, a: seq<int>, b: seq<int>)
    ensures TypeAll(t, p, a + b) == TypeAll(t, TypeAll(t, p, a), b)
    decreases |a|
  {
    hide Type;
    if a == [] {
      assert a + b == b;
    } else {
      assert (a + b)[1..] == a[1..] + b;
      TypeJoins(t, Type(t, p, a[0]), a[1..], b);
    }
  }
}
