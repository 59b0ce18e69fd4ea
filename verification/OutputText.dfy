/** What the terminal driver makes of the text written to it: one character at a time, with a carriage return before
    each line feed. */
module OutputText {
  import opened LineEditor

  /** The character sent for c, before any carriage return in front of it. */
  function Sent(t: Termios, c: int): int {
    if !t.opost then c
    else
      var d := Swapped(t, c);
      if t.olcuc then Upper(d) else d
  }

  function Swapped(t: Termios, c: int): int {
    if c == 13 && t.ocrnl then 10 else if c == 10 && t.onlret then 13 else c
  }

  /** A line feed still waiting for its carriage return. */
  predicate NeedsReturn(t: Termios, c: int) {
    t.opost && t.onlcr && Swapped(t, c) == 10
  }

  /** `returned` says that the carriage return of the first character has been sent already. */
  function Translated(t: Termios, returned: bool, cs: seq<int>): seq<int>
    decreases |cs|
  {
    if cs == [] then []
    else (if NeedsReturn(t, cs[0]) && !returned then [13] else []) + [Sent(t, cs[0])] + Translated(t, false, cs[1..])
  }

  /** What comes out for one character, in numbers: 13 is a carriage return, 10 a line feed, 97 to 122 are
      the small letters. */
  lemma CharacterOut(t: Termios, c: int)
    ensures Translated(t, false, [c]) ==
            if !t.opost then [c]
            else if c == 10 && t.onlret then [13]
            else if c == 10 || (c == 13 && t.ocrnl) then (if t.onlcr then [13, 10] else [10])
            else if 97 <= c <= 122 && t.olcuc then [c - 32]
            else [c]
    ensures t.opost && t.onlcr && ((c == 10 && !t.onlret) || (c == 13 && t.ocrnl)) ==> Translated(t, true, [c]) == [10]
  {
    assert [c][1..] == [];
  }

  /** Text written in pieces comes out like text written at once. */
  lemma {:induction false} PiecesJoin(t: Termios, returned: bool, a: seq<int>, b: seq<int>)
    ensures Translated(t, returned, a + b) == Translated(t, returned, a) + Translated(t, a == [] && returned, b)
    decreases |a|
  {
    hide NeedsReturn, Sent;
    if a == [] {
      assert a + b == b;
    } else {
      PiecesJoin(t, false, a[1..], b);
      var first := (if NeedsReturn(t, a[0]) && !returned then [13] else []) + [Sent(t, a[0])];
      var x, y := Translated(t, false, a[1..]), Translated(t, false, b);
      assert (a + b)[1..] == a[1..] + b;
      assert first + (x + y) == first + x + y;
    }
  }

  /** Takes out each carriage return standing right before a line feed. */
  function Stripped(cs: seq<int>): seq<int>
    decreases |cs|
  {
    if |cs| < 2 then cs
    else if cs[0] == 13 && cs[1] == 10 then [10] + Stripped(cs[2..])
    else [cs[0]] + Stripped(cs[1..])
  }

  /** With the driver's own settings, a carriage return before each line feed and nothing else, what was written can be
      read back from what came out. */
  lemma {:induction false} StrippedGivesBack(t: Termios, cs: seq<int>)
    requires t.opost && t.onlcr && !t.ocrnl && !t.onlret && !t.olcuc
    ensures Stripped(Translated(t, false, cs)) == cs
    ensures cs != [] ==> Translated(t, false, cs) != [] && Translated(t, false, cs)[0] != 10
    decreases |cs|
  {
    if cs != [] {
      var rest := Translated(t, false, cs[1..]);
      StrippedGivesBack(t, cs[1..]);
      if cs[0] == 10 {
        assert Translated(t, false, cs) == [13, 10] + rest;
        assert ([13, 10] + rest)[2..] == rest;
      } else {
        assert Translated(t, false, cs) == [cs[0]] + rest;
        assert ([cs[0]] + rest)[1..] == rest;
      }
      assert [cs[0]] + cs[1..] == cs;
    }
  }

  /** Exactly these settings let text come out as it went in. */
  lemma UnchangedIff(t: Termios)
    ensures (forall cs :: Translated(t, false, cs) == cs) <==>
            !t.opost || (!t.ocrnl && !t.onlret && !t.onlcr && !t.olcuc)
  {
    if !t.opost || (!t.ocrnl && !t.onlret && !t.onlcr && !t.olcuc) {
      forall cs
        ensures Translated(t, false, cs) == cs
      {
        Unchanged(t, cs);
      }
    } else {
      var cs := if t.ocrnl then [13] else if t.onlret || t.onlcr then [10] else ['a' as int];
      assert cs[1..] == [] && Translated(t, false, []) == [];
      assert Translated(t, false, cs) != cs;
    }
  }

  lemma {:induction false} Unchanged(t: Termios, cs: seq<int>)
    requires !t.opost || (!t.ocrnl && !t.onlret && !t.onlcr && !t.olcuc)
    ensures Translated(t, false, cs) == cs
    decreases |cs|
  {
    if cs != [] {
      Unchanged(t, cs[1..]);
    }
  }
}
