/** Line editing as the terminal driver does it, one character at a time on the queue of cooked characters, and as a
    simple editor does it, on finished text and a current line. */
module LineEditor {

  /** The flags and control characters of a terminal that line editing and output translation look at. */
  datatype Termios = Termios(icrnl: bool, igncr: bool, inlcr: bool, iuclc: bool, canon: bool, isig: bool, echo: bool,
      echoctl: bool,
                             opost: bool, ocrnl: bool, onlret: bool, onlcr: bool, olcuc: bool,
                             kill: int, erase: int, eof: int, stop: int, start: int, intr: int, quit: int)

  const ROOM: nat := 1023
  const RUBOUT: int := 127

  /** What is queued for the reader with its count of finished lines, everything sent to the screen so far, and whether
      output is stopped. */
  datatype Line = Line(held: seq<int>, data: nat, sent: seq<int>, stopped: bool)

  datatype Option<T> = None | Some(value: T)

  function Last(s: seq<int>): int
    requires s != []
  {
    s[|s| - 1]
  }

  function Front(s: seq<int>): seq<int>
    requires s != []
  {
    s[..|s| - 1]
  }

  function Lower(c: int): int {
    if 'A' as int <= c <= 'Z' as int then c + 32 else c
  }

  function Upper(c: int): int {
    if 'a' as int <= c <= 'z' as int then c - 32 else c
  }

  predicate Ends(t: Termios, c: int) {
    c == 10 || c == t.eof
  }

  /** The input flags; a carriage return may be ignored altogether. */
  function Mapped(t: Termios, c: int): Option<int> {
    if c == 13 && !t.icrnl && t.igncr then None
    else
      var d := if c == 13 && t.icrnl then 10 else if c == 10 && t.inlcr then 13 else c;
      Some(if t.iuclc then Lower(d) else d)
  }

  function Echo(t: Termios, c: int): seq<int> {
    if !t.echo then []
    else if c == 10 then [10, 13]
    else if c < 32 then (if t.echoctl then ['^' as int, c + 64] else [])
    else [c]
  }

  /** Rubouts sent for an erased character: two for a control character, which was shown with a caret. */
  function Rub(t: Termios, c: int): seq<int> {
    if !t.echo then [] else if c < 32 then [RUBOUT, RUBOUT] else [RUBOUT]
  }

  function Erase(t: Termios, s: Line): (r: Line) {
    if s.held == [] || Ends(t, Last(s.held)) then s
    else s.(held := Front(s.held), sent := s.sent + Rub(t, Last(s.held)))
  }

  function Kill(t: Termios, s: Line): (r: Line)
    decreases |s.held|
  {
    if s.held == [] || Ends(t, Last(s.held)) then s else Kill(t, Erase(t, s))
  }

  function Append(t: Termios, s: Line, c: int): (r: Line) {
    Line(s.held + [c], if Ends(t, c) then s.data + 1 else s.data, s.sent + Echo(t, c), s.stopped)
  }

  /** What a key means: nothing, one of the editing and flow control characters, or itself. */
  datatype Verb = Ignore | KillIt | EraseIt | Pause(on: bool) | Enter(c: int)

  function VerbOf(t: Termios, key: int): Verb {
    match Mapped(t, key)
    case None => Ignore
    case Some(c) =>
      if t.canon && c == t.kill then KillIt
      else if t.canon && c == t.erase then EraseIt
      else if t.canon && c == t.stop then Pause(true)
      else if t.canon && c == t.start then Pause(false)
      else if t.isig && (c == t.intr || c == t.quit) then Ignore
      else Enter(c)
  }

  function Edit(t: Termios, s: Line, key: int): (r: Line) {
    match VerbOf(t, key)
    case Ignore => s
    case KillIt => Kill(t, s)
    case EraseIt => Erase(t, s)
    case Pause(on) => s.(stopped := on)
    case Enter(c) => Append(t, s, c)
  }

  /** Characters are taken from the input while there are any and the reader's queue has room. */
  function Cook(t: Termios, s: Line, input: seq<int>): (r: (Line, seq<int>))
    decreases |input|
  {
    if input == [] || |s.held| == ROOM then (s, input) else Cook(t, Edit(t, s, input[0]), input[1..])
  }

  // ---------- the simple editor ----------

  /** Finished text, which editing cannot touch, and the line being typed. */
  datatype Pad = Pad(done: seq<int>, current: seq<int>)

  function TypeKey(t: Termios, p: Pad, c: int): Pad {
    if t.canon && c == t.kill then p.(current := [])
    else if t.canon && c == t.erase then (if p.current == [] then p else p.(current := Front(p.current)))
    else if t.canon && (c == t.stop || c == t.start) then p
    else if t.isig && (c == t.intr || c == t.quit) then p
    else if Ends(t, c) then Pad(p.done + p.current + [c], [])
    else p.(current := p.current + [c])
  }

  function Type(t: Termios, p: Pad, c: int): Pad {
    match Mapped(t, c)
    case None => p
    case Some(d) => TypeKey(t, p, d)
  }

  function TypeAll(t: Termios, p: Pad, cs: seq<int>): Pad
    decreases |cs|
  {
    if cs == [] then p else TypeAll(t, Type(t, p, cs[0]), cs[1..])
  }

  /** Everything up to and including the last line end. */
  function Done(t: Termios, h: seq<int>): (d: seq<int>)
    ensures |d| <= |h| && d == h[..|d|]
  {
    if h == [] || Ends(t, Last(h)) then h else Done(t, Front(h))
  }

  function PadOf(t: Termios, h: seq<int>): Pad {
    Pad(Done(t, h), h[|Done(t, h)|..])
  }

  function Count(t: Termios, h: seq<int>): nat {
    if h == [] then 0 else Count(t, Front(h)) + if Ends(t, Last(h)) then 1 else 0
  }

  /** Rubouts sent for a whole line, last character first. */
  function RubAll(t: Termios, line: seq<int>): seq<int> {
    if line == [] then [] else Rub(t, Last(line)) + RubAll(t, Front(line))
  }

  // ---------- the driver is the simple editor ----------

  lemma PadErase(t: Termios, h: seq<int>)
    requires h != [] && !Ends(t, Last(h))
    ensures PadOf(t, h).current != [] && PadOf(t, Front(h)) == PadOf(t, h).(current := Front(PadOf(t, h).current))
    ensures Count(t, Front(h)) == Count(t, h) && Last(h) == Last(PadOf(t, h).current)
  {
  }

  lemma {:induction false} KillDropsLine(t: Termios, s: Line)
    ensures Kill(t, s) == s.(held := Done(t, s.held), sent := s.sent + RubAll(t, PadOf(t, s.held).current))
    ensures PadOf(t, Done(t, s.held)) == Pad(Done(t, s.held), [])
    ensures Count(t, Done(t, s.held)) == Count(t, s.held)
    decreases |s.held|
  {
    if s.held != [] && !Ends(t, Last(s.held)) {
      PadErase(t, s.held);
      KillDropsLine(t, Erase(t, s));
    }
  }

  /** The queue holds what the pad holds, its count of line ends is exact, and nothing sent is taken back. */
  predicate Agrees(t: Termios, before: Line, s: Line, p: Pad) {
    PadOf(t, s.held) == p && s.data == Count(t, s.held) && before.sent <= s.sent && |s.held| <= |before.held| + 1
  }

  lemma EraseAgrees(t: Termios, s: Line, p: Pad)
    requires s.data == Count(t, s.held) && p == PadOf(t, s.held)
    ensures Agrees(t, s, Erase(t, s), if p.current == [] then p else p.(current := Front(p.current)))
  {
  }

  lemma KillAgrees(t: Termios, s: Line, p: Pad)
    requires s.data == Count(t, s.held) && p == PadOf(t, s.held)
    ensures Agrees(t, s, Kill(t, s), p.(current := []))
  {
    KillDropsLine(t, s);
  }

  lemma AppendAgrees(t: Termios, s: Line, p: Pad, c: int)
    requires s.data == Count(t, s.held) && p == PadOf(t, s.held)
    ensures Agrees(t, s, Append(t, s, c), if Ends(t, c) then Pad(p.done + p.current + [c], [])
        else p.(current := p.current + [c]))
  {
  }

  /** One character does to the queue what it does to the simple editor's pad. */
  lemma EditIsType(t: Termios, s: Line, c: int)
    requires s.data == Count(t, s.held)
    ensures Agrees(t, s, Edit(t, s, c), Type(t, PadOf(t, s.held), c))
  {
    hide Kill, Erase, Append, PadOf, Count, Ends;
    var p := PadOf(t, s.held);
    match Mapped(t, c)
    case None =>
    case Some(d) =>
      EraseAgrees(t, s, p);
      KillAgrees(t, s, p);
      AppendAgrees(t, s, p, d);
  }

  /** Over any input: the characters taken are a prefix of it, the queue holds what the simple editor holds after typing
      them, the count is exact, and what is left was left for want of room only. */
  lemma {:induction false} CookIsTypeAll(t: Termios, s: Line, input: seq<int>)
    requires s.data == Count(t, s.held) && |s.held| <= ROOM
    ensures var (r, rest) := Cook(t, s, input);
            && |rest| <= |input| && rest == input[|input| - |rest|..]
            && PadOf(t, r.held) == TypeAll(t, PadOf(t, s.held), input[..|input| - |rest|])
            && r.data == Count(t, r.held) && s.sent <= r.sent && |r.held| <= ROOM
            && (rest == [] || |r.held| == ROOM)
    decreases |input|
  {
    hide Edit, Type, PadOf, Count, VerbOf;
    var (r, rest) := Cook(t, s, input);
    if input == [] || |s.held| == ROOM {
      assert input[..|input| - |rest|] == [];
    } else {
      EditIsType(t, s, input[0]);
      CookIsTypeAll(t, Edit(t, s, input[0]), input[1..]);
      var taken := input[..|input| - |rest|];
      assert taken[0] == input[0] && taken[1..] == input[1..][..|input[1..]| - |rest|];
    }
  }

  /** Erasing and killing never reach back past a line end: finished text only grows. */
  lemma {:induction false} FinishedTextStays(t: Termios, p: Pad, cs: seq<int>)
    ensures p.done <= TypeAll(t, p, cs).done
    decreases |cs|
  {
    if cs != [] {
      FinishedTextStays(t, Type(t, p, cs[0]), cs[1..]);
    }
  }

  /** A key that types itself. */
  predicate Plain(t: Termios, c: int) {
    Mapped(t, c) == Some(c) && !Ends(t, c)
    && !(t.canon && c in [t.kill, t.erase, t.stop, t.start]) && !(t.isig && c in [t.intr, t.quit])
  }

  /** The erase key takes back a key that types itself, the kill key any number of them on an empty line. */
  lemma {:induction false} KillTakesBack(t: Termios, p: Pad, cs: seq<int>)
    requires forall i :: 0 <= i < |cs| ==> Plain(t, cs[i])
    ensures TypeAll(t, p, cs) == p.(current := p.current + cs)
    ensures t.canon && cs != [] && t.kill != t.erase ==>
              TypeKey(t, TypeAll(t, p, cs), t.erase) == p.(current := p.current + Front(cs))
    ensures t.canon && p.current == [] ==> TypeKey(t, TypeAll(t, p, cs), t.kill) == p
    decreases |cs|
  {
    if cs == [] {
      assert p.current + cs == p.current;
    } else {
      KillTakesBack(t, Type(t, p, cs[0]), cs[1..]);
      assert p.current + [cs[0]] + cs[1..] == p.current + cs;
      assert Front(p.current + cs) == p.current + Front(cs);
    }
  }

  /** As many rubouts are sent for an erased character as its echo took cells, exactly if control characters are
      echoed with a caret or the character is not one; without carets an erased control character rubs out two cells
      that were never written. */
  lemma RubsMatchEcho(t: Termios, c: int)
    requires t.echo && c != 10
    ensures |Rub(t, c)| == |Echo(t, c)| <==> t.echoctl || c >= 32
  {
  }
}
