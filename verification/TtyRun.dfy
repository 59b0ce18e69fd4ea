/** The terminal driver as it runs, with everything that calls itself: the console answers ESC Z by putting a reply on
    the keyboard queue and copying that queue at once, the copy is echoed, and the echo is written by the console, which
    may be in the middle of its own queue. The rings are read and written without a look at what they hold.

    `fuel` bounds the nesting and the loops; None says that it did not suffice. */
module TtyRun {
  import opened CharQueue
  import opened LineEditor
  import opened OutputText
  import Terminal

  /** What the console answers to ESC Z: ESC [ ? 1 ; 2 c. */
  const REPLY: seq<int> := [27, '[' as int, '?' as int, '1' as int, ';' as int, '2' as int, 'c' as int]

  /** `sent` is everything put on the write queue so far, `shown` everything the console has taken from it. */
  datatype State = State(term: Terminal.Term, read: Ring, write: Ring, second: Ring, data: nat, stopped: bool,
                         sent: seq<int>, shown: seq<int>)

  predicate Ok(s: State) {
    Terminal.TermOk(s.term) && RingOk(s.read) && RingOk(s.write) && RingOk(s.second)
  }

  predicate Asks(s: Terminal.Term, c: int) {
    s.mode == 1 && c == 'Z' as int
  }

  /** The character the console takes next asks for a reply. */
  predicate AsksNow(s: State)
    requires Ok(s)
  {
    Asks(s.term, First(s.write))
  }

  function Send(s: State, c: int): (r: State)
    requires Ok(s)
    ensures Ok(r)
  {
    s.(write := Put(s.write, c), sent := s.sent + [c])
  }

  function SendAll(s: State, cs: seq<int>): (r: State)
    requires Ok(s)
    ensures Ok(r)
  {
    s.(write := PutAll(s.write, cs), sent := s.sent + cs)
  }

  /** An echo is at most two characters. */
  lemma SendTwo(s: State, cs: seq<int>)
    requires Ok(s) && |cs| <= 2
    ensures SendAll(s, cs) == if cs == [] then s else if |cs| == 1 then Send(s, cs[0]) else Send(Send(s, cs[0]), cs[1])
  {
    if |cs| == 1 {
      assert cs == [cs[0]] && cs[1..] == [];
      assert PutAll(Put(s.write, cs[0]), []) == Put(s.write, cs[0]);
    } else if |cs| == 2 {
      assert cs[1..] == [cs[1]] && cs[1..][1..] == [];
      var w := Put(s.write, cs[0]);
      assert PutAll(Put(w, cs[1]), []) == Put(w, cs[1]);
      assert PutAll(w, [cs[1]]) == PutAll(Put(w, cs[1]), []);
      assert cs == [cs[0]] + [cs[1]] && s.sent + cs == s.sent + [cs[0]] + [cs[1]];
    } else {
      assert s.sent + cs == s.sent;
    }
  }

  /** The console takes one character. */
  function Take(t: Termios, s: State): (r: State)
    requires Ok(s)
    ensures Ok(r)
  {
    var c := First(s.write);
    s.(write := Got(s.write), term := Terminal.Show(s.term, c, t.erase), shown := s.shown + [c])
  }

  /** con_write: as many characters as the queue holds now. */
  function ConWrite(t: Termios, fuel: nat, s: State): (r: Option<State>)
    requires Ok(s)
    ensures r.Some? ==> Ok(r.value)
    decreases fuel, 3, 0
  {
    TakeAll(t, fuel, s, |Held(s.write)|)
  }

  function TakeAll(t: Termios, fuel: nat, s: State, nr: nat): (r: Option<State>)
    requires Ok(s)
    ensures r.Some? ==> Ok(r.value)
    decreases fuel, 2, nr
  {
    if nr == 0 then Some(s)
    else
      match TakeOne(t, fuel, s)
      case None => None
      case Some(u) => TakeAll(t, fuel, u, nr - 1)
  }

  /** One character, with the reply it may ask for. */
  function TakeOne(t: Termios, fuel: nat, s: State): (r: Option<State>)
    requires Ok(s)
    ensures r.Some? ==> Ok(r.value)
    decreases fuel, 1, 0
  {
    if !AsksNow(s) then Some(Take(t, s)) else if fuel == 0 then None else Respond(t, fuel - 1, Take(t, s))
  }

  /** respond. */
  function Respond(t: Termios, fuel: nat, s: State): (r: Option<State>)
    requires Ok(s)
    ensures r.Some? ==> Ok(r.value)
    decreases fuel, 9, 0
  {
    CopyToCooked(t, fuel, s.(read := PutAll(s.read, REPLY)))
  }

  predicate HasRoom(s: State)
    requires Ok(s)
  {
    |Held(s.second)| < ROOM
  }

  /** copy_to_cooked. */
  function CopyToCooked(t: Termios, fuel: nat, s: State): (r: Option<State>)
    requires Ok(s)
    ensures r.Some? ==> Ok(r.value)
    decreases fuel, 8, 0
  {
    if Held(s.read) == [] || !HasRoom(s) then Some(s)
    else if fuel == 0 then None
    else
      match OnKey(t, fuel - 1, s.(read := Got(s.read)), First(s.read))
      case None => None
      case Some(u) => CopyToCooked(t, fuel - 1, u)
  }

  function OnKey(t: Termios, fuel: nat, s: State, key: int): (r: Option<State>)
    requires Ok(s)
    ensures r.Some? ==> Ok(r.value)
    decreases fuel, 7, 0
  {
    match VerbOf(t, key)
    case Ignore => Some(s)
    case KillIt => KillLine(t, fuel, s)
    case EraseIt => if AtLineStart(t, s) then Some(s) else RubOut(t, fuel, s, Newest(s.second))
    case Pause(on) => Some(s.(stopped := on))
    case Enter(c) => Accept(t, fuel, s, c)
  }

  predicate AtLineStart(t: Termios, s: State)
    requires Ok(s)
  {
    Held(s.second) == [] || Ends(t, Newest(s.second))
  }

  function KillLine(t: Termios, fuel: nat, s: State): (r: Option<State>)
    requires Ok(s)
    ensures r.Some? ==> Ok(r.value)
    decreases fuel, 6, 0
  {
    if AtLineStart(t, s) then Some(s)
    else if fuel == 0 then None
    else
      match RubOut(t, fuel - 1, s, Newest(s.second))
      case None => None
      case Some(u) => KillLine(t, fuel - 1, u)
  }

  function RubOut(t: Termios, fuel: nat, s: State, c: int): (r: Option<State>)
    requires Ok(s)
    ensures r.Some? ==> Ok(r.value)
    decreases fuel, 5, 0
  {
    match Echoed(t, fuel, s, Rub(t, c))
    case None => None
    case Some(u) => Some(u.(second := Dropped(u.second)))
  }

  function Accept(t: Termios, fuel: nat, s: State, c: int): (r: Option<State>)
    requires Ok(s)
    ensures r.Some? ==> Ok(r.value)
    decreases fuel, 5, 0
  {
    match Echoed(t, fuel, s.(data := if Ends(t, c) then s.data + 1 else s.data), Echo(t, c))
    case None => None
    case Some(u) => Some(u.(second := Put(u.second, c)))
  }

  /** What is to be echoed goes on the write queue and the console is called. */
  function Echoed(t: Termios, fuel: nat, s: State, cs: seq<int>): (r: Option<State>)
    requires Ok(s)
    ensures r.Some? ==> Ok(r.value)
    decreases fuel, 4, 0
  {
    if t.echo then ConWrite(t, fuel, SendAll(s, cs)) else Some(s)
  }

  // ---------- writing ----------

  /** Characters go on the write queue until the text or the room ends; of a line end only the carriage return may
      have been queued. */
  function FillQueue(t: Termios, s: State, flag: bool, text: seq<int>): (r: (State, bool, seq<int>))
    requires Ok(s)
    ensures Ok(r.0) && |r.2| <= |text|
    ensures text != [] && |Held(s.write)| < SIZE - 1 ==> |r.2| < |text| || (!flag && r.1)
    decreases |text|, if flag then 0 else 1
  {
    if text == [] || |Held(s.write)| == SIZE - 1 then (s, flag, text)
    else if NeedsReturn(t, text[0]) && !flag then FillQueue(t, Send(s, 13), true, text)
    else FillQueue(t, Send(s, Sent(t, text[0])), false, text[1..])
  }

  /** tty_write: a full queue is slept on, and nothing in the kernel ever wakes a task sleeping there. */
  function WriteText(t: Termios, fuel: nat, s: State, flag: bool, text: seq<int>): (r: Option<(State, bool)>)
    requires Ok(s)
    ensures r.Some? ==> Ok(r.value.0)
    decreases |text|, if flag then 0 else 1
  {
    if text == [] then Some((s, flag))
    else if |Held(s.write)| == SIZE - 1 then None
    else
      var (u, f, rest) := FillQueue(t, s, flag, text);
      match ConWrite(t, fuel, u)
      case None => None
      case Some(v) => WriteText(t, fuel, v, f, rest)
  }

  // ---------- what every call does to the accounts ----------

  /** Nothing sent or shown is taken back, the screen shows what was shown, and unless something was sent, what is shown
      and what is left in the queue never get less together. */
  predicate Grows(t: Termios, s: State, r: State)
    requires Ok(s)
  {
    && Ok(r) && s.sent <= r.sent && s.shown <= r.shown
    && r.term == Terminal.ShowAll(s.term, r.shown[|s.shown|..], t.erase)
    && (|r.sent| == |s.sent| ==> |r.shown| + |Held(r.write)| >= |s.shown| + |Held(s.write)|)
  }

  lemma GrowsTrans(t: Termios, s: State, u: State, r: State)
    requires Ok(s) && Grows(t, s, u) && Grows(t, u, r)
    ensures Grows(t, s, r)
  {
    hide Terminal.ShowAll, Terminal.TermOk, Held, RingOk;
    Terminal.PiecesJoin(s.term, u.shown[|s.shown|..], r.shown[|u.shown|..], t.erase);
    assert u.shown[|s.shown|..] + r.shown[|u.shown|..] == r.shown[|s.shown|..];
  }

  /** Only the line and the keyboard queue differ. */
  lemma GrowsSame(t: Termios, s: State, r: State)
    requires Ok(s) && Ok(r) && r.sent == s.sent && r.shown == s.shown && r.term == s.term && r.write == s.write
    ensures Grows(t, s, r)
  {
    assert r.shown[|s.shown|..] == [];
  }

  lemma GrowsTake(t: Termios, s: State)
    requires Ok(s)
    ensures Grows(t, s, Take(t, s)) && |Take(t, s).shown| == |s.shown| + 1
  {
    var c := First(s.write);
    GotHeld(s.write);
    Terminal.Single(s.term, c, t.erase);
    assert (s.shown + [c])[|s.shown|..] == [c];
  }

  lemma GrowsSend(t: Termios, s: State, cs: seq<int>)
    requires Ok(s)
    ensures Grows(t, s, SendAll(s, cs))
  {
    assert s.shown[|s.shown|..] == [];
    if |SendAll(s, cs).sent| == |s.sent| {
      assert cs == [];
    }
  }

  lemma {:induction false} ConWriteGrows(t: Termios, fuel: nat, s: State, r: State)
    requires Ok(s) && ConWrite(t, fuel, s) == Some(r)
    ensures Grows(t, s, r) && |r.shown| >= |s.shown| + |Held(s.write)|
    decreases fuel, 3, 0
  {
    hide Held, Grows;
    TakeAllGrows(t, fuel, s, |Held(s.write)|, r);
  }

  lemma {:induction false} TakeAllGrows(t: Termios, fuel: nat, s: State, nr: nat, r: State)
    requires Ok(s) && TakeAll(t, fuel, s, nr) == Some(r)
    ensures Grows(t, s, r) && |r.shown| >= |s.shown| + nr
    decreases fuel, 2, nr
  {
    if nr == 0 {
      GrowsSame(t, s, s);
    } else {
      var u := TakeOne(t, fuel, s).value;
      TakeOneGrows(t, fuel, s, u);
      TakeAllGrows(t, fuel, u, nr - 1, r);
      GrowsTrans(t, s, u, r);
    }
  }

  lemma {:induction false} TakeOneGrows(t: Termios, fuel: nat, s: State, r: State)
    requires Ok(s) && TakeOne(t, fuel, s) == Some(r)
    ensures Grows(t, s, r) && |r.shown| >= |s.shown| + 1
    decreases fuel, 1, 0
  {
    var u := Take(t, s);
    GrowsTake(t, s);
    if AsksNow(s) {
      RespondGrows(t, fuel - 1, u, r);
      GrowsTrans(t, s, u, r);
    }
  }

  lemma {:induction false} RespondGrows(t: Termios, fuel: nat, s: State, r: State)
    requires Ok(s) && Respond(t, fuel, s) == Some(r)
    ensures Grows(t, s, r) && |r.shown| >= |s.shown|
    decreases fuel, 9, 0
  {
    var k := s.(read := PutAll(s.read, REPLY));
    CopyGrows(t, fuel, k, r);
    GrowsSame(t, s, k);
    GrowsTrans(t, s, k, r);
  }

  lemma {:induction false} CopyGrows(t: Termios, fuel: nat, s: State, r: State)
    requires Ok(s) && CopyToCooked(t, fuel, s) == Some(r)
    ensures Grows(t, s, r)
    decreases fuel, 8, 0
  {
    if Held(s.read) == [] || !HasRoom(s) {
      GrowsSame(t, s, s);
    } else {
      var k := s.(read := Got(s.read));
      var u := OnKey(t, fuel - 1, k, First(s.read)).value;
      KeyGrows(t, fuel - 1, k, First(s.read), u);
      CopyGrows(t, fuel - 1, u, r);
      GrowsSame(t, s, k);
      GrowsTrans(t, s, k, u);
      GrowsTrans(t, s, u, r);
    }
  }

  lemma {:induction false} KeyGrows(t: Termios, fuel: nat, s: State, key: int, r: State)
    requires Ok(s) && OnKey(t, fuel, s, key) == Some(r)
    ensures Grows(t, s, r)
    decreases fuel, 7, 0
  {
    hide Grows, Held, KillLine, RubOut, Accept, VerbOf;
    GrowsSame(t, s, s);
    match VerbOf(t, key)
    case Ignore =>
    case KillIt => KillGrows(t, fuel, s, r);
    case EraseIt =>
      if !AtLineStart(t, s) {
        RubGrows(t, fuel, s, Newest(s.second), r);
      }
    case Pause(on) => GrowsSame(t, s, r);
    case Enter(c) => AcceptGrows(t, fuel, s, c, r);
  }

  lemma {:induction false} KillGrows(t: Termios, fuel: nat, s: State, r: State)
    requires Ok(s) && KillLine(t, fuel, s) == Some(r)
    ensures Grows(t, s, r)
    decreases fuel, 6, 0
  {
    if AtLineStart(t, s) {
      GrowsSame(t, s, s);
    } else {
      var u := RubOut(t, fuel - 1, s, Newest(s.second)).value;
      RubGrows(t, fuel - 1, s, Newest(s.second), u);
      KillGrows(t, fuel - 1, u, r);
      GrowsTrans(t, s, u, r);
    }
  }

  lemma {:induction false} RubGrows(t: Termios, fuel: nat, s: State, c: int, r: State)
    requires Ok(s) && RubOut(t, fuel, s, c) == Some(r)
    ensures Grows(t, s, r)
    decreases fuel, 5, 0
  {
    var u := Echoed(t, fuel, s, Rub(t, c)).value;
    EchoGrows(t, fuel, s, Rub(t, c), u);
    GrowsSame(t, u, r);
    GrowsTrans(t, s, u, r);
  }

  lemma {:induction false} AcceptGrows(t: Termios, fuel: nat, s: State, c: int, r: State)
    requires Ok(s) && Accept(t, fuel, s, c) == Some(r)
    ensures Grows(t, s, r)
    decreases fuel, 5, 0
  {
    var k := s.(data := if Ends(t, c) then s.data + 1 else s.data);
    var u := Echoed(t, fuel, k, Echo(t, c)).value;
    EchoGrows(t, fuel, k, Echo(t, c), u);
    GrowsSame(t, s, k);
    GrowsSame(t, u, r);
    GrowsTrans(t, s, k, u);
    GrowsTrans(t, s, u, r);
  }

  lemma {:induction false} EchoGrows(t: Termios, fuel: nat, s: State, cs: seq<int>, r: State)
    requires Ok(s) && Echoed(t, fuel, s, cs) == Some(r)
    ensures Grows(t, s, r)
    decreases fuel, 4, 0
  {
    if t.echo {
      GrowsSend(t, s, cs);
      ConWriteGrows(t, fuel, SendAll(s, cs), r);
      GrowsTrans(t, s, SendAll(s, cs), r);
    } else {
      GrowsSame(t, s, s);
    }
  }
}
