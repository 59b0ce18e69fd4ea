/** The terminal driver: three character queues between keyboard, reader, writers and console, updated in place. Every
    method does what the function of the same name in TtyRun does with the state; `fuel` bounds nesting and loops, and a
    method that returns false has run out of it. */
module Tty {
  import opened CharQueue
  import opened KeyMeanings
  import opened LineEditor
  import opened OutputText
  import Console
  import Replies
  import Run = TtyRun
  import Terminal
  import TextWrites

  class Driver {
    const termios: Termios
    const readQ: Queue
    const writeQ: Queue
    const secondary: Queue
    const console: Console.Console
    var stopped: bool
    /** The source's static flag: the carriage return of the next line feed has been queued. */
    var crFlag: bool
    /** Everything put on the write queue, and everything the console has taken from it. */
    ghost var sent: seq<int>
    ghost var shown: seq<int>

    ghost predicate Apart()
      reads this
    {
      && readQ != writeQ && readQ != secondary && writeQ != secondary
      && readQ.buf != writeQ.buf && readQ.buf != secondary.buf && writeQ.buf != secondary.buf
      && {readQ.buf as object, writeQ.buf, secondary.buf} !! {console.mem as object, console.par}
    }

    ghost predicate Valid()
      reads this, readQ, writeQ, secondary, console, console.mem, console.par
    {
      Apart() && readQ.Valid() && writeQ.Valid() && secondary.Valid() && console.Valid()
    }

    ghost function State(): (s: Run.State)
      requires Valid()
      reads this, readQ, readQ.buf, writeQ, writeQ.buf, secondary, secondary.buf, console, console.mem, console.par
      ensures Run.Ok(s)
    {
      Run.State(console.Abs(), readQ.Value(), writeQ.Value(), secondary.Value(), secondary.data, stopped, sent, shown)
    }

    /** The outcome r of a function is what has happened. */
    ghost predicate Did(ok: bool, r: Option<Run.State>)
      requires Valid()
      reads this, readQ, readQ.buf, writeQ, writeQ.buf, secondary, secondary.buf, console, console.mem, console.par
    {
      (ok <==> r.Some?) && (ok ==> State() == r.value)
    }

    constructor (termios: Termios, console: Console.Console)
      requires console.Valid()
      ensures Valid() && this.termios == termios && this.console == console && !crFlag && sent == [] && shown == []
      ensures fresh(readQ) && fresh(readQ.buf) && fresh(writeQ) && fresh(writeQ.buf) && fresh(secondary)
          && fresh(secondary.buf)
      ensures console.Abs() == old(console.Abs())
    {
      this.termios, this.console := termios, console;
      readQ := new Queue();
      writeQ := new Queue();
      secondary := new Queue();
      stopped, crFlag, sent, shown := false, false, [], [];
    }

    method Send(c: int)
      requires Valid()
      modifies this`sent, writeQ`head, writeQ.buf
      ensures Valid() && State() == Run.Send(old(State()), c)
    {
      writeQ.PutCh(c);
      sent := sent + [c];
    }

    // ---------- the console ----------

    /** con_write: as many characters as the queue holds when it is called, whatever happens to the queue meanwhile. */
    method ConWrite(fuel: nat) returns (ok: bool)
      requires Valid()
      modifies this, readQ, readQ.buf, writeQ, writeQ.buf, secondary, secondary.buf, console, console.mem, console.par
      ensures Valid() && Did(ok, Run.ConWrite(termios, fuel, old(State()))) && crFlag == old(crFlag)
      decreases fuel, 3
    {
      hide Held, Run.TakeOne, Terminal.Show, Terminal.TermOk;
      writeQ.Room();
      var nr: nat := writeQ.Chars();
      while nr > 0
        invariant Valid() && crFlag == old(crFlag)
        invariant Run.TakeAll(termios, fuel, State(), nr) == Run.ConWrite(termios, fuel, old(State()))
      {
        nr := nr - 1;
        ok := TakeOne(fuel);
        if !ok {
          return;
        }
      }
      ok := true;
    }

    /** One character taken and shown, with the reply it may ask for. */
    method TakeOne(fuel: nat) returns (ok: bool)
      requires Valid()
      modifies this, readQ, readQ.buf, writeQ, writeQ.buf, secondary, secondary.buf, console, console.mem, console.par
      ensures Valid() && Did(ok, Run.TakeOne(termios, fuel, old(State()))) && crFlag == old(crFlag)
      decreases fuel, 1
    {
      hide Run.Respond, Terminal.Show, Terminal.TermOk;
      var asks := TakeChar();
      if !asks {
        return true;
      }
      if fuel == 0 {
        return false;
      }
      ok := Respond(fuel - 1);
    }

    method TakeChar() returns (asks: bool)
      requires Valid()
      modifies this`shown, writeQ`tail, console, console.mem, console.par
      ensures Valid() && State() == Run.Take(termios, old(State())) && asks == old(Run.AsksNow(State()))
    {
      hide Terminal.Show, Terminal.TermOk;
      var c := writeQ.GetCh();
      asks := console.state == 1 && c == 'Z' as int;
      console.OnChar(c, termios.erase);
      shown := shown + [c];
    }

    /** respond: the answer goes on the keyboard queue, which is copied at once. */
    method Respond(fuel: nat) returns (ok: bool)
      requires Valid()
      modifies this, readQ, readQ.buf, writeQ, writeQ.buf, secondary, secondary.buf, console, console.mem, console.par
      ensures Valid() && Did(ok, Run.Respond(termios, fuel, old(State()))) && crFlag == old(crFlag)
      decreases fuel, 9
    {
      var p := 0;
      while p < |Run.REPLY|
        invariant 0 <= p <= |Run.REPLY| && Valid() && crFlag == old(crFlag)
        invariant PutAll(State().read, Run.REPLY[p..]) == PutAll(old(State().read), Run.REPLY)
        invariant State() == old(State()).(read := State().read)
      {
        readQ.PutCh(Run.REPLY[p]);
        p := p + 1;
      }
      ok := CopyToCooked(fuel);
    }

    // ---------- input ----------

    predicate AtLineStart()
      requires Valid()
      reads this, readQ, writeQ, secondary, secondary.buf, console, console.mem, console.par
    {
      secondary.Empty() || secondary.Last() == 10 || secondary.Last() == termios.eof
    }

    /** The echo of a key, and the console called for it. */
    method Echoed(c: int, rub: bool, fuel: nat) returns (ok: bool)
      requires Valid()
      modifies this, readQ, readQ.buf, writeQ, writeQ.buf, secondary, secondary.buf, console, console.mem, console.par
      ensures Valid() && crFlag == old(crFlag)
      ensures Did(ok, Run.Echoed(termios, fuel, old(State()), if rub then Rub(termios, c) else Echo(termios, c)))
      decreases fuel, 4
    {
      hide Held, Run.ConWrite, Terminal.TermOk, Put;
      ghost var s := State();
      if !termios.echo {
        return true;
      }
      if rub {
        if c < 32 {
          Send(127);
        }
        Send(127);
      } else if c == 10 {
        Send(10);
        Send(13);
      } else if c < 32 {
        if termios.echoctl {
          Send('^' as int);
          Send(c + 64);
        }
      } else {
        Send(c);
      }
      Run.SendTwo(s, if rub then Rub(termios, c) else Echo(termios, c));
      ok := ConWrite(fuel);
    }

    method RubOut(fuel: nat) returns (ok: bool)
      requires Valid()
      modifies this, readQ, readQ.buf, writeQ, writeQ.buf, secondary, secondary.buf, console, console.mem, console.par
      ensures Valid() && Did(ok, Run.RubOut(termios, fuel, old(State()), old(Newest(State().second))))
          && crFlag == old(crFlag)
      decreases fuel, 5
    {
      hide Held, Run.Echoed, Terminal.TermOk, Newest;
      ok := Echoed(secondary.Last(), true, fuel);
      if ok {
        secondary.Dec();
      }
    }

    /** The line being edited goes. */
    method KillLine(fuel: nat) returns (ok: bool)
      requires Valid()
      modifies this, readQ, readQ.buf, writeQ, writeQ.buf, secondary, secondary.buf, console, console.mem, console.par
      ensures Valid() && Did(ok, Run.KillLine(termios, fuel, old(State()))) && crFlag == old(crFlag)
      decreases fuel, 6
    {
      hide Held, Run.RubOut, Terminal.TermOk, Newest;
      var left: nat := fuel;
      secondary.Room();
      while !AtLineStart()
        invariant Valid() && left <= fuel && crFlag == old(crFlag)
        invariant secondary.Empty() <==> Held(State().second) == []
        invariant Run.KillLine(termios, left, State()) == Run.KillLine(termios, fuel, old(State()))
        decreases left
      {
        if left == 0 {
          return false;
        }
        left := left - 1;
        ok := RubOut(left);
        if !ok {
          return;
        }
        secondary.Room();
      }
      ok := true;
    }

    /** A key that types itself: echoed, counted if it ends a line, and queued for the reader. */
    method Accept(c: int, fuel: nat) returns (ok: bool)
      requires Valid()
      modifies this, readQ, readQ.buf, writeQ, writeQ.buf, secondary, secondary.buf, console, console.mem, console.par
      ensures Valid() && Did(ok, Run.Accept(termios, fuel, old(State()), c)) && crFlag == old(crFlag)
      decreases fuel, 5
    {
      hide Held, Run.Echoed, Terminal.TermOk, Put;
      if c == 10 || c == termios.eof {
        secondary.data := secondary.data + 1;
      }
      ok := Echoed(c, false, fuel);
      if ok {
        secondary.PutCh(c);
      }
    }

    /** What a character from the keyboard means under the flags and control characters. */
    method Meaning(key: int) returns (v: Verb)
      ensures v == VerbOf(termios, key)
      ensures v.Enter? ==> Arrives(termios, key, v.c) && !Reserved(termios, v.c)
      ensures v.KillIt? ==> termios.canon && Arrives(termios, key, termios.kill)
      ensures v.EraseIt? ==> termios.canon && Arrives(termios, key, termios.erase)
      ensures v.Pause? ==> termios.canon && Arrives(termios, key, if v.on then termios.stop else termios.start)
      ensures v == Ignore <==>
          || (key == 13 && !termios.icrnl && termios.igncr)
          || (exists c :: Arrives(termios, key, c) && SignalOnly(termios, c))
    {
      var c := key;
      if c == 13 {
        if termios.icrnl {
          c := 10;
        } else if termios.igncr {
          return Ignore;
        }
      } else if c == 10 && termios.inlcr {
        c := 13;
      }
      if termios.iuclc {
        c := Lower(c);
      }
      if termios.canon {
        if c == termios.kill {
          return KillIt;
        }
        if c == termios.erase {
          return EraseIt;
        }
        if c == termios.stop {
          return Pause(true);
        }
        if c == termios.start {
          return Pause(false);
        }
      }
      assert Arrives(termios, key, c);
      if termios.isig && (c == termios.intr || c == termios.quit) {
        return Ignore;
      }
      v := Enter(c);
    }

    /** One character from the keyboard. */
    method OnKey(key: int, fuel: nat) returns (ok: bool)
      requires Valid()
      modifies this, readQ, readQ.buf, writeQ, writeQ.buf, secondary, secondary.buf, console, console.mem, console.par
      ensures Valid() && Did(ok, Run.OnKey(termios, fuel, old(State()), key)) && crFlag == old(crFlag)
      decreases fuel, 7
    {
      hide Held, Run.KillLine, Run.RubOut, Run.Accept, Terminal.TermOk, Newest, VerbOf;
      ok := true;
      var v := Meaning(key);
      match v {
        case Ignore =>
        case KillIt => ok := KillLine(fuel);
        case EraseIt =>
          secondary.Room();
          if !AtLineStart() {
            ok := RubOut(fuel);
          }
        case Pause(on) => stopped := on;
        case Enter(c) => ok := Accept(c, fuel);
      }
    }

    /** copy_to_cooked. */
    method CopyToCooked(fuel: nat) returns (ok: bool)
      requires Valid()
      modifies this, readQ, readQ.buf, writeQ, writeQ.buf, secondary, secondary.buf, console, console.mem, console.par
      ensures Valid() && Did(ok, Run.CopyToCooked(termios, fuel, old(State()))) && crFlag == old(crFlag)
      decreases fuel, 8
    {
      hide Held, Run.OnKey, Terminal.TermOk;
      var left: nat := fuel;
      readQ.Room();
      secondary.Room();
      while !readQ.Empty() && !secondary.Full()
        invariant Valid() && left <= fuel && crFlag == old(crFlag)
        invariant readQ.Empty() <==> Held(State().read) == []
        invariant secondary.Full() <==> !Run.HasRoom(State())
        invariant Run.CopyToCooked(termios, left, State()) == Run.CopyToCooked(termios, fuel, old(State()))
        decreases left
      {
        if left == 0 {
          return false;
        }
        left := left - 1;
        var c := readQ.GetCh();
        ok := OnKey(c, left);
        if !ok {
          return;
        }
        readQ.Room();
        secondary.Room();
      }
      ok := true;
    }

    // ---------- output ----------

    /** Characters are queued until the text or the room ends; of a line end only the carriage return may
        have been queued. */
    method FillQueue(buf: seq<int>, start: nat, nr: nat) returns (b: nat)
      requires Valid() && start <= nr <= |buf|
      modifies this`crFlag, this`sent, writeQ`head, writeQ.buf
      ensures Valid() && start <= b <= nr
      ensures (State(), crFlag, buf[b..nr]) == Run.FillQueue(termios, old(State()), old(crFlag), buf[start..nr])
    {
      hide Held, Put, Terminal.TermOk, NeedsReturn, Sent;
      b := start;
      writeQ.Room();
      while b < nr && !writeQ.Full()
        invariant start <= b <= nr && Valid()
        invariant writeQ.Full() <==> |Held(State().write)| == SIZE - 1
        invariant Run.FillQueue(termios, State(), crFlag, buf[b..nr]) ==
            Run.FillQueue(termios, old(State()), old(crFlag), buf[start..nr])
        decreases nr - b, if crFlag then 0 else 1
      {
        assert buf[b..nr][0] == buf[b] && buf[b..nr][1..] == buf[b + 1..nr];
        var taken := PutOut(buf[b]);
        if taken {
          b := b + 1;
        }
        writeQ.Room();
      }
    }

    /** One character of the text; `taken` says whether it is done with, or only its carriage return is. */
    method PutOut(key: int) returns (taken: bool)
      requires Valid()
      modifies this`crFlag, this`sent, writeQ`head, writeQ.buf
      ensures Valid() && crFlag == !taken && (taken <==> !NeedsReturn(termios, key) || old(crFlag))
      ensures State() == Run.Send(old(State()), if taken then OutputText.Sent(termios, key) else 13)
    {
      hide Put, Terminal.TermOk, RingOk, Held;
      var c := key;
      if termios.opost {
        if c == 13 && termios.ocrnl {
          c := 10;
        } else if c == 10 && termios.onlret {
          c := 13;
        }
        if c == 10 && !crFlag && termios.onlcr {
          crFlag := true;
          Send(13);
          return false;
        }
        if termios.olcuc {
          c := Upper(c);
        }
      }
      assert c == OutputText.Sent(termios, key);
      hide OutputText.Sent, Swapped, NeedsReturn, Upper;
      crFlag := false;
      Send(c);
      return true;
    }

    /** tty_write. It is not done if it sleeps on a full queue, where nothing wakes it, or runs out of fuel. If the
        queue is not full at first and no reply disturbs the stream, it is done: exactly what was queued and the
        translation of the text has been shown, wherever the queue filled, and the full length is returned. */
    method TtyWrite(channel: nat, buf: seq<int>, nr: int, fuel: nat) returns (done: bool, n: int)
      requires Valid() && nr <= |buf| && (channel == 0 || channel > 2)
      modifies this, readQ, readQ.buf, writeQ, writeQ.buf, secondary, secondary.buf, console, console.mem, console.par
      ensures Valid()
      ensures channel > 2 || nr < 0 ==> done && n == -1 && State() == old(State()) && crFlag == old(crFlag)
      ensures channel == 0 && nr >= 0 ==>
          var r := Run.WriteText(termios, fuel, old(State()), old(crFlag), buf[..nr]);
          (done <==> r.Some?) && (done ==> n == nr && (State(), crFlag) == r.value)
      ensures channel == 0 && nr > 0 && fuel > SIZE + ROOM
              && TextWrites.CalmWrite(termios, old(State()), old(crFlag), buf[..nr]) ==>
          done && n == nr && !crFlag && Held(writeQ.Value()) == []
          && shown == old(shown) + old(Held(writeQ.Value())) + Translated(termios, old(crFlag), buf[..nr])
    {
      hide Held, Run.FillQueue, Run.ConWrite, Terminal.TermOk, Translated, TextWrites.CalmWrite;
      if channel > 2 || nr < 0 {
        return true, -1;
      }
      if nr > 0 && fuel > SIZE + ROOM && TextWrites.CalmWrite(termios, State(), crFlag, buf[..nr]) {
        TextWrites.CalmIsWrote(termios, fuel, State(), crFlag, buf[..nr]);
      }
      var b := 0;
      assert buf[0..nr] == buf[..nr];
      writeQ.Room();
      while b < nr
        invariant 0 <= b <= nr && Valid()
        invariant writeQ.Full() <==> |Held(State().write)| == SIZE - 1
        invariant Run.WriteText(termios, fuel, State(), crFlag, buf[b..nr]) ==
            Run.WriteText(termios, fuel, old(State()), old(crFlag), buf[..nr])
        decreases nr - b, if crFlag then 0 else 1
      {
        if writeQ.Full() {
          return false, b;
        }
        b := FillQueue(buf, b, nr);
        done := ConWrite(fuel);
        if !done {
          return done, b;
        }
        writeQ.Room();
      }
      assert buf[b..nr] == [];
      return true, b;
    }
  }
}
