/** The character queues of a terminal: rings of 1024 slots that hold up to 1023 characters. */
module CharQueue {
  const SIZE: nat := 1024

  /** A ring as a value: nothing in it says which slots are still wanted but head and tail. */
  datatype Ring = RingOf(buf: seq<int>, head: nat, tail: nat)

  predicate RingOk(r: Ring) {
    |r.buf| == SIZE && r.head < SIZE && r.tail < SIZE
  }

  /** Slots between tail and head, going round. */
  function Distance(head: nat, tail: nat): nat
    requires head < SIZE && tail < SIZE
  {
    if head >= tail then head - tail else head - tail + SIZE
  }

  function Slot(tail: nat, i: nat): (k: nat)
    requires tail < SIZE && i < SIZE
    ensures k < SIZE
  {
    if tail + i < SIZE then tail + i else tail + i - SIZE
  }

  /** The characters held, oldest first. */
  function Held(r: Ring): (s: seq<int>)
    requires RingOk(r)
    ensures |s| == Distance(r.head, r.tail) < SIZE
  {
    seq(Distance(r.head, r.tail), i requires 0 <= i < SIZE => r.buf[Slot(r.tail, i)])
  }

  /** PUTCH: it does not look for room. */
  function Put(r: Ring, c: int): (q: Ring)
    requires RingOk(r)
    ensures RingOk(q)
  {
    RingOf(r.buf[r.head := c], (r.head + 1) % SIZE, r.tail)
  }

  /** The character GETCH reads and the ring it leaves: it does not look whether there is one. */
  function First(r: Ring): int
    requires RingOk(r)
  {
    r.buf[r.tail]
  }

  function Got(r: Ring): (q: Ring)
    requires RingOk(r)
    ensures RingOk(q)
  {
    r.(tail := (r.tail + 1) % SIZE)
  }

  function Newest(r: Ring): int
    requires RingOk(r)
  {
    r.buf[(r.head - 1) % SIZE]
  }

  /** DEC on the head: nor does deletion look. */
  function Dropped(r: Ring): (q: Ring)
    requires RingOk(r)
    ensures RingOk(q)
  {
    r.(head := (r.head - 1) % SIZE)
  }

  function PutAll(r: Ring, cs: seq<int>): (q: Ring)
    requires RingOk(r)
    ensures RingOk(q)
    decreases |cs|
  {
    if cs == [] then r else PutAll(Put(r, cs[0]), cs[1..])
  }

  /** A put appends, but into a full ring it leaves an empty one. */
  lemma PutHeld(r: Ring, c: int)
    requires RingOk(r)
    ensures Held(Put(r, c)) == if |Held(r)| < SIZE - 1 then Held(r) + [c] else []
  {
  }

  /** A get takes the oldest character; from an empty ring it makes one of 1023 characters, all read before. */
  lemma GotHeld(r: Ring)
    requires RingOk(r)
    ensures Held(r) != [] ==> Held(r) == [First(r)] + Held(Got(r))
    ensures Held(r) == [] ==> |Held(Got(r))| == SIZE - 1
  {
  }

  /** Deletion at the back; from an empty ring it too makes a full one. */
  lemma DroppedHeld(r: Ring)
    requires RingOk(r)
    ensures Held(r) != [] ==> Held(r) == Held(Dropped(r)) + [Newest(r)]
    ensures Held(r) == [] ==> |Held(Dropped(r))| == SIZE - 1
  {
  }

  /** What a ring holding h holds after more is put into it. */
  function Queued(h: seq<int>, cs: seq<int>): seq<int>
    decreases |cs|
  {
    if cs == [] then h else Queued(if |h| < SIZE - 1 then h + [cs[0]] else [], cs[1..])
  }

  lemma {:induction false} PutAllHeld(r: Ring, cs: seq<int>)
    requires RingOk(r)
    ensures Held(PutAll(r, cs)) == Queued(Held(r), cs)
    decreases |cs|
  {
    if cs != [] {
      PutHeld(r, cs[0]);
      PutAllHeld(Put(r, cs[0]), cs[1..]);
    }
  }

  /** What fits is appended. */
  lemma {:induction false} QueuedFits(h: seq<int>, cs: seq<int>)
    requires |h| + |cs| < SIZE
    ensures Queued(h, cs) == h + cs
    decreases |cs|
  {
    if cs == [] {
      assert h + cs == h;
    } else {
      QueuedFits(h + [cs[0]], cs[1..]);
      assert h + [cs[0]] + cs[1..] == h + cs;
    }
  }

  /** What does not fit loses a whole ring of characters. */
  lemma {:induction false} QueuedLoses(h: seq<int>, cs: seq<int>)
    requires |h| < SIZE && |cs| < SIZE <= |h| + |cs|
    ensures |Queued(h, cs)| == |h| + |cs| - SIZE
    decreases |cs|
  {
    if |h| < SIZE - 1 {
      QueuedLoses(h + [cs[0]], cs[1..]);
    } else {
      QueuedFits([], cs[1..]);
    }
  }

  class Queue {
    var data: nat
    var head: nat
    var tail: nat
    const buf: array<int>

    ghost predicate Valid()
      reads this
    {
      buf.Length == SIZE && head < SIZE && tail < SIZE
    }

    constructor ()
      ensures Valid() && fresh(buf) && data == 0 && Value() == RingOf(seq(SIZE, i => 0), 0, 0)
    {
      data, head, tail := 0, 0, 0;
      buf := new int[SIZE](i => 0);
      new;
      assert buf[..] == seq(SIZE, i => 0);
    }

    ghost function Value(): (r: Ring)
      requires Valid()
      reads this, buf
      ensures RingOk(r)
    {
      RingOf(buf[..], head, tail)
    }

    function Chars(): nat
      reads this
    {
      (head - tail) % SIZE
    }

    function Left(): nat
      reads this
    {
      (tail - head - 1) % SIZE
    }

    predicate Empty()
      reads this
    {
      head == tail
    }

    predicate Full()
      reads this
    {
      Left() == 0
    }

    /** The ring's arithmetic: one slot always stays free. */
    lemma Room()
      requires Valid()
      ensures Chars() == |Held(Value())| && Left() + |Held(Value())| == SIZE - 1
      ensures Empty() <==> Held(Value()) == []
      ensures Full() <==> |Held(Value())| == SIZE - 1
    {
    }

    method PutCh(c: int)
      requires Valid()
      modifies this`head, buf
      ensures Valid() && Value() == Put(old(Value()), c)
    {
      buf[head] := c;
      head := (head + 1) % SIZE;
    }

    method GetCh() returns (c: int)
      requires Valid()
      modifies this`tail
      ensures Valid() && c == First(old(Value())) && Value() == Got(old(Value()))
    {
      c := buf[tail];
      tail := (tail + 1) % SIZE;
    }

    function Last(): (c: int)
      requires Valid()
      reads this, buf
      ensures c == Newest(Value())
    {
      buf[(head - 1) % SIZE]
    }

    method Dec()
      requires Valid()
      modifies this`head
      ensures Valid() && Value() == Dropped(old(Value()))
    {
      head := (head - 1) % SIZE;
    }
  }
}
