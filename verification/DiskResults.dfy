/** What a task that asked for a block finds when its request is over: the buffer it asked for, unlocked, and up to date
    exactly if the last sector came over well (end_request, drivers/block/include/blk.h:93-109; bread,
    fs/buffer.c:204-219). Flags are spelled out here, apart from the functions that set them. */
module DiskResults {
  import opened DiskProgress
  import opened DiskRuns
  import opened HdRuns
  import opened RequestState

  /** From s to t the buffer of slot k is unlocked and gets that flag; no other buffer changes. */
  ghost predicate Settled(s: State, t: State, k: nat, uptodate: bool) {
    && k < |s.req| && s.req[k].bh < |s.bufs| && |t.bufs| == |s.bufs|
    && var b := s.req[k].bh;
       && t.bufs[b] == Buf(s.bufs[b].dev, s.bufs[b].blocknr, s.bufs[b].dirt, uptodate, false)
       && (forall c :: 0 <= c < |s.bufs| && c != b ==> t.bufs[c] == s.bufs[c])
  }

  lemma EndedWithSettles(s: State, h: nat, uptodate: bool)
    requires Inv(s) && h < NR_BLK_DEV && s.heads[h] != NULL
    ensures Settled(s, EndedWith(s, h, uptodate).0, s.heads[h], uptodate)
  {
    HeadIsPending(s, h);
  }

  lemma FailedSettles(s: State, h: nat)
    requires Inv(s) && h < NR_BLK_DEV && s.heads[h] != NULL
    ensures var (t, rep) := Failed(s, h); rep.Ended? ==> rep.slot == s.heads[h] && Settled(s, t, rep.slot, false)
  {
    hide Chained, Members, Pending, Owned, Identities, Swept, KeyOf, PendingOk, EndedWith;
    HeadIsPending(s, h);
    MissedKeeps(s, h);
    if Missed(s, h).req[s.heads[h]].errors >= MAX_ERRORS {
      EndedWithSettles(Missed(s, h), h, false);
      EndedWithSlot(Missed(s, h), h, false);
    }
  }

  lemma EndedWithSlot(s: State, h: nat, uptodate: bool)
    requires Inv(s) && h < NR_BLK_DEV && s.heads[h] != NULL
    ensures EndedWith(s, h, uptodate).1.Ended? && EndedWith(s, h, uptodate).1.slot == s.heads[h]
  {
    HeadIsPending(s, h);
  }

  /** Whatever ends a request: a good transfer leaves its buffer up to date, anything else does not. */
  lemma EndedSettles(driver: seq<bool>, s: State, ev: DiskEvent)
    requires Inv(s) && |driver| == NR_BLK_DEV && !driver[0]
    ensures var (t, rep) := Next(driver, s, ev);
            rep.Ended? ==> rep.slot < |s.req| && Settled(s, t, rep.slot, ev.Transfer?)
  {
    hide Chained, Members, Pending, Owned, Identities, Swept, KeyOf, PendingOk, Finish, Enqueue, Settled, Failed;
    match ev
    case Transfer(h) =>
      if h < NR_BLK_DEV && s.heads[h] != NULL {
        HeadIsPending(s, h);
        EndedWithSettles(s, h, true);
      }
    case BadTransfer(h) =>
      if h < NR_BLK_DEV && s.heads[h] != NULL {
        HeadIsPending(s, h);
        FailedSettles(s, h);
      }
    case Refuse(h) =>
      if h < NR_BLK_DEV && s.heads[h] != NULL {
        HeadIsPending(s, h);
        EndedWithSettles(s, h, false);
      }
    case _ =>
  }

  /** ll_rw_block queues a request at once if and only if the device is one of the seven and has a driver, the buffer is
      not locked, there is something to do, and a slot is free: of all 32 for a read, of the lower 21 for a write. */
  lemma PlacedIff(driver: seq<bool>, s: State, rw: nat, b: nat)
    requires Inv(s) && |driver| == NR_BLK_DEV && !driver[0] && rw <= 3 && b < |s.bufs|
    ensures var c := s.bufs[b];
            Next(driver, s, Command(rw, b)).1.Placed? <==>
            && c.dev < 7 * 256 && driver[c.dev / 256] && !c.lock
            && (if rw % 2 == 1 then c.dirt else !c.uptodate)
            && (exists i :: 0 <= i < (if rw % 2 == 1 then 21 else 32) && s.req[i].dev < 0)
  {
    hide Chained, Members, Pending, Owned, Identities, Swept, KeyOf, Enqueue;
    if HasDriver(driver, s.bufs[b]) && !s.bufs[b].lock && Needed(s.bufs[b], rw % 2) {
      HoldKeeps(s, b);
      assert Hold(s, b).req == s.req;
    }
  }

  /** A request just placed asks for the two sectors of its buffer's block, which stays locked and counts as clean. */
  lemma PlacedAsks(driver: seq<bool>, s: State, ev: DiskEvent)
    requires Inv(s) && |driver| == NR_BLK_DEV && !driver[0] && Next(driver, s, ev).1.Placed?
    ensures (ev.Command? || ev.TryAgain?) && ev.b < |s.bufs|
    ensures var (t, rep), b := Next(driver, s, ev), s.bufs[ev.b];
            && |t.bufs| == |s.bufs| && t.bufs[ev.b] == Buf(b.dev, b.blocknr, false, b.uptodate, true)
            && (forall c :: 0 <= c < |s.bufs| && c != ev.b ==> t.bufs[c] == s.bufs[c])
            && rep.slot < |t.req|
            && SameRequest(t.req[rep.slot], Request(b.dev, ev.rw % 2, 0, 2 * b.blocknr, 2, ev.b, NULL))
  {
    hide Chained, Members, Pending, Owned, Identities, Swept, KeyOf, PendingOk, Finish, Enqueue;
    match ev
    case Command(rw, b) =>
      HoldKeeps(s, b);
      SubmittedAsks(Hold(s, b), b, rw % 2);
    case TryAgain(rw, b) =>
      SubmittedAsks(s, b, rw);
      HeldIsLocked(s, b);
    case _ =>
  }

  lemma HeldIsLocked(s: State, b: nat)
    requires Inv(s) && b < |s.bufs| && s.slotOf[b] == TASK
    ensures s.bufs[b].lock
  {
    assert BufOwned(s, b);
  }

  lemma SubmittedAsks(s: State, b: nat, cmd: nat)
    requires Inv(s) && b < |s.bufs| && s.slotOf[b] == TASK && cmd <= 1 && s.bufs[b].dev != 0
        && Major(s.bufs[b].dev) < NR_BLK_DEV
    ensures var (t, rep), c := Submitted(s, b, cmd), s.bufs[b];
            rep.Placed? ==>
              && t.bufs == s.bufs[b := Buf(c.dev, c.blocknr, false, c.uptodate, c.lock)] && rep.slot < |t.req|
              && SameRequest(t.req[rep.slot], Request(c.dev, cmd, 0, 2 * c.blocknr, 2, b, NULL))
  {
    var k := FreeBelow(s.req, Limit(cmd));
    if k != NULL {
      EnqueueShape(s, Enqueue(s, k, b, cmd), k, b, cmd, QueueOf(s, b));
    }
  }

  /** Slots in use keep their buffer. */
  lemma SubmittedBuffers(s: State, b: nat, cmd: nat, l: nat)
    requires Inv(s) && b < |s.bufs| && s.slotOf[b] == TASK && cmd <= 1 && s.bufs[b].dev != 0
        && Major(s.bufs[b].dev) < NR_BLK_DEV
    requires l < |s.req| && s.req[l].dev >= 0
    ensures var t := Submitted(s, b, cmd).0;
            l < |t.req| && t.req[l].bh == s.req[l].bh && t.req[l].cmd == s.req[l].cmd
  {
    var k := FreeBelow(s.req, Limit(cmd));
    hide Inv, KeyOf, Enqueue;
    if k != NULL {
      EnqueueSame(s, k, b, cmd, l);
    }
  }

  lemma EnqueueSame(s: State, k: nat, b: nat, rw: nat, l: nat)
    requires CanEnqueue(s, k, b, rw) && l < |s.req| && s.req[l].dev >= 0
    ensures var t := Enqueue(s, k, b, rw); l < |t.req| && SameRequest(s.req[l], t.req[l])
  {
    EnqueueShape(s, Enqueue(s, k, b, rw), k, b, rw, QueueOf(s, b));
    hide Chained, Members, Pending, Owned, Identities, Swept, KeyOf, Chain, Enqueue;
  }

  lemma BufferStays(driver: seq<bool>, s: State, ev: DiskEvent, l: nat)
    requires Inv(s) && |driver| == NR_BLK_DEV && !driver[0] && l < |s.req| && s.req[l].dev >= 0
    ensures var t := Next(driver, s, ev).0;
            l < |t.req| && t.req[l].bh == s.req[l].bh && t.req[l].cmd == s.req[l].cmd
  {
    hide Chained, Members, Pending, Owned, Identities, Swept, KeyOf, PendingOk, Submitted;
    match ev
    case Command(rw, b) =>
      if rw <= 3 && b < |s.bufs| && HasDriver(driver, s.bufs[b]) && !s.bufs[b].lock && Needed(s.bufs[b], rw % 2) {
        HoldKeeps(s, b);
        SubmittedBuffers(Hold(s, b), b, rw % 2, l);
      }
    case TryAgain(rw, b) =>
      if rw <= 1 && b < |s.bufs| && s.slotOf[b] == TASK && s.bufs[b].dev != 0 && Major(s.bufs[b].dev) < NR_BLK_DEV {
        SubmittedBuffers(s, b, rw, l);
      }
    case Transfer(h) =>
      if h < NR_BLK_DEV && s.heads[h] != NULL {
        HeadIsPending(s, h);
      }
    case BadTransfer(h) =>
      if h < NR_BLK_DEV && s.heads[h] != NULL {
        HeadIsPending(s, h);
      }
    case Refuse(h) =>
      if h < NR_BLK_DEV && s.heads[h] != NULL {
        HeadIsPending(s, h);
      }
    case _ =>
  }

  /** Slot k of queue g asks for buffer b with the given command and key. */
  ghost predicate Asks(s: State, g: nat, k: nat, key: int, b: nat, cmd: nat) {
    InSlot(s, g, k, key) && s.req[k].bh == b && s.req[k].cmd == cmd
  }

  /** The block a slot asks for is the identity of its buffer, which is locked. */
  lemma AskedBuffer(s: State, g: nat, k: nat, key: int, b: nat, cmd: nat)
    requires Inv(s) && g < NR_BLK_DEV && Asks(s, g, k, key, b, cmd)
    ensures b < |s.bufs| && s.bufs[b].lock && k < |s.req| && s.req[k].dev >= 0
    ensures s.bufs[b].dev < 0x1_0000 && s.bufs[b].blocknr < 0x8000_0000
    ensures key == (cmd * 0x1_0000 + s.bufs[b].dev) * 0x8000_0000 + s.bufs[b].blocknr
  {
    hide Chained, Swept;
    assert OnQueue(s, g, k);
    assert PendingOk(s, k) && Owns(s, k);
    assert BufOwned(s, b);
    assert BufOk(s.bufs[b]);
  }

  lemma SameIdentity(a: Buf, b: Buf, cmd: nat)
    requires a.dev < 0x1_0000 && a.blocknr < 0x8000_0000 && b.dev < 0x1_0000 && b.blocknr < 0x8000_0000
    requires (cmd * 0x1_0000 + a.dev) * 0x8000_0000 + a.blocknr == (cmd * 0x1_0000 + b.dev) * 0x8000_0000 + b.blocknr
    ensures a.dev == b.dev && a.blocknr == b.blocknr
  {
  }

  lemma {:induction false} StillAsks(driver: seq<bool>, s: State, evs: seq<DiskEvent>, g: nat, k: nat, key: int, b: nat,
      cmd: nat)
    requires Inv(s) && |driver| == NR_BLK_DEV && !driver[0] && g < NR_BLK_DEV && Asks(s, g, k, key, b, cmd)
    requires Ended(g, k, key) !in NextAll(driver, s, evs).1
    ensures Asks(NextAll(driver, s, evs).0, g, k, key, b, cmd)
    decreases |evs|
  {
    hide Inv, Next, InSlot;
    if evs != [] {
      var before := evs[..|evs| - 1];
      var (t, reports) := NextAll(driver, s, before);
      var rep := Next(driver, t, evs[|evs| - 1]).1;
      assert forall r :: r in reports ==> r in reports + [rep];
      assert rep in reports + [rep];
      StillAsks(driver, s, before, g, k, key, b, cmd);
      AskedBuffer(t, g, k, key, b, cmd);
      NextStays(driver, t, evs[|evs| - 1], g, k, key);
      BufferStays(driver, t, evs[|evs| - 1], k);
    }
  }

  /** The promise of bread and of a write: whatever happens meanwhile, the buffer a pending slot asks for stays locked
      and keeps its block until the end of that very request is reported. Then it is unlocked, still that block, and up
      to date if and only if it was a good transfer that ended the request. */
  lemma RequestOutcome(driver: seq<bool>, s: State, evs: seq<DiskEvent>, ev: DiskEvent, g: nat, k: nat, key: int)
    requires Inv(s) && |driver| == NR_BLK_DEV && !driver[0] && g < NR_BLK_DEV && InSlot(s, g, k, key)
    requires Ended(g, k, key) !in NextAll(driver, s, evs).1
    requires Next(driver, NextAll(driver, s, evs).0, ev).1 == Ended(g, k, key)
    ensures var t, b := NextAll(driver, s, evs).0, s.req[k].bh;
            var u := Next(driver, t, ev).0;
            && b < |s.bufs| && b < |t.bufs| && b < |u.bufs|
            && t.bufs[b].lock && (t.bufs[b].dev, t.bufs[b].blocknr) == (s.bufs[b].dev, s.bufs[b].blocknr)
            && !u.bufs[b].lock && (u.bufs[b].dev, u.bufs[b].blocknr) == (s.bufs[b].dev, s.bufs[b].blocknr)
            && (u.bufs[b].uptodate <==> ev.Transfer?)
  {
    hide Inv, Next, NextAll, KeyOf;
    var t, b, cmd := NextAll(driver, s, evs).0, s.req[k].bh, s.req[k].cmd;
    StillAsks(driver, s, evs, g, k, key, b, cmd);
    AskedBuffer(s, g, k, key, b, cmd);
    AskedBuffer(t, g, k, key, b, cmd);
    SameIdentity(s.bufs[b], t.bufs[b], cmd);
    EndedSettles(driver, t, ev);
  }

  /** On the hard disk a request ends well exactly with an interrupt that reports no error while a transfer is under
      way; a reset, a command without an answer or a block off the partition never makes a buffer up to date. */
  lemma HdEndsWell(driver: seq<bool>, sizes: seq<nat>, d: Drive, ev: HdEvent)
    requires DriveOk(d) && |driver| == NR_BLK_DEV && !driver[0]
    ensures var (u, rep) := HdNext(driver, sizes, d, ev);
            EndsOn(rep, HD) ==>
              && rep.slot < |d.s.req|
              && Settled(d.s, u.s, rep.slot, ev.Interrupt? && ev.good && d.ctl.busy == Data)
  {
    hide Inv, Next, Settled, Refused, Writes, Controlled;
    EndedSettles(driver, d.s, Effect(sizes, d, ev));
    OnlyAbout(driver, d.s, Effect(sizes, d, ev));
  }

  /** Only an event about the head of a queue ends something there. */
  lemma OnlyAbout(driver: seq<bool>, s: State, ev: DiskEvent)
    requires Inv(s) && |driver| == NR_BLK_DEV && !driver[0]
    ensures EndsOn(Next(driver, s, ev).1, HD) ==> About(ev, HD)
  {
    hide Chained, Members, Pending, Owned, Identities, Swept, KeyOf, PendingOk, Finish, Enqueue, Submitted;
    match ev
    case Command(rw, b) =>
      if rw <= 3 && b < |s.bufs| && HasDriver(driver, s.bufs[b]) && !s.bufs[b].lock && Needed(s.bufs[b], rw % 2) {
        HoldKeeps(s, b);
        NotEnded(Hold(s, b), b, rw % 2);
      }
    case TryAgain(rw, b) =>
      if rw <= 1 && b < |s.bufs| && s.slotOf[b] == TASK && s.bufs[b].dev != 0 && Major(s.bufs[b].dev) < NR_BLK_DEV {
        NotEnded(s, b, rw);
      }
    case _ =>
  }

  lemma NotEnded(s: State, b: nat, cmd: nat)
    requires Inv(s) && b < |s.bufs| && s.slotOf[b] == TASK && cmd <= 1 && s.bufs[b].dev != 0
        && Major(s.bufs[b].dev) < NR_BLK_DEV
    ensures !Submitted(s, b, cmd).1.Ended?
  {
  }
}
