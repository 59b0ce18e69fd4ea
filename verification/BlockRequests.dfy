/** Requests of the block layer, filled, queued and completed in place (drivers/block/hardisk/ll_rw_blk.c, blk.h). */
module BlockRequests {
  import opened Elevator
  import opened DiskRuns
  import opened RequestState

  /** How far one call of ll_rw_block got before it returned or slept. */
  datatype Outcome = NoDevice | Ignored | WaitForBuffer | WaitForSlot | Queued(slot: nat)

  /** A queued outcome as a report. */
  function PlacedReport(r: Outcome, cmd: nat, b: Buf): Report {
    if r.Queued? then Placed(b.dev / 256, r.slot, KeyOf(Request(b.dev, cmd, 0, 2 * b.blocknr, 2, 0, NULL))) else Nothing
  }

  lemma ReportIs(s: State, k: int, b: nat, rw: nat)
    requires b < |s.bufs| && Major(s.bufs[b].dev) < NR_BLK_DEV && k >= NULL
    ensures k != NULL ==>
        PlacedReport(Queued(k), rw, s.bufs[b]) == Placed(QueueOf(s, b), k, KeyOf(NewRequest(s, b, rw)))
    ensures PlacedReport(Ignored, rw, s.bufs[b]) == PlacedReport(WaitForSlot, rw, s.bufs[b]) == Nothing
  {
  }

  lemma EnqueueBuffers(s: State, k: nat, b: nat, rw: nat)
    requires CanEnqueue(s, k, b, rw)
    ensures Enqueue(s, k, b, rw).bufs == s.bufs[b := s.bufs[b].(dirt := false)]
  {
    EnqueueShape(s, Enqueue(s, k, b, rw), k, b, rw, QueueOf(s, b));
  }

  lemma TwiceChanged(was: seq<Buf>, held: seq<Buf>, b: nat)
    requires b < |was| && held == was[b := was[b].(lock := true)]
    ensures held[b := held[b].(dirt := false)] == was[b := was[b].(dirt := false, lock := true)]
  {
  }

  lemma WithoutDriver(driver: seq<bool>, s: State, rw: nat, b: nat)
    requires Inv(s) && |driver| == NR_BLK_DEV && !driver[0] && rw <= 3 && b < |s.bufs|
    ensures HasDriver(driver, s.bufs[b]) <==> s.bufs[b].dev < 7 * 256 && driver[s.bufs[b].dev / 256]
    ensures !HasDriver(driver, s.bufs[b]) ==> Commanded(driver, s, rw, b) == (s, Nothing)
    ensures PlacedReport(NoDevice, rw % 2, s.bufs[b]) == Nothing
  {
  }

  /** Some slot below n is free. */
  ghost predicate SlotBelow(req: seq<Request>, n: nat) {
    exists i :: 0 <= i < n && i < |req| && req[i].dev < 0
  }

  /** Slot k is the highest free one below n. */
  ghost predicate HighestFree(req: seq<Request>, n: nat, k: nat) {
    k < n && k < |req| && req[k].dev < 0 && forall i :: k < i < n && i < |req| ==> req[i].dev >= 0
  }

  /** Reads may use all 32 slots, writes the lower 21. */
  lemma SlotsFor(req: seq<Request>, cmd: nat)
    requires |req| == NR_REQUEST && cmd <= 1
    ensures var k, n := FreeBelow(req, Limit(cmd)), if cmd == 0 then 32 else 21;
            (k == NULL <==> !SlotBelow(req, n)) && (k != NULL ==> HighestFree(req, n, k))
  {
  }

  class Requests {
    const req: array<Request>
    const bufs: array<Buf>
    /** blk_dev[].current_request. */
    const heads: array<int>
    /** Whether blk_dev[].request_fn is set. */
    const driver: seq<bool>
    /** Buffers locked by tasks that sleep in make_request until a slot is free. */
    var asleep: set<nat>
    ghost var qs: seq<seq<nat>>
    ghost var slotOf: seq<int>

    ghost function Abs(): State
      reads this, req, bufs, heads
    {
      State(req[..], bufs[..], heads[..], qs, slotOf)
    }

    ghost predicate Apart() {
      req as object != bufs && req as object != heads && bufs as object != heads && |driver| == NR_BLK_DEV
    }

    ghost predicate Valid()
      reads this, req, bufs, heads
    {
      Apart() && Inv(Abs()) && forall b :: 0 <= b < bufs.Length ==> (b in asleep <==> slotOf[b] == TASK)
    }

    /** blk_dev_init: no slot is in use, no buffer locked. */
    constructor BlkDevInit(driver: seq<bool>, buffers: seq<Buf>)
      requires |driver| == NR_BLK_DEV
      requires forall b :: 0 <= b < |buffers| ==> BufOk(buffers[b]) && !buffers[b].lock
      requires forall b, c :: 0 <= b < |buffers| && 0 <= c < |buffers| && SameBlock(buffers[b], buffers[c]) ==> b == c
      ensures Valid() && fresh(req) && fresh(bufs) && fresh(heads) && bufs[..] == buffers
      ensures forall h :: 0 <= h < NR_BLK_DEV ==> heads[h] == NULL && qs[h] == []
    {
      this.driver := driver;
      req := new Request[NR_REQUEST](i => Request(-1, READ, 0, 0, 0, 0, NULL));
      bufs := new Buf[|buffers|](i requires 0 <= i < |buffers| => buffers[i]);
      heads := new int[NR_BLK_DEV](i => NULL);
      asleep := {};
      qs := seq(NR_BLK_DEV, i => []);
      slotOf := seq(|buffers|, i => NOBODY);
      new;
      assert bufs[..] == buffers;
      forall h | 0 <= h < NR_BLK_DEV
        ensures TwoRuns(Keys(req[..], qs[h]))
      {
        assert Split([], 0);
      }
      assert forall b :: 0 <= b < |buffers| ==> BufOwned(Abs(), b);
    }

    /** The slot search of make_request: the highest free slot below the limit for the command, or NULL. */
    method FindSlot(rw: nat) returns (k: int)
      requires req.Length == NR_REQUEST
      ensures k == FreeBelow(req[..], Limit(rw))
      ensures rw <= 1 ==> (k == NULL <==> !SlotBelow(req[..], if rw == 0 then 32 else 21))
      ensures rw <= 1 && k != NULL ==> HighestFree(req[..], if rw == 0 then 32 else 21, k)
    {
      if rw <= 1 {
        SlotsFor(req[..], rw);
      }
      k := if rw == READ then NR_REQUEST else NR_REQUEST * 2 / 3;
      k := k - 1;
      while k >= 0 && req[k].dev >= 0
        invariant -1 <= k < Limit(rw) && FreeBelow(req[..], Limit(rw)) == FreeBelow(req[..], k + 1)
      {
        k := k - 1;
      }
    }

    /** The walk of add_request: from the head to the element after which slot k goes. */
    method FindPlace(h: nat, k: nat, ghost s: State, ghost r: Request) returns (tmp: nat)
      requires Inv(s) && h < NR_BLK_DEV && k < req.Length && heads.Length == NR_BLK_DEV && req[k] == r && InRange(r)
      requires k < |s.req| && req[..] == s.req[k := r] && k !in s.qs[h] && heads[..] == s.heads && heads[h] != NULL
      requires Chain(s.req, s.qs[h], s.heads[h]) && KeyOf(r) !in Keys(s.req, s.qs[h])
      ensures var i := Place(Keys(s.req, s.qs[h]), KeyOf(r), 0); i < |s.qs[h]| && tmp == s.qs[h][i]
    {
      ghost var q := s.qs[h];
      ghost var ks := Keys(s.req, q);
      hide Inv, KeyOf, InOrder, Place;
      tmp := heads[h];
      ghost var i := 0;
      assert q[0] in q;
      while req[tmp].next != NULL
        invariant i < |q| && tmp == q[i] && tmp < req.Length && tmp != k && req[tmp] == s.req[tmp]
        invariant Place(ks, KeyOf(r), i) == Place(ks, KeyOf(r), 0)
        decreases |q| - i
      {
        PlaceTurn(s, h, i, r);
        var next := req[tmp].next;
        assert q[i + 1] in q && next == q[i + 1];
        if (InOrder(req[tmp], req[k]) || !InOrder(req[tmp], req[next])) && InOrder(req[k], req[next]) {
          return;
        }
        tmp := next;
        i := i + 1;
      }
      PlaceTurn(s, h, i, r);
      PlaceAtEnd(ks, KeyOf(r), i);
    }

    /** add_request for the request just built in slot k for buffer b; s is the state before the slot was filled. */
    method AddRequest(h: nat, k: nat, b: nat, rw: nat, ghost s: State)
      requires Apart() && CanEnqueue(s, k, b, rw) && h == QueueOf(s, b)
      requires req.Length == NR_REQUEST && heads.Length == NR_BLK_DEV && bufs.Length == |s.bufs|
      requires Abs() == s.(req := s.req[k := NewRequest(s, b, rw)])
      modifies this`qs, this`slotOf, req, bufs, heads
      ensures Abs() == Enqueue(s, k, b, rw)
    {
      NewKeyNotQueued(s, k, b, rw, h);
      FreeSlotOffQueue(s, k, h);
      NullMeansEmpty(s, h);
      EnqueueIs(s, k, b, rw, h);
      hide Inv, Chain, KeyOf, Place, InsertAfter, Enqueue, Splice, NewRequest, Major;
      bufs[b] := bufs[b].(dirt := false);
      slotOf := slotOf[b := k];
      if heads[h] == NULL {
        heads[h] := k;
        qs := qs[h := [k]];
        return;
      }
      var tmp := FindPlace(h, k, s, NewRequest(s, b, rw));
      ghost var i := Place(Keys(s.req, s.qs[h]), KeyOf(NewRequest(s, b, rw)), 0);
      SpliceStores(tmp, k);
      qs := qs[h := InsertAfter(s.qs[h], i, k)];
      SpliceFilled(s.req, tmp, k, NewRequest(s, b, rw));
    }

    /** The two stores that put slot k behind slot tmp. */
    method SpliceStores(tmp: nat, k: nat)
      requires tmp < req.Length && k < req.Length
      modifies req
      ensures req[..] == Splice(old(req[..]), tmp, k, old(req[k]))
    {
      req[k] := req[k].(next := req[tmp].next);
      req[tmp] := req[tmp].(next := k);
    }

    method HoldBuffer(b: nat)
      requires Valid() && b < bufs.Length && !bufs[b].lock
      modifies this`slotOf, this`asleep, bufs
      ensures Valid() && Abs() == Hold(old(Abs()), b) && slotOf[b] == TASK
    {
      HoldKeeps(Abs(), b);
      hide Inv;
      bufs[b] := bufs[b].(lock := true);
      slotOf := slotOf[b := TASK];
      asleep := asleep + {b};
      assert Abs() == Hold(old(Abs()), b);
    }

    method FreeBuffer(b: nat)
      requires Valid() && b < bufs.Length && slotOf[b] == TASK
      modifies this`slotOf, this`asleep, bufs
      ensures Valid() && Abs() == Free(old(Abs()), b)
    {
      FreeKeeps(Abs(), b);
      hide Inv;
      bufs[b] := bufs[b].(lock := false);
      slotOf := slotOf[b := NOBODY];
      asleep := asleep - {b};
      assert Abs() == Free(old(Abs()), b);
    }

    /** make_request's last lines: slot k is filled for buffer b and queued. */
    method Fill(k: nat, rw: nat, b: nat)
      requires Valid() && CanEnqueue(Abs(), k, b, rw)
      modifies this, req, bufs, heads
      ensures Valid() && Abs() == old(Enqueue(Abs(), k, b, rw))
      ensures bufs[..] == old(bufs[..])[b := old(bufs[b]).(dirt := false)]
    {
      ghost var s := Abs();
      EnqueueKeeps(s, k, b, rw);
      EnqueueShape(s, Enqueue(s, k, b, rw), k, b, rw, QueueOf(s, b));
      assert req.Length == |s.req| && heads.Length == |s.heads|;
      EnqueueBuffers(s, k, b, rw);
      hide Inv, Enqueue, Spliced;
      req[k] := Request(bufs[b].dev, rw, 0, 2 * bufs[b].blocknr, 2, b, NULL);
      assert Abs() == s.(req := s.req[k := NewRequest(s, b, rw)]);
      AddRequest(bufs[b].dev / 256, k, b, rw, s);
      asleep := asleep - {b};
    }

    /** The slot search and what follows: without a free slot the task sleeps and the buffer stays locked, but a
        read-ahead or write-ahead gives up instead. */
    method Submit(rw: nat, ahead: bool, b: nat) returns (r: Outcome)
      requires Valid() && rw <= 1 && b < bufs.Length && slotOf[b] == TASK
      requires bufs[b].dev != 0 && Major(bufs[b].dev) < NR_BLK_DEV
      modifies this, req, bufs, heads
      ensures Valid() && |old(req[..])| == NR_REQUEST
      ensures var k := FreeBelow(old(req[..]), Limit(rw));
              r == if k != NULL then Queued(k) else if ahead then Ignored else WaitForSlot
      ensures Abs() == if r == Ignored then Free(old(Abs()), b) else old(Submitted(Abs(), b, rw).0)
      ensures PlacedReport(r, rw, old(bufs[b])) == old(Submitted(Abs(), b, rw).1)
      ensures r.Queued? ==> bufs[..] == old(bufs[..])[b := old(bufs[b]).(dirt := false)]
    {
      hide Chained, Members, Pending, Owned, Identities, Swept, Enqueue, KeyOf, FreeBelow, PlacedReport;
      ghost var s := Abs();
      assert req.Length == |s.req|;
      var k := FindSlot(rw);
      ReportIs(s, k, b, rw);
      if k == NULL {
        if ahead {
          FreeBuffer(b);
          return Ignored;
        }
        return WaitForSlot;
      }
      Fill(k, rw, b);
      r := Queued(k);
    }

    /** The buffer's device is one of the seven and has a driver. */
    predicate Driven(b: nat)
      requires b < bufs.Length && |driver| == NR_BLK_DEV
      reads bufs
    {
      bufs[b].dev < 7 * 256 && driver[bufs[b].dev / 256]
    }

    /** A write has something to do if the buffer is dirty, a read if it is not up to date. */
    predicate ToDo(cmd: nat, b: nat)
      requires b < bufs.Length
      reads bufs
    {
      if cmd == 1 then bufs[b].dirt else !bufs[b].uptodate
    }

    /** make_request up to the first sleep. */
    method MakeRequest(rw: nat, b: nat) returns (r: Outcome)
      requires Valid() && rw <= 3 && b < bufs.Length && !driver[0] && HasDriver(driver, bufs[b])
      modifies this, req, bufs, heads
      ensures Valid() && (Abs(), PlacedReport(r, rw % 2, old(bufs[b]))) == old(Commanded(driver, Abs(), rw, b))
      ensures |old(req[..])| == NR_REQUEST && r != NoDevice
      ensures r == WaitForBuffer <==> old(bufs[b]).lock && rw < 2
      ensures r == WaitForSlot <==>
          !old(bufs[b]).lock && old(ToDo(rw % 2, b)) && rw < 2 && FreeBelow(old(req[..]), Limit(rw % 2)) == NULL
      ensures r.Queued? <==>
          !old(bufs[b]).lock && old(ToDo(rw % 2, b)) && FreeBelow(old(req[..]), Limit(rw % 2)) != NULL
      ensures r.Queued? ==> r.slot == FreeBelow(old(req[..]), Limit(rw % 2))
      ensures r.Queued? ==> bufs[..] == old(bufs[..])[b := old(bufs[b]).(dirt := false, lock := true)]
    {
      ghost var s := Abs();
      assert |s.req| == NR_REQUEST;
      var ahead := rw >= READA;
      if ahead && bufs[b].lock {
        return Ignored;
      }
      var cmd := if ahead then rw - READA else rw;
      assert cmd == rw % 2;
      if bufs[b].lock {
        return WaitForBuffer;
      }
      assert BufOwned(Abs(), b);
      HoldKeeps(s, b);
      hide Inv, Enqueue, FreeBelow, KeyOf, Submitted;
      HoldBuffer(b);
      HoldFree(s, b);
      ghost var held := bufs[..];
      assert held == s.bufs[b := s.bufs[b].(lock := true)];
      if (cmd == WRITE && !bufs[b].dirt) || (cmd == READ && bufs[b].uptodate) {
        FreeBuffer(b);
        return Ignored;
      }
      r := Submit(cmd, ahead, b);
      TwiceChanged(s.bufs, held, b);
    }

    /** ll_rw_block up to the first sleep. Commands: read, write, and their ahead forms 2 and 3. */
    method LlRwBlock(rw: nat, b: nat) returns (r: Outcome)
      requires Valid() && rw <= 3 && b < bufs.Length && !driver[0]
      modifies this, req, bufs, heads
      ensures Valid() && (Abs(), PlacedReport(r, rw % 2, old(bufs[b]))) == old(Commanded(driver, Abs(), rw, b))
      ensures r == NoDevice <==> !old(Driven(b))
      ensures r == WaitForBuffer <==> old(Driven(b)) && old(bufs[b]).lock && rw < 2
      ensures r == WaitForSlot <==>
          old(Driven(b)) && !old(bufs[b]).lock && old(ToDo(rw % 2, b)) && rw < 2
          && !SlotBelow(old(req[..]), if rw % 2 == 0 then 32 else 21)
      ensures r.Queued? <==>
          old(Driven(b)) && !old(bufs[b]).lock && old(ToDo(rw % 2, b))
          && SlotBelow(old(req[..]), if rw % 2 == 0 then 32 else 21)
      ensures r.Queued? ==>
          && HighestFree(old(req[..]), if rw % 2 == 0 then 32 else 21, r.slot)
          && bufs[..] == old(bufs[..])[b := old(bufs[b]).(dirt := false, lock := true)]
    {
      ghost var s := Abs();
      assert |s.req| == NR_REQUEST;
      SlotsFor(s.req, rw % 2);
      hide *;
      WithoutDriver(driver, s, rw, b);
      var major := bufs[b].dev / 256;
      if major >= NR_BLK_DEV || !driver[major] {
        return NoDevice;
      }
      r := MakeRequest(rw, b);
    }

    /** end_request on the head of queue h. */
    method EndRequest(h: nat, uptodate: bool)
      requires Valid() && h < NR_BLK_DEV && heads[h] != NULL
      modifies this, req, bufs, heads
      ensures Valid() && old(CanFinish(Abs(), h)) && Abs() == old(Finish(Abs(), h, uptodate))
      ensures old(0 <= heads[h] < req.Length && req[heads[h]].bh < bufs.Length)
      ensures bufs[..] == old(bufs[..])[old(req[heads[h]].bh) := old(bufs[req[heads[h]].bh]).(uptodate := uptodate,
                                                                                         lock := false)]
      ensures req[old(heads[h])].dev < 0 && heads[h] == old(req[heads[h]].next)
    {
      hide Chained, Members, Pending, Owned, Identities, Swept, PendingOk;
      ghost var s := Abs();
      HeadIsPending(s, h);
      FinishKeeps(s, h, uptodate);
      var k := heads[h];
      var b := req[k].bh;
      asleep := asleep - {b};
      bufs[b] := bufs[b].(uptodate := uptodate, lock := false);
      req[k] := req[k].(dev := -1);
      heads[h] := req[k].next;
      qs := qs[h := qs[h][1..]];
      slotOf := slotOf[b := NOBODY];
      assert Abs() == Finish(s, h, uptodate);
    }

    /** read_intr and write_intr after a good transfer: one sector of the head is done; with none left it ends. */
    method TransferInterrupt(h: nat) returns (rep: Report)
      requires Valid() && h < NR_BLK_DEV && heads[h] != NULL
      modifies this, req, bufs, heads
      ensures Valid() && (Abs(), rep) == old(Transferred(Abs(), h))
      ensures old(0 <= heads[h] < req.Length && req[heads[h]].bh < bufs.Length)
      ensures old(req[heads[h]].nrSectors) == 1 ==>
          && rep.Ended? && req[old(heads[h])].dev < 0
          && bufs[..] == old(bufs[..])[old(req[heads[h]].bh) := old(bufs[req[heads[h]].bh]).(uptodate := true,
                                                                                         lock := false)]
      ensures old(req[heads[h]].nrSectors) != 1 ==>
          && rep == Nothing && bufs[..] == old(bufs[..]) && heads[h] == old(heads[h])
          && req[heads[h]].nrSectors == 1 && req[heads[h]].sector == old(req[heads[h]].sector) + 1
          && req[heads[h]].errors == (if old(req[heads[h]].cmd) == 0 then 0 else old(req[heads[h]].errors))
    {
      hide Chained, Members, Pending, Owned, Identities, Swept, PendingOk;
      ghost var s := Abs();
      HeadIsPending(s, h);
      var k := heads[h];
      rep := Nothing;
      if req[k].nrSectors == 1 {
        rep := Ended(h, k, KeyOf(req[k]));
        EndRequest(h, true);
        return;
      }
      SectorKeeps(s, h);
      if req[k].cmd == READ {
        req[k] := req[k].(errors := 0);
      }
      req[k] := req[k].(sector := req[k].sector + 1, nrSectors := req[k].nrSectors - 1);
      assert Abs() == Sector(s, h);
    }

    /** bad_rw_intr: one error more; at the last one allowed the head ends as failed. */
    method BadRwIntr(h: nat) returns (rep: Report)
      requires Valid() && h < NR_BLK_DEV && heads[h] != NULL
      modifies this, req, bufs, heads
      ensures Valid() && (Abs(), rep) == old(Failed(Abs(), h))
      ensures old(0 <= heads[h] < req.Length && req[heads[h]].bh < bufs.Length)
      ensures old(req[heads[h]].errors) >= 6 ==>
          && rep.Ended? && req[old(heads[h])].dev < 0
          && bufs[..] == old(bufs[..])[old(req[heads[h]].bh) := old(bufs[req[heads[h]].bh]).(uptodate := false,
                                                                                         lock := false)]
      ensures old(req[heads[h]].errors) < 6 ==>
          && rep == Nothing && bufs[..] == old(bufs[..]) && heads[h] == old(heads[h])
          && req[heads[h]] == old(req[heads[h]]).(errors := old(req[heads[h]].errors) + 1)
    {
      hide Chained, Members, Pending, Owned, Identities, Swept, PendingOk;
      ghost var s := Abs();
      HeadIsPending(s, h);
      MissedKeeps(s, h);
      var k := heads[h];
      req[k] := req[k].(errors := req[k].errors + 1);
      assert Abs() == Missed(s, h);
      rep := Nothing;
      if req[k].errors >= MAX_ERRORS {
        rep := Ended(h, k, KeyOf(req[k]));
        EndRequest(h, false);
      }
    }

    /** The cache re-keys an unlocked buffer to an identity nobody has. */
    method Recycle(b: nat, dev: nat, block: nat)
      requires Valid() && b < bufs.Length && !bufs[b].lock && dev < 0x1_0000 && block < 0x8000_0000
      requires forall c :: 0 <= c < bufs.Length && c != b ==>
          !(dev != 0 && bufs[c].dev == dev && bufs[c].blocknr == block)
      modifies bufs
      ensures Valid() && Abs() == Identify(old(Abs()), b, dev, block)
      ensures bufs[..] == old(bufs[..])[b := Buf(dev, block, false, false, false)]
    {
      IdentifyKeeps(Abs(), b, dev, block);
      hide Inv;
      bufs[b] := bufs[b].(dev := dev, blocknr := block, dirt := false, uptodate := false);
      assert Abs() == Identify(old(Abs()), b, dev, block);
    }

    method SetFlags(b: nat, dirt: bool, uptodate: bool)
      requires Valid() && b < bufs.Length
      modifies bufs
      ensures Valid() && Abs() == Mark(old(Abs()), b, dirt, uptodate)
    {
      MarkKeeps(Abs(), b, dirt, uptodate);
      hide Inv;
      bufs[b] := bufs[b].(dirt := dirt, uptodate := uptodate);
      assert Abs() == Mark(old(Abs()), b, dirt, uptodate);
    }

    /** One atomic section, with what became of a request. */
    method Handle(ev: DiskEvent) returns (rep: Report)
      requires Valid() && !driver[0]
      modifies this, req, bufs, heads
      ensures Valid() && (Abs(), rep) == old(Next(driver, Abs(), ev))
    {
      ghost var s := Abs();
      assert bufs.Length == |s.bufs| == |s.slotOf| && heads.Length == NR_BLK_DEV;
      hide Inv, Enqueue, Finish, Sector, Identify, Mark, Transferred, Failed, KeyOf, FreeBelow, Submitted, Commanded,
          PlacedReport;
      rep := Nothing;
      match ev
      case Command(rw, b) =>
        if rw <= 3 && b < bufs.Length {
          var buffer := bufs[b];
          var r := LlRwBlock(rw, b);
          rep := PlacedReport(r, rw % 2, buffer);
        }
      case TryAgain(rw, b) =>
        if rw <= 1 && b < bufs.Length && b in asleep && bufs[b].dev != 0 && bufs[b].dev / 256 < NR_BLK_DEV {
          var buffer := bufs[b];
          var r := Submit(rw, false, b);
          rep := PlacedReport(r, rw, buffer);
        }
      case Transfer(h) =>
        if h < NR_BLK_DEV && heads[h] != NULL {
          rep := TransferInterrupt(h);
        }
      case BadTransfer(h) =>
        if h < NR_BLK_DEV && heads[h] != NULL {
          rep := BadRwIntr(h);
        }
      case Refuse(h) =>
        if h < NR_BLK_DEV && heads[h] != NULL {
          HeadIsPending(s, h);
          rep := Ended(h, heads[h], KeyOf(req[heads[h]]));
          EndRequest(h, false);
        }
      case Rename(b, dev, block) =>
        if b < bufs.Length && !bufs[b].lock && dev < 0x1_0000 && block < 0x8000_0000
           && forall c :: 0 <= c < bufs.Length && c != b ==>
               !(dev != 0 && bufs[c].dev == dev && bufs[c].blocknr == block) {
          Recycle(b, dev, block);
        }
      case Flags(b, dirt, uptodate) =>
        if b < bufs.Length {
          SetFlags(b, dirt, uptodate);
        }
      case Pause =>
    }

    /** Every run, whatever tasks and interrupts do in whatever order: the arrays hold the state and give the reports of
        the run on values, to which the bounds on waiting apply. */
    method Run(evs: seq<DiskEvent>) returns (reports: seq<Report>)
      requires Valid() && !driver[0]
      modifies this, req, bufs, heads
      ensures Valid() && (Abs(), reports) == old(NextAll(driver, Abs(), evs))
    {
      reports := [];
      for i := 0 to |evs|
        invariant Valid() && (Abs(), reports) == old(NextAll(driver, Abs(), evs[..i]))
      {
        hide Inv, Next;
        var rep := Handle(evs[i]);
        reports := reports + [rep];
        assert evs[..i + 1][..i] == evs[..i];
      }
      assert evs[..|evs|] == evs;
    }
  }
}
