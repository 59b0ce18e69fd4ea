/** The interrupt routines and the request loop of drivers/block/hardisk/hd.c on the request slots in place. */
module HardDisk {
  import opened BlockRequests
  import opened DiskProgress
  import opened DiskRuns
  import opened HdRuns
  import opened RequestState

  class Controller {
    const requests: Requests
    /** hd[].nr_sects of the partitions there are. */
    const sizes: seq<nat>
    var reset: bool
    var recalibrate: bool
    /** What do_hd stands for. */
    var busy: Busy

    ghost function Abs(): Drive
      reads this, requests, requests.req, requests.bufs, requests.heads
    {
      Drive(requests.Abs(), Ctl(reset, recalibrate, busy))
    }

    ghost predicate Valid()
      reads this, requests, requests.req, requests.bufs, requests.heads
    {
      requests.Valid() && DriveOk(Abs()) && !requests.driver[0]
    }

    /** Nothing is due and nothing under way. */
    constructor (requests: Requests, sizes: seq<nat>)
      requires requests.Valid() && !requests.driver[0]
      ensures Valid() && this.requests == requests && this.sizes == sizes
      ensures Abs() == Drive(old(requests.Abs()), Ctl(false, false, Idle))
    {
      this.requests, this.sizes := requests, sizes;
      reset, recalibrate, busy := false, false, Idle;
    }

    /** Whether two sectors from the request on do not fit on its partition. */
    method TooFar(k: nat) returns (far: bool)
      requires k < requests.req.Length && requests.req[k].dev >= 0
      ensures far == OutOfRange(sizes, requests.req[k])
      ensures far <==>
          || requests.req[k].dev % 256 >= |sizes|
          || (requests.req[k].sector + 2) % 0x1_0000_0000 > sizes[requests.req[k].dev % 256]
    {
      var dev := requests.req[k].dev % 256;
      far := dev >= |sizes| || (requests.req[k].sector + 2) % 0x1_0000_0000 > sizes[dev];
    }

    /** bad_rw_intr: one error more, perhaps the last; then a reset if what is now the head has more than three. */
    method BadRwIntr(junk: bool)
      requires Valid() && requests.heads[HD] != NULL
      modifies this`reset, this`busy, requests, requests.req, requests.bufs, requests.heads
      ensures requests.Valid() && Abs() == Failing(old(Abs()), junk) && busy == Idle
      ensures old(0 <= requests.heads[HD] < requests.req.Length)
      ensures old(requests.req[requests.heads[HD]].bh < requests.bufs.Length)
      ensures old(requests.req[requests.heads[HD]].errors) < 6 ==> requests.bufs[..] == old(requests.bufs[..])
      ensures old(requests.req[requests.heads[HD]].errors) >= 6 ==>
          requests.bufs[..] == old(requests.bufs[..])[old(requests.req[requests.heads[HD]].bh) :=
          old(requests.bufs[requests.req[requests.heads[HD]].bh]).(uptodate := false, lock := false)]
    {
      hide Inv, KeyOf, Failed;
      HeadQueuedAt(requests.Abs());
      var rep := requests.BadRwIntr(HD);
      HeadQueuedAt(requests.Abs());
      var k := requests.heads[HD];
      if (if k == NULL then junk else requests.req[k].errors > MAX_ERRORS / 2) {
        reset := true;
      }
      busy := Idle;
    }

    /** The result ends the head: the last sector came over well, or this is the seventh error. */
    predicate Settles(good: bool)
      reads this, requests, requests.req, requests.bufs, requests.heads
    {
      && requests.heads.Length == NR_BLK_DEV && 0 <= requests.heads[HD] < requests.req.Length
      && var r := requests.req[requests.heads[HD]];
         && r.bh < requests.bufs.Length
         && if good then busy == Data && r.nrSectors == 1 else busy != Idle && r.errors >= 6
    }

    /** read_intr, write_intr or recal_intr, whichever is due, up to its call of do_hd_request. */
    method Result(good: bool, junk: bool)
      requires Valid()
      modifies this, requests, requests.req, requests.bufs, requests.heads
      ensures Valid() && Abs() == HdNext(requests.driver, sizes, old(Abs()), Interrupt(good, junk)).0
      ensures old(Settles(good)) ==> requests.bufs[..] == old(requests.bufs[..])
          [old(requests.req[requests.heads[HD]].bh) :=
          old(requests.bufs[requests.req[requests.heads[HD]].bh]).(uptodate := good, lock := false)]
      ensures !old(Settles(good)) ==> requests.bufs[..] == old(requests.bufs[..])
    {
      hide Inv, HdNext, Failing, Transferred, Spare;
      ghost var d := Abs();
      HeadQueuedAt(d.s);
      HdTurn(requests.driver, sizes, d, Interrupt(good, junk));
      GoodIs(requests.driver, sizes, d, junk);
      if busy == Idle {
        return;
      }
      if !good {
        FailingIs(requests.driver, sizes, d, junk);
        BadRwIntr(junk);
      } else if busy == Data {
        var more := requests.req[requests.heads[HD]].nrSectors == 2;
        var rep := requests.TransferInterrupt(HD);
        busy := if more then Data else Idle;
      } else {
        busy := Idle;
      }
    }

    /** One turn of do_hd_request's loop on a waiting head. `silent` says that the drive would not ask for the data of a
        write; the result says whether the loop goes on, and whether for that reason. */
    method AskOnce(silent: bool, junk: bool) returns (again: bool, failed: bool)
      requires Valid() && busy == Idle && requests.heads[HD] != NULL
      modifies this, requests, requests.req, requests.bufs, requests.heads
      ensures Valid() && Waiting(old(Abs())) && again == (busy == Idle) && (failed ==> again)
      ensures again <==> Refused(sizes, old(Abs())) || (silent && Writes(sizes, old(Abs())))
      ensures failed <==> silent && Writes(sizes, old(Abs()))
      ensures Abs() == HdNext(requests.driver, sizes, old(Abs()), if failed then NoData(junk) else if again then Reject
          else Start).0
    {
      hide Inv, HdNext, Failing, Finish, Spare, OutOfRange;
      ghost var d := Abs();
      HeadQueuedAt(d.s);
      AskedIs(requests.driver, sizes, d);
      FailingIs(requests.driver, sizes, d, junk);
      HdTurn(requests.driver, sizes, d, if silent
          && Writes(sizes, d) then NoData(junk) else if Refused(sizes, d) then Reject else Start);
      var k := requests.heads[HD];
      var far := TooFar(k);
      if far {
        requests.EndRequest(HD, false);
        return true, false;
      }
      if reset {
        reset, recalibrate, busy := false, true, Specify;
        return false, false;
      }
      if recalibrate {
        recalibrate, busy := false, Restore;
        return false, false;
      }
      if requests.req[k].cmd == WRITE && silent {
        BadRwIntr(junk);
        return true, true;
      }
      busy := Data;
      return false, false;
    }

    /** do_hd_request, also called for a request queued on an empty queue. Each element of `timeouts` is a write for
        which the drive does not ask for its data. */
    method DoHdRequest(timeouts: seq<bool>)
      requires Valid() && busy == Idle
      modifies this, requests, requests.req, requests.bufs, requests.heads
      ensures Valid() && Abs() == Asked(requests.driver, sizes, old(Abs()), timeouts)
    {
      hide Inv, HdNext, Asked, Refused, Writes, Spare;
      var i := 0;
      var again := true;
      HeadQueuedAt(requests.Abs());
      while again && requests.heads[HD] != NULL
        invariant Valid() && again == (busy == Idle) && i <= |timeouts|
            && requests.heads.Length == NR_BLK_DEV == |requests.qs|
        invariant Asked(requests.driver, sizes, Abs(), timeouts[i..]) ==
            Asked(requests.driver, sizes, old(Abs()), timeouts)
        decreases again, |timeouts| - i + |requests.qs[HD]|
      {
        HeadQueuedAt(requests.Abs());
        ghost var d := Abs();
        var failed;
        var silent := i < |timeouts|;
        again, failed := AskOnce(silent, silent && timeouts[i]);
        QueueLengths(requests.driver, sizes, d, silent && timeouts[i]);
        AskedStep(requests.driver, sizes, d, timeouts[i..]);
        if failed {
          assert timeouts[i..][1..] == timeouts[i + 1..];
          i := i + 1;
        }
        HeadQueuedAt(requests.Abs());
      }
      NotWaiting(requests.driver, sizes, Abs(), timeouts[i..]);
    }

    /** A disk interrupt. */
    method HdInterrupt(good: bool, junk: bool, timeouts: seq<bool>)
      requires Valid()
      modifies this, requests, requests.req, requests.bufs, requests.heads
      ensures DriveOk(HdNext(requests.driver, sizes, old(Abs()), Interrupt(good, junk)).0)
      ensures Valid() && Abs() == Asked(requests.driver, sizes,
          HdNext(requests.driver, sizes, old(Abs()), Interrupt(good, junk)).0, timeouts)
    {
      Result(good, junk);
      if busy == Idle {
        DoHdRequest(timeouts);
      }
    }
  }
}
