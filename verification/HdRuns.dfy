/** The hard disk driver of drivers/block/hardisk/hd.c: which routine the next interrupt calls, when the controller is
    reset, and how many interrupts a pending slot can wait for. Starting a request and every interrupt are separate
    steps here; in the driver the first follows the second at once. */
module HdRuns {
  import opened Elevator
  import opened DiskProgress
  import opened DiskRuns
  import opened RequestState

  const HD: nat := 3

  /** What the controller is busy with: nothing, the two commands of a reset, or a transfer. */
  datatype Busy = Idle | Specify | Restore | Data

  /** The driver's flags and what the next interrupt reports on. */
  datatype Ctl = Ctl(reset: bool, recalibrate: bool, busy: Busy)

  datatype Drive = Drive(s: State, ctl: Ctl)

  /** What happens: something that is not about the head of this queue, an interrupt, and what do_hd_request does with
      the head: refuse it, try to write it without getting an answer, or start a command. `junk` is what is read through
      the null pointer in place of the next request's errors when there is none. */
  datatype HdEvent = Elsewhere(ev: DiskEvent) | Interrupt(good: bool, junk: bool) | Reject | NoData(junk: bool) | Start

  /** A head is waiting to be started. */
  ghost predicate Waiting(d: Drive) {
    HasHead(d.s, HD) && d.ctl.busy == Idle
  }

  /** Two sectors from the request's on do not fit on its partition, also for a request whose first sector is done. */
  predicate OutOfRange(sizes: seq<nat>, r: Request)
    requires r.dev >= 0
  {
    r.dev % 256 >= |sizes| || (r.sector + 2) % 0x1_0000_0000 > sizes[r.dev % 256]
  }

  ghost predicate Refused(sizes: seq<nat>, d: Drive) {
    Waiting(d) && Head(d.s, HD).dev >= 0 && OutOfRange(sizes, Head(d.s, HD))
  }

  /** The head is a write that is to be started now. */
  ghost predicate Writes(sizes: seq<nat>, d: Drive) {
    Waiting(d) && !Refused(sizes, d) && !d.ctl.reset && !d.ctl.recalibrate && Head(d.s, HD).cmd == WRITE
  }

  /** What the event does to requests and buffers. */
  ghost function Effect(sizes: seq<nat>, d: Drive, ev: HdEvent): DiskEvent {
    match ev
    case Elsewhere(e) => if About(e, HD) then Pause else e
    case Interrupt(good, junk) =>
      if d.ctl.busy == Idle then Pause else if !good then BadTransfer(HD)
      else if d.ctl.busy == Data then Transfer(HD) else Pause
    case Reject => if Refused(sizes, d) then Refuse(HD) else Pause
    case NoData(junk) => if Writes(sizes, d) then BadTransfer(HD) else Pause
    case Start => Pause
  }

  /** bad_rw_intr's look at the errors of what is now the head. */
  ghost function AfterError(t: State, ctl: Ctl, junk: bool): Ctl {
    Ctl(ctl.reset || (if HasHead(t, HD) then Head(t, HD).errors > MAX_ERRORS / 2 else junk), ctl.recalibrate, Idle)
  }

  /** What do_hd_request asks for. */
  function Started(ctl: Ctl): Ctl {
    if ctl.reset then Ctl(false, true, Specify)
    else if ctl.recalibrate then Ctl(false, false, Restore)
    else Ctl(false, false, Data)
  }

  ghost function Controlled(sizes: seq<nat>, d: Drive, ev: HdEvent, t: State): Ctl {
    match ev
    case Elsewhere(e) => d.ctl
    case Interrupt(good, junk) =>
      if d.ctl.busy == Idle then d.ctl
      else if !good then AfterError(t, d.ctl, junk)
      else if d.ctl.busy == Data && HasHead(d.s, HD) && Head(d.s, HD).nrSectors == 2 then d.ctl
      else d.ctl.(busy := Idle)
    case Reject => d.ctl
    case NoData(junk) => if Writes(sizes, d) then AfterError(t, d.ctl, junk) else d.ctl
    case Start => if Waiting(d) && !Refused(sizes, d) then Started(d.ctl) else d.ctl
  }

  /** What holds between two events: while the controller is busy there is a head, and no reset is due that it does
      not know of. */
  ghost predicate DriveOk(d: Drive) {
    && Inv(d.s) && (d.ctl.busy != Idle ==> HasHead(d.s, HD) && !d.ctl.reset)
    && (d.ctl.busy == Specify ==> d.ctl.recalibrate)
        && (d.ctl.busy == Restore || d.ctl.busy == Data ==> !d.ctl.recalibrate)
  }

  ghost function HdNext(driver: seq<bool>, sizes: seq<nat>, d: Drive, ev: HdEvent): (Drive, Report)
    requires Inv(d.s) && |driver| == NR_BLK_DEV && !driver[0]
  {
    var (t, rep) := Next(driver, d.s, Effect(sizes, d, ev));
    (Drive(t, Controlled(sizes, d, ev, t)), rep)
  }

  // ---------- how many interrupts a request takes ----------

  /** The most interrupts a request at its last sector still takes: the seventh error ends it, and so does a good
      transfer; from the fourth on every error is followed by a reset and its two interrupts. */
  function ErrorsLeft(e: nat): (n: nat)
    ensures 1 <= n <= 13
  {
    if e + 1 >= MAX_ERRORS then 1
    else if e >= MAX_ERRORS / 2 then 1 + 3 * (MAX_ERRORS - 1 - e)
    else MAX_ERRORS / 2 - e + 10
  }

  /** A good transfer of the first sector may forget the errors. */
  function WorkLeft(r: Request): (n: nat)
    ensures 1 <= n <= 26
  {
    ErrorsLeft(r.errors) + if r.nrSectors == 2 then 13 else 0
  }

  /** The interrupts of a reset that are still to come. */
  function ResetsLeft(ctl: Ctl): (n: nat)
    ensures n <= 2
  {
    match ctl.busy
    case Idle => if ctl.reset then 2 else if ctl.recalibrate then 1 else 0
    case Specify => 2
    case Restore => 1
    case Data => 0
  }

  const MAX_TURNS: nat := 28

  /** All together, for the head; a queue without one counts as if a fresh request were there. */
  ghost function Spare(d: Drive): (n: nat)
    ensures 1 <= n <= MAX_TURNS
  {
    (if HasHead(d.s, HD) then WorkLeft(Head(d.s, HD)) else 26) + ResetsLeft(d.ctl)
  }

  ghost predicate Interrupts(d: Drive, ev: HdEvent) {
    ev.Interrupt? && d.ctl.busy != Idle
  }

  /** An interrupt ends the head or leaves it fewer turns; nothing else gives it more. */
  ghost predicate TurnOk(d: Drive, ev: HdEvent, u: Drive, rep: Report) {
    DriveOk(u) && (EndsOn(rep, HD) || if Interrupts(d, ev) then Spare(u) < Spare(d) else Spare(u) <= Spare(d))
  }

  lemma KeptTurn(d: Drive, u: Drive)
    requires DriveOk(d) && Inv(u.s) && HeadKept(d.s, u.s, HD)
    requires u.ctl == d.ctl || (Waiting(d) && u.ctl == Started(d.ctl))
    ensures DriveOk(u) && Spare(u) <= Spare(d)
    ensures HasHead(d.s, HD) ==> Spare(u) == Spare(d)
  {
    hide Inv;
  }

  lemma GoodTurn(driver: seq<bool>, sizes: seq<nat>, d: Drive, junk: bool)
    requires DriveOk(d) && Running(driver, d.s, HD) && d.ctl.busy == Data
    ensures var (u, rep) := HdNext(driver, sizes, d, Interrupt(true, junk)); TurnOk(d, Interrupt(true, junk), u, rep)
  {
    hide Inv, Next;
    HeadQueuedAt(d.s);
    GoodResult(driver, d.s, HD);
  }

  lemma BadTurn(driver: seq<bool>, sizes: seq<nat>, d: Drive, ev: HdEvent, junk: bool)
    requires DriveOk(d) && Running(driver, d.s, HD)
    requires (ev == Interrupt(false, junk) && d.ctl.busy != Idle) || (ev == NoData(junk) && Writes(sizes, d))
    ensures var (u, rep) := HdNext(driver, sizes, d, ev); TurnOk(d, ev, u, rep)
  {
    hide Inv, Next;
    HeadQueuedAt(d.s);
    BadResult(driver, d.s, HD);
  }

  lemma HdTurn(driver: seq<bool>, sizes: seq<nat>, d: Drive, ev: HdEvent)
    requires DriveOk(d) && Running(driver, d.s, HD)
    ensures var (u, rep) := HdNext(driver, sizes, d, ev); TurnOk(d, ev, u, rep)
  {
    HeadQueued(d.s, HD);
    var e := Effect(sizes, d, ev);
    if !(About(e, HD) && d.s.heads[HD] != NULL) {
      OthersKeepHead(driver, d.s, e, HD);
      hide Inv, Next, HeadKept;
      if Interrupts(d, ev) {
        ResetTurn(d, HdNext(driver, sizes, d, ev).0);
      } else {
        KeptTurn(d, HdNext(driver, sizes, d, ev).0);
      }
    } else {
      hide Inv, Next;
      match ev
      case Interrupt(good, junk) =>
        if good {
          GoodTurn(driver, sizes, d, junk);
        } else {
          BadTurn(driver, sizes, d, ev, junk);
        }
      case Reject => RefusedResult(driver, d.s, HD);
      case NoData(junk) => BadTurn(driver, sizes, d, ev, junk);
    }
  }

  /** A reset command that went well. */
  lemma ResetTurn(d: Drive, u: Drive)
    requires DriveOk(d) && Inv(u.s) && HeadKept(d.s, u.s, HD) && (d.ctl.busy == Specify || d.ctl.busy == Restore)
    requires u.ctl == d.ctl.(busy := Idle)
    ensures DriveOk(u) && Spare(u) + 1 == Spare(d)
  {
    hide Inv;
  }

  // ---------- runs ----------

  /** A whole run, and what it did to requests and buffers. */
  ghost function HdAll(driver: seq<bool>, sizes: seq<nat>, d: Drive, evs: seq<HdEvent>): (r: (Drive, seq<DiskEvent>))
    requires Inv(d.s) && |driver| == NR_BLK_DEV && !driver[0]
    ensures Inv(r.0.s) && |r.1| == |evs|
    decreases |evs|
  {
    if evs == [] then (d, [])
    else
      var (c, es) := HdAll(driver, sizes, d, evs[..|evs| - 1]);
      (HdNext(driver, sizes, c, evs[|evs| - 1]).0, es + [Effect(sizes, c, evs[|evs| - 1])])
  }

  /** A run of the driver is a run on the requests. */
  lemma {:induction false} HdRunIsRun(driver: seq<bool>, sizes: seq<nat>, d: Drive, evs: seq<HdEvent>)
    requires Inv(d.s) && |driver| == NR_BLK_DEV && !driver[0]
    ensures var (u, es) := HdAll(driver, sizes, d, evs); NextAll(driver, d.s, es).0 == u.s
    decreases |evs|
  {
    hide Inv, Next, Effect, Controlled;
    if evs != [] {
      HdRunIsRun(driver, sizes, d, evs[..|evs| - 1]);
      var (c, es) := HdAll(driver, sizes, d, evs[..|evs| - 1]);
      assert (es + [Effect(sizes, c, evs[|evs| - 1])])[..|es|] == es;
    }
  }

  ghost function ReportsOf(driver: seq<bool>, sizes: seq<nat>, d: Drive, evs: seq<HdEvent>): seq<Report>
    requires Inv(d.s) && |driver| == NR_BLK_DEV && !driver[0]
  {
    NextAll(driver, d.s, HdAll(driver, sizes, d, evs).1).1
  }

  lemma OneMoreReport(driver: seq<bool>, sizes: seq<nat>, d: Drive, evs: seq<HdEvent>, ev: HdEvent)
    requires Inv(d.s) && |driver| == NR_BLK_DEV && !driver[0]
    ensures HdAll(driver, sizes, d, evs + [ev]).0 == HdNext(driver, sizes, HdAll(driver, sizes, d, evs).0, ev).0
    ensures ReportsOf(driver, sizes, d, evs + [ev])
         == ReportsOf(driver, sizes, d, evs) + [HdNext(driver, sizes, HdAll(driver, sizes, d, evs).0, ev).1]
  {
    hide Inv, Next, Effect, Controlled;
    HdRunIsRun(driver, sizes, d, evs);
    assert (evs + [ev])[..|evs|] == evs;
    var (c, es) := HdAll(driver, sizes, d, evs);
    assert (es + [Effect(sizes, c, ev)])[..|es|] == es;
  }

  /** The interrupts of a run that come while the controller is busy. */
  ghost function InterruptsIn(driver: seq<bool>, sizes: seq<nat>, d: Drive, evs: seq<HdEvent>): nat
    requires Inv(d.s) && |driver| == NR_BLK_DEV && !driver[0]
    decreases |evs|
  {
    if evs == [] then 0
    else
      var before := evs[..|evs| - 1];
      InterruptsIn(driver, sizes, d, before)
      + One(Interrupts(HdAll(driver, sizes, d, before).0, evs[|evs| - 1]))
  }

  lemma OneMoreInterrupt(driver: seq<bool>, sizes: seq<nat>, d: Drive, evs: seq<HdEvent>, ev: HdEvent)
    requires Inv(d.s) && |driver| == NR_BLK_DEV && !driver[0]
    ensures InterruptsIn(driver, sizes, d, evs + [ev])
         == InterruptsIn(driver, sizes, d, evs) + One(Interrupts(HdAll(driver, sizes, d, evs).0, ev))
  {
    assert (evs + [ev])[..|evs|] == evs;
  }

  lemma TurnsAdd(i: nat, x: nat, y: nat, e: nat, turn: bool, ends: bool)
    requires i + x <= MAX_TURNS * (e + 1) && 1 <= x && y <= MAX_TURNS
    requires ends || if turn then y < x else y <= x
    ensures i + One(turn) + y <= MAX_TURNS * (e + One(ends) + 1)
  {
  }

  lemma EndedAdds(reports: seq<Report>, rep: Report, g: nat)
    ensures EndedOn(reports + [rep], g) == EndedOn(reports, g) + One(EndsOn(rep, g))
  {
    assert (reports + [rep])[..|reports|] == reports;
  }

  /** Every twenty-eight interrupts end a request. */
  lemma {:induction false} InterruptsEndRequests(driver: seq<bool>, sizes: seq<nat>, d: Drive, evs: seq<HdEvent>)
    requires DriveOk(d) && Running(driver, d.s, HD)
    ensures var u := HdAll(driver, sizes, d, evs).0;
            && DriveOk(u)
            && InterruptsIn(driver, sizes, d, evs) + Spare(u)
               <= MAX_TURNS * (EndedOn(ReportsOf(driver, sizes, d, evs), HD) + 1)
    decreases |evs|
  {
    hide Inv, Spare, Interrupts, EndedOn, EndsOn, HdNext, DriveOk, HdAll, ReportsOf, InterruptsIn;
    if evs == [] {
      NothingYet(driver, sizes, d);
      return;
    }
    var before, ev := evs[..|evs| - 1], evs[|evs| - 1];
    InterruptsEndRequests(driver, sizes, d, before);
    var c := HdAll(driver, sizes, d, before).0;
    var (u, rep) := HdNext(driver, sizes, c, ev);
    HdTurn(driver, sizes, c, ev);
    assert before + [ev] == evs;
    OneMoreReport(driver, sizes, d, before, ev);
    OneMoreInterrupt(driver, sizes, d, before, ev);
    EndedAdds(ReportsOf(driver, sizes, d, before), rep, HD);
    TurnsAdd(InterruptsIn(driver, sizes, d, before), Spare(c), Spare(u),
        EndedOn(ReportsOf(driver, sizes, d, before), HD),
        Interrupts(c, ev), EndsOn(rep, HD));
  }

  lemma NothingYet(driver: seq<bool>, sizes: seq<nat>, d: Drive)
    requires Inv(d.s) && |driver| == NR_BLK_DEV && !driver[0]
    ensures HdAll(driver, sizes, d, []).0 == d && ReportsOf(driver, sizes, d, []) == []
    ensures InterruptsIn(driver, sizes, d, []) == 0 && EndedOn([], HD) == 0
  {
    hide Inv;
  }

  /** No starvation, counted in interrupts: whatever arrives meanwhile, however many transfers fail and controllers are
      reset, a pending slot is ended with the request it holds before the disk has interrupted twenty-eight times for
      each turn of its rank and twenty-eight times more. */
  lemma PendingIsServedInTime(driver: seq<bool>, sizes: seq<nat>, d: Drive, evs: seq<HdEvent>, k: nat, j: nat,
      us: seq<int>)
    requires DriveOk(d) && Running(driver, d.s, HD)
    requires Split(KeysAt(d.s, HD), k) && j < |d.s.qs[HD]| && d.s.qs[HD][j] < |d.s.req|
    requires KeysOf(KeysAt(d.s, HD), TraceOf(ReportsOf(driver, sizes, d, evs), HD), us)
    requires InterruptsIn(driver, sizes, d, evs) >= MAX_TURNS * (RankOf(KeysAt(d.s, HD), k, j, us) + 1)
    ensures Ended(HD, d.s.qs[HD][j], KeyOf(d.s.req[d.s.qs[HD][j]])) in ReportsOf(driver, sizes, d, evs)
  {
    hide KeyOf, Split, KeysAt, NextAll, KeysOf, RankOf, InterruptsIn, EndedOn, TraceOf, Spare, Keys, Members, Pending,
        Owned, Identities, Swept, Chained, HdAll;
    InterruptsEndRequests(driver, sizes, d, evs);
    PendingIsServed(driver, d.s, HdAll(driver, sizes, d, evs).1, HD, k, j, us);
  }

  // ---------- do_hd_request ----------

  lemma QueueLengths(driver: seq<bool>, sizes: seq<nat>, d: Drive, junk: bool)
    requires DriveOk(d) && Running(driver, d.s, HD) && Waiting(d)
    ensures |d.s.qs| == NR_BLK_DEV
    ensures Refused(sizes, d) ==> |HdNext(driver, sizes, d, Reject).0.s.qs[HD]| < |d.s.qs[HD]|
    ensures Writes(sizes, d) ==>
        |HdNext(driver, sizes, d, NoData(junk)).0.s.qs[HD]| <= |d.s.qs[HD]|
  {
    hide Chained, Members, Pending, Owned, Identities, Swept, KeyOf, PendingOk;
    HeadQueuedAt(d.s);
    HeadIsPending(d.s, HD);
    MissedKeeps(d.s, HD);
  }

  /** bad_rw_intr: one error more on the head, perhaps the last. */
  ghost function Failing(d: Drive, junk: bool): Drive
    requires Inv(d.s) && d.s.heads[HD] != NULL
  {
    Drive(Failed(d.s, HD).0, AfterError(Failed(d.s, HD).0, d.ctl, junk))
  }

  lemma FailingIs(driver: seq<bool>, sizes: seq<nat>, d: Drive, junk: bool)
    requires DriveOk(d) && Running(driver, d.s, HD) && d.s.heads[HD] != NULL
    ensures d.ctl.busy != Idle ==> HdNext(driver, sizes, d, Interrupt(false, junk)).0 == Failing(d, junk)
    ensures Writes(sizes, d) ==> HdNext(driver, sizes, d, NoData(junk)).0 == Failing(d, junk)
  {
    hide Chained, Members, Pending, Owned, Identities, Swept, KeyOf, Failed, AfterError;
  }

  /** The handler after a good transfer, a good reset command, or an interrupt nobody waits for. */
  lemma GoodIs(driver: seq<bool>, sizes: seq<nat>, d: Drive, junk: bool)
    requires DriveOk(d) && Running(driver, d.s, HD)
    ensures d.ctl.busy == Idle ==> HdNext(driver, sizes, d, Interrupt(true, junk)).0 == d
    ensures d.ctl.busy == Idle ==> HdNext(driver, sizes, d, Interrupt(false, junk)).0 == d
    ensures d.ctl.busy == Specify || d.ctl.busy == Restore ==>
        HdNext(driver, sizes, d, Interrupt(true, junk)).0 == Drive(d.s, d.ctl.(busy := Idle))
    ensures d.ctl.busy == Data ==>
        d.s.heads[HD] != NULL && HasHead(d.s, HD) && HdNext(driver, sizes, d, Interrupt(true, junk)).0
        == Drive(Transferred(d.s, HD).0, d.ctl.(busy := if Head(d.s, HD).nrSectors == 2 then Data else Idle))
  {
    hide Chained, Members, Pending, Owned, Identities, Swept, KeyOf, Transferred;
    HeadQueuedAt(d.s);
  }

  /** What do_hd_request does next to a waiting head. */
  lemma AskedIs(driver: seq<bool>, sizes: seq<nat>, d: Drive)
    requires DriveOk(d) && Running(driver, d.s, HD) && Waiting(d)
    ensures d.s.heads[HD] != NULL && Head(d.s, HD).dev >= 0
    ensures CanFinish(d.s, HD)
    ensures Refused(sizes, d) ==> HdNext(driver, sizes, d, Reject).0 == Drive(Finish(d.s, HD, false), d.ctl)
    ensures !Refused(sizes, d) ==> HdNext(driver, sizes, d, Start).0 == Drive(d.s, Started(d.ctl))
  {
    hide Chained, Members, Pending, Owned, Identities, Swept, KeyOf, Finish;
    HeadQueuedAt(d.s);
    HeadIsPending(d.s, HD);
  }

  /** The loop of do_hd_request: heads out of range are refused; then a reset, a recalibration or a transfer is
      started, but a write for which the drive asks for no data counts as an error and all begins anew. `timeouts` says
      how often that happens. */
  ghost function Asked(driver: seq<bool>, sizes: seq<nat>, d: Drive, timeouts: seq<bool>): (r: Drive)
    requires DriveOk(d) && Running(driver, d.s, HD)
    ensures DriveOk(r)
    decreases |timeouts| + |d.s.qs[HD]|
  {
    if !Waiting(d) then d
    else
      HdTurn(driver, sizes, d, Reject);
      HdTurn(driver, sizes, d, Start);
      if Refused(sizes, d) then
        QueueLengths(driver, sizes, d, false);
        Asked(driver, sizes, HdNext(driver, sizes, d, Reject).0, timeouts)
      else if !Writes(sizes, d) || timeouts == [] then HdNext(driver, sizes, d, Start).0
      else
        QueueLengths(driver, sizes, d, timeouts[0]);
        HdTurn(driver, sizes, d, NoData(timeouts[0]));
        Asked(driver, sizes, HdNext(driver, sizes, d, NoData(timeouts[0])).0, timeouts[1..])
  }

  lemma AskedStep(driver: seq<bool>, sizes: seq<nat>, d: Drive, timeouts: seq<bool>)
    requires DriveOk(d) && Running(driver, d.s, HD) && Waiting(d)
    ensures DriveOk(HdNext(driver, sizes, d, Reject).0) && DriveOk(HdNext(driver, sizes, d, Start).0)
    ensures Refused(sizes, d) ==>
        Asked(driver, sizes, d, timeouts) == Asked(driver, sizes, HdNext(driver, sizes, d, Reject).0, timeouts)
    ensures !Refused(sizes, d) && (timeouts == [] || !Writes(sizes, d)) ==>
        Asked(driver, sizes, d, timeouts) == HdNext(driver, sizes, d, Start).0
        && Asked(driver, sizes, HdNext(driver, sizes, d, Start).0, timeouts) == HdNext(driver, sizes, d, Start).0
    ensures Writes(sizes, d) && timeouts != [] ==>
        DriveOk(HdNext(driver, sizes, d, NoData(timeouts[0])).0)
        && Asked(driver, sizes, d, timeouts)
           == Asked(driver, sizes, HdNext(driver, sizes, d, NoData(timeouts[0])).0, timeouts[1..])
  {
    HdTurn(driver, sizes, d, Reject);
    HdTurn(driver, sizes, d, Start);
    if timeouts != [] {
      HdTurn(driver, sizes, d, NoData(timeouts[0]));
    }
    hide Inv, Effect, Next;
  }

  lemma NotWaiting(driver: seq<bool>, sizes: seq<nat>, d: Drive, timeouts: seq<bool>)
    requires DriveOk(d) && Running(driver, d.s, HD) && (d.ctl.busy != Idle || d.s.heads[HD] == NULL)
    ensures Asked(driver, sizes, d, timeouts) == d
  {
  }

  lemma {:induction false} HdFirst(driver: seq<bool>, sizes: seq<nat>, d: Drive, ev: HdEvent, evs: seq<HdEvent>)
    requires Inv(d.s) && |driver| == NR_BLK_DEV && !driver[0]
    ensures HdAll(driver, sizes, d, [ev] + evs).0 == HdAll(driver, sizes, HdNext(driver, sizes, d, ev).0, evs).0
    decreases |evs|
  {
    hide Inv, HdNext, Effect;
    if evs == [] {
      assert [ev] + evs == [ev] && [ev][..0] == [];
      assert HdAll(driver, sizes, d, []).0 == d;
    } else {
      var n := |evs| - 1;
      assert ([ev] + evs)[..|[ev] + evs| - 1] == [ev] + evs[..n];
      HdFirst(driver, sizes, d, ev, evs[..n]);
    }
  }

  /** It is a run of its own, without an interrupt, and stops with the controller busy or the queue empty. */
  lemma {:induction false} AskedIsRun(driver: seq<bool>, sizes: seq<nat>, d: Drive, timeouts: seq<bool>)
      returns (evs: seq<HdEvent>)
    requires DriveOk(d) && Running(driver, d.s, HD)
    ensures HdAll(driver, sizes, d, evs).0 == Asked(driver, sizes, d, timeouts)
    ensures forall i :: 0 <= i < |evs| ==> !evs[i].Interrupt? && !evs[i].Elsewhere?
    ensures !Waiting(Asked(driver, sizes, d, timeouts))
    decreases |timeouts| + |d.s.qs[HD]|
  {
    hide Inv, HdAll;
    NothingYet(driver, sizes, d);
    if !Waiting(d) {
      return [];
    }
    HdTurn(driver, sizes, d, Reject);
    HdTurn(driver, sizes, d, Start);
    if Refused(sizes, d) {
      QueueLengths(driver, sizes, d, false);
      NextKeepsInv(driver, sizes, d, Reject);
      evs := AskedIsRun(driver, sizes, HdNext(driver, sizes, d, Reject).0, timeouts);
      HdFirst(driver, sizes, d, Reject, evs);
      evs := [Reject] + evs;
    } else if !Writes(sizes, d) || timeouts == [] {
      evs := [Start];
      assert [Start] + [] == [Start];
      HdFirst(driver, sizes, d, Start, []);
      NothingYet(driver, sizes, HdNext(driver, sizes, d, Start).0);
    } else {
      QueueLengths(driver, sizes, d, timeouts[0]);
      HdTurn(driver, sizes, d, NoData(timeouts[0]));
      NextKeepsInv(driver, sizes, d, NoData(timeouts[0]));
      evs := AskedIsRun(driver, sizes, HdNext(driver, sizes, d, NoData(timeouts[0])).0, timeouts[1..]);
      HdFirst(driver, sizes, d, NoData(timeouts[0]), evs);
      evs := [NoData(timeouts[0])] + evs;
    }
  }

  // ---------- the bound is reached ----------

  /** A read whose second sector can be tried again without being refused. */
  ghost predicate FitsRead(sizes: seq<nat>, d: Drive) {
    HasHead(d.s, HD) && Head(d.s, HD).cmd == READ && Head(d.s, HD).dev >= 0 && Head(d.s, HD).dev % 256 < |sizes|
    && Head(d.s, HD).sector + Head(d.s, HD).nrSectors + 1 <= sizes[Head(d.s, HD).dev % 256] < 0x1_0000_0000
  }

  /** From d to u one turn is used up if there is an interrupt, and none otherwise; the head ends with its last one. */
  ghost predicate Worst(sizes: seq<nat>, d: Drive, ev: HdEvent, u: Drive, rep: Report) {
    && DriveOk(u) && (if d.ctl.busy == Idle then u.ctl.busy != Idle && ev == Start else Interrupts(d, ev))
    && if d.ctl.busy != Idle && Spare(d) == 1 then EndsOn(rep, HD)
       else !EndsOn(rep, HD) && FitsRead(sizes, u) && Spare(u) + One(Interrupts(d, ev)) == Spare(d)
  }

  lemma WorstStart(driver: seq<bool>, sizes: seq<nat>, d: Drive, ev: HdEvent)
    requires DriveOk(d) && Running(driver, d.s, HD) && FitsRead(sizes, d) && d.ctl.busy != Data
    requires ev == if d.ctl.busy == Idle then Start else Interrupt(true, false)
    ensures var (u, rep) := HdNext(driver, sizes, d, ev); Worst(sizes, d, ev, u, rep)
  {
    hide Inv, Next;
    HeadQueuedAt(d.s);
    GoodResult(driver, d.s, HD);
    PauseIs(driver, d.s);
  }

  lemma PauseIs(driver: seq<bool>, s: State)
    requires Running(driver, s, HD)
    ensures Next(driver, s, Pause) == (s, Nothing)
  {
    hide Inv;
  }

  lemma HeadQueuedAt(s: State)
    requires Inv(s)
    ensures |s.heads| == |s.qs| == NR_BLK_DEV && (s.heads[HD] != NULL <==> HasHead(s, HD))
  {
    HeadQueued(s, HD);
  }

  lemma WorstData(driver: seq<bool>, sizes: seq<nat>, d: Drive, ev: HdEvent)
    requires DriveOk(d) && Running(driver, d.s, HD) && FitsRead(sizes, d) && d.ctl.busy == Data
    requires ev == Interrupt(Head(d.s, HD).errors + 1 >= MAX_ERRORS, false)
    ensures var (u, rep) := HdNext(driver, sizes, d, ev); Worst(sizes, d, ev, u, rep)
  {
    hide Chained, Members, Pending, Owned, Identities, Swept;
    if Head(d.s, HD).errors + 1 >= MAX_ERRORS {
      GoodResult(driver, d.s, HD);
      HdTurn(driver, sizes, d, ev);
      hide Inv, Next, KeyOf;
    } else {
      BadResult(driver, d.s, HD);
      HdTurn(driver, sizes, d, ev);
      hide Inv, Next, KeyOf;
    }
  }

  /** The worst that can happen to a read: every reset goes well, every transfer fails until the last error allowed. */
  lemma WorstTurn(driver: seq<bool>, sizes: seq<nat>, d: Drive) returns (ev: HdEvent)
    requires DriveOk(d) && Running(driver, d.s, HD) && FitsRead(sizes, d)
    ensures var (u, rep) := HdNext(driver, sizes, d, ev); Worst(sizes, d, ev, u, rep)
  {
    hide Inv, Worst, HdNext, Spare;
    if d.ctl.busy == Data {
      ev := Interrupt(Head(d.s, HD).errors + 1 >= MAX_ERRORS, false);
      WorstData(driver, sizes, d, ev);
    } else {
      ev := if d.ctl.busy == Idle then Start else Interrupt(true, false);
      WorstStart(driver, sizes, d, ev);
    }
  }

  /** The bound is exact: some run gives the head of the queue as many interrupts as it has turns, twenty-eight for a
      fresh read when a reset is due, and ends it only with the last. */
  lemma BoundIsReached(driver: seq<bool>, sizes: seq<nat>, d: Drive) returns (evs: seq<HdEvent>)
    requires DriveOk(d) && Running(driver, d.s, HD) && FitsRead(sizes, d)
    ensures InterruptsIn(driver, sizes, d, evs) == Spare(d) && EndedOn(ReportsOf(driver, sizes, d, evs), HD) == 1
    ensures evs != [] && EndedOn(ReportsOf(driver, sizes, d, evs[..|evs| - 1]), HD) == 0
    ensures Head(d.s, HD).errors == 0 && Head(d.s, HD).nrSectors == 2 && d.ctl == Ctl(true, d.ctl.recalibrate, Idle) ==>
        Spare(d) == MAX_TURNS
  {
    hide Inv, Worst, HdNext, EndedOn, EndsOn, HdAll, ReportsOf, InterruptsIn, DriveOk, Interrupts;
    evs := [];
    var c := d;
    NothingYet(driver, sizes, d);
    var last := false;
    while !last
      invariant !last ==> DriveOk(c) && Running(driver, c.s, HD) && FitsRead(sizes, c)
      invariant !last ==> c == HdAll(driver, sizes, d, evs).0 && EndedOn(ReportsOf(driver, sizes, d, evs), HD) == 0
      invariant !last ==> InterruptsIn(driver, sizes, d, evs) + Spare(c) == Spare(d)
      invariant last ==>
          InterruptsIn(driver, sizes, d, evs) == Spare(d) && EndedOn(ReportsOf(driver, sizes, d, evs), HD) == 1
          && evs != [] && EndedOn(ReportsOf(driver, sizes, d, evs[..|evs| - 1]), HD) == 0
      decreases !last, Spare(c), c.ctl.busy == Idle
    {
      var ev := WorstTurn(driver, sizes, c);
      var (u, rep) := HdNext(driver, sizes, c, ev);
      WorstIs(sizes, c, ev, u, rep);
      OneMoreReport(driver, sizes, d, evs, ev);
      OneMoreInterrupt(driver, sizes, d, evs, ev);
      EndedAdds(ReportsOf(driver, sizes, d, evs), rep, HD);
      assert (evs + [ev])[..|evs|] == evs;
      NextKeepsInv(driver, sizes, c, ev);
      last := c.ctl.busy != Idle && Spare(c) == 1;
      evs := evs + [ev];
      c := u;
    }
  }

  lemma NextKeepsInv(driver: seq<bool>, sizes: seq<nat>, d: Drive, ev: HdEvent)
    requires Running(driver, d.s, HD)
    ensures Running(driver, HdNext(driver, sizes, d, ev).0.s, HD)
  {
    hide Inv, Next, Controlled;
  }

  lemma WorstIs(sizes: seq<nat>, d: Drive, ev: HdEvent, u: Drive, rep: Report)
    requires Worst(sizes, d, ev, u, rep)
    ensures DriveOk(u) && (d.ctl.busy == Idle <==> !Interrupts(d, ev)) && (d.ctl.busy == Idle ==> u.ctl.busy != Idle)
    ensures if d.ctl.busy != Idle && Spare(d) == 1 then EndsOn(rep, HD)
            else !EndsOn(rep, HD) && FitsRead(sizes, u) && Spare(u) + One(Interrupts(d, ev)) == Spare(d)
  {
    hide Inv, Spare, EndsOn;
  }

  /** A block that ends where its partition ends is read, but if its second sector fails once it is refused. */
  lemma LastBlockIsRefused(sizes: seq<nat>, r: Request)
    requires r.dev >= 0 && r.dev % 256 < |sizes| && r.nrSectors == 2 && r.sector + 2 == sizes[r.dev % 256] < 0xffff_ffff
    ensures !OutOfRange(sizes, r) && OutOfRange(sizes, Advanced(r)) && OutOfRange(sizes, OneError(Advanced(r)))
  {
  }
}
