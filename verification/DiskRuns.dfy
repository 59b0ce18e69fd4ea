/** What tasks and disk interrupts do to the request state, one atomic section at a time, and how long
    a request waits. */
module DiskRuns {
  import opened Elevator
  import opened RequestState

  const READA: nat := 2
  const MAX_ERRORS: nat := 7

  /** Atomic sections: a task calling ll_rw_block, a task woken for a slot, an interrupt after a good or a bad transfer,
      a request the driver refuses, the cache re-keying a buffer, a user setting flags, and anything else that leaves
      requests and buffers alone. */
  datatype DiskEvent =
    | Command(rw: nat, b: nat)
    | TryAgain(rw: nat, b: nat)
    | Transfer(h: nat)
    | BadTransfer(h: nat)
    | Refuse(h: nat)
    | Rename(b: nat, dev: nat, block: nat)
    | Flags(b: nat, dirt: bool, uptodate: bool)
    | Pause

  /** What became of it: a request queued for a device, or ended there; slot and key say which. */
  datatype Report = Nothing | Placed(h: nat, slot: nat, key: int) | Ended(h: nat, slot: nat, key: int)

  /** Slots a command may use. */
  function Limit(cmd: nat): nat {
    if cmd == READ then NR_REQUEST else NR_REQUEST * 2 / 3
  }

  /** The highest free slot below n, or NULL. */
  function FreeBelow(req: seq<Request>, n: nat): (k: int)
    requires n <= |req|
    ensures k == NULL ==> forall i :: 0 <= i < n ==> req[i].dev >= 0
    ensures k != NULL ==> 0 <= k < n && req[k].dev < 0 && forall i :: k < i < n ==> req[i].dev >= 0
  {
    if n == 0 then NULL else if req[n - 1].dev < 0 then n - 1 else FreeBelow(req, n - 1)
  }

  /** There is something to transfer: a dirty buffer to write, one not up to date to read. */
  predicate Needed(b: Buf, cmd: nat) {
    if cmd == WRITE then b.dirt else !b.uptodate
  }

  predicate HasDriver(driver: seq<bool>, b: Buf)
    requires |driver| == NR_BLK_DEV
  {
    0 <= Major(b.dev) < NR_BLK_DEV && driver[Major(b.dev)]
  }

  /** A held buffer gets a request in the highest free slot; without one nothing happens. */
  ghost function Submitted(s: State, b: nat, cmd: nat): (r: (State, Report))
    requires Inv(s) && b < |s.bufs| && s.slotOf[b] == TASK && cmd <= 1 && s.bufs[b].dev != 0
        && Major(s.bufs[b].dev) < NR_BLK_DEV
    ensures Inv(r.0)
  {
    var k := FreeBelow(s.req, Limit(cmd));
    if k == NULL then (s, Nothing)
    else
      EnqueueKeeps(s, k, b, cmd);
      (Enqueue(s, k, b, cmd), Placed(QueueOf(s, b), k, KeyOf(NewRequest(s, b, cmd))))
  }

  /** ll_rw_block as far as it gets at once. */
  ghost function Commanded(driver: seq<bool>, s: State, rw: nat, b: nat): (r: (State, Report))
    requires Inv(s) && |driver| == NR_BLK_DEV && !driver[0] && rw <= 3 && b < |s.bufs|
    ensures Inv(r.0)
  {
    if !HasDriver(driver, s.bufs[b]) || s.bufs[b].lock || !Needed(s.bufs[b], rw % 2) then (s, Nothing)
    else
      HoldKeeps(s, b);
      var r := Submitted(Hold(s, b), b, rw % 2);
      if r.1 == Nothing && rw >= READA then (s, Nothing) else r
  }

  ghost predicate CanRename(s: State, b: nat, dev: nat, block: nat) {
    b < |s.bufs| && !s.bufs[b].lock && dev < 0x1_0000 && block < 0x8000_0000
    && forall c :: 0 <= c < |s.bufs| && c != b ==> !(dev != 0 && s.bufs[c].dev == dev && s.bufs[c].blocknr == block)
  }

  /** One atomic section: the state after it and what became of a request. */
  ghost function Next(driver: seq<bool>, s: State, ev: DiskEvent): (r: (State, Report))
    requires Inv(s) && |driver| == NR_BLK_DEV && !driver[0]
    ensures Inv(r.0)
  {
    match ev
    case Command(rw, b) => if rw <= 3 && b < |s.bufs| then Commanded(driver, s, rw, b) else (s, Nothing)
    case TryAgain(rw, b) =>
      if rw <= 1 && b < |s.bufs| && s.slotOf[b] == TASK && s.bufs[b].dev != 0 && Major(s.bufs[b].dev) < NR_BLK_DEV then
        Submitted(s, b, rw)
      else (s, Nothing)
    case Transfer(h) => if h < NR_BLK_DEV && s.heads[h] != NULL then Transferred(s, h) else (s, Nothing)
    case BadTransfer(h) => if h < NR_BLK_DEV && s.heads[h] != NULL then Failed(s, h) else (s, Nothing)
    case Refuse(h) => if h < NR_BLK_DEV && s.heads[h] != NULL then EndedWith(s, h, false) else (s, Nothing)
    case Rename(b, dev, block) =>
      if CanRename(s, b, dev, block) then IdentifyKeeps(s, b, dev, block); (Identify(s, b, dev, block), Nothing)
          else (s, Nothing)
    case Flags(b, dirt, uptodate) =>
      if b < |s.bufs| then MarkKeeps(s, b, dirt, uptodate); (Mark(s, b, dirt, uptodate), Nothing) else (s, Nothing)
    case Pause => (s, Nothing)
  }

  ghost function EndedWith(s: State, h: nat, uptodate: bool): (r: (State, Report))
    requires Inv(s) && h < NR_BLK_DEV && s.heads[h] != NULL
    ensures Inv(r.0)
  {
    HeadIsPending(s, h);
    FinishKeeps(s, h, uptodate);
    (Finish(s, h, uptodate), Ended(h, s.heads[h], KeyOf(s.req[s.heads[h]])))
  }

  /** A good transfer: the second sector ends the request. */
  ghost function Transferred(s: State, h: nat): (r: (State, Report))
    requires Inv(s) && h < NR_BLK_DEV && s.heads[h] != NULL
    ensures Inv(r.0)
  {
    HeadIsPending(s, h);
    if s.req[s.heads[h]].nrSectors == 1 then EndedWith(s, h, true)
    else
      SectorKeeps(s, h);
      (Sector(s, h), Nothing)
  }

  /** A bad transfer: the last error allowed ends the request as failed. */
  ghost function Failed(s: State, h: nat): (r: (State, Report))
    requires Inv(s) && h < NR_BLK_DEV && s.heads[h] != NULL
    ensures Inv(r.0)
  {
    HeadIsPending(s, h);
    MissedKeeps(s, h);
    var t := Missed(s, h);
    if t.req[t.heads[h]].errors >= MAX_ERRORS then EndedWith(t, h, false) else (t, Nothing)
  }

  /** A whole run and its reports. */
  ghost function NextAll(driver: seq<bool>, s: State, evs: seq<DiskEvent>): (r: (State, seq<Report>))
    requires Inv(s) && |driver| == NR_BLK_DEV && !driver[0]
    ensures Inv(r.0) && |r.1| == |evs|
    decreases |evs|
  {
    if evs == [] then (s, [])
    else
      var (t, reports) := NextAll(driver, s, evs[..|evs| - 1]);
      var (u, rep) := Next(driver, t, evs[|evs| - 1]);
      (u, reports + [rep])
  }

  // ---------- the run as queue g sees it ----------

  function EventOf(rep: Report, g: nat): seq<Event> {
    match rep
    case Nothing => []
    case Placed(h, k, key) => if h == g then [Arrive(key)] else []
    case Ended(h, k, key) => if h == g then [Complete] else []
  }

  /** An arrival for each request queued on g and a completion for each one ended there, in their order. */
  function TraceOf(reports: seq<Report>, g: nat): seq<Event> {
    if reports == [] then [] else TraceOf(reports[..|reports| - 1], g) + EventOf(reports[|reports| - 1], g)
  }

  lemma OneEvent(q: seq<int>, ev: Event)
    requires match ev case Arrive(r) => r !in q case Complete => q != []
    ensures Legal(q, [ev]) && AfterAll(q, [ev]) == After(q, ev) && Completions(q, [ev]) == One(ev.Complete?)
    ensures forall u :: Served(q, [ev], u) == One(ev.Complete? && q[0] == u)
  {
    assert [ev][1..] == [];
  }

  lemma SubmittedQueue(s: State, b: nat, cmd: nat, g: nat)
    requires Inv(s) && b < |s.bufs| && s.slotOf[b] == TASK && cmd <= 1 && s.bufs[b].dev != 0
        && Major(s.bufs[b].dev) < NR_BLK_DEV
    requires g < NR_BLK_DEV
    ensures var (t, rep) := Submitted(s, b, cmd);
            Legal(KeysAt(s, g), EventOf(rep, g)) && KeysAt(t, g) == AfterAll(KeysAt(s, g), EventOf(rep, g))
  {
    var k := FreeBelow(s.req, Limit(cmd));
    if k != NULL {
      EnqueueKeeps(s, k, b, cmd);
      EnqueueKeys(s, k, b, cmd, g);
      hide Inv, Enqueue, KeysAt, Insert, KeyOf, Legal, AfterAll;
      OneEvent(KeysAt(s, g), Arrive(KeyOf(NewRequest(s, b, cmd))));
    }
  }

  /** Changing buffers alone does nothing to the queues. */
  lemma BuffersQueue(s: State, t: State, g: nat)
    requires Inv(s) && Inv(t) && g < NR_BLK_DEV && t.req == s.req && t.qs == s.qs
    ensures KeysAt(t, g) == KeysAt(s, g)
  {
  }

  lemma EndedQueue(s: State, h: nat, ok: bool, g: nat)
    requires Inv(s) && h < NR_BLK_DEV && s.heads[h] != NULL && g < NR_BLK_DEV
    ensures var (t, rep) := EndedWith(s, h, ok);
            Legal(KeysAt(s, g), EventOf(rep, g)) && KeysAt(t, g) == AfterAll(KeysAt(s, g), EventOf(rep, g))
  {
    hide Chained, Members, Pending, Owned, Identities, Swept, PendingOk, Finish, Keys, KeyOf, Legal, AfterAll;
    HeadIsPending(s, h);
    FinishKeeps(s, h, ok);
    FinishKeys(s, h, ok, g);
    hide Inv, KeysAt;
    if h == g {
      OneEvent(KeysAt(s, g), Complete);
    } else {
      NoEvent(KeysAt(s, g));
    }
  }

  lemma FailedQueue(s: State, h: nat, g: nat)
    requires Inv(s) && h < NR_BLK_DEV && s.heads[h] != NULL && g < NR_BLK_DEV
    ensures var (t, rep) := Failed(s, h);
            Legal(KeysAt(s, g), EventOf(rep, g)) && KeysAt(t, g) == AfterAll(KeysAt(s, g), EventOf(rep, g))
  {
    hide Chained, Members, Pending, Owned, Identities, Swept, PendingOk, Finish, Keys, KeyOf, Legal, AfterAll;
    HeadIsPending(s, h);
    MissedKeeps(s, h);
    MissedKeys(s, h, g);
    hide Inv, KeysAt, EndedWith;
    if Missed(s, h).req[s.heads[h]].errors >= MAX_ERRORS {
      EndedQueue(Missed(s, h), h, false, g);
    } else {
      NoEvent(KeysAt(s, g));
    }
  }

  lemma NoEvent(q: seq<int>)
    ensures Legal(q, []) && AfterAll(q, []) == q && Completions(q, []) == 0
  {
  }

  /** One atomic section is what its report says on every queue. */
  lemma NextQueue(driver: seq<bool>, s: State, ev: DiskEvent, g: nat)
    requires Inv(s) && |driver| == NR_BLK_DEV && !driver[0] && g < NR_BLK_DEV
    ensures var (t, rep) := Next(driver, s, ev);
            Legal(KeysAt(s, g), EventOf(rep, g)) && KeysAt(t, g) == AfterAll(KeysAt(s, g), EventOf(rep, g))
  {
    hide Chained, Members, Pending, Owned, Identities, Swept, KeysAt, Submitted, EndedWith, Finish;
    var (t, rep) := Next(driver, s, ev);
    match ev
    case Command(rw, b) =>
      if rw <= 3 && b < |s.bufs| && HasDriver(driver, s.bufs[b]) && !s.bufs[b].lock && Needed(s.bufs[b], rw % 2) {
        HoldKeeps(s, b);
        BuffersQueue(s, Hold(s, b), g);
        SubmittedQueue(Hold(s, b), b, rw % 2, g);
      }
    case TryAgain(rw, b) =>
      if rw <= 1 && b < |s.bufs| && s.slotOf[b] == TASK && s.bufs[b].dev != 0 && Major(s.bufs[b].dev) < NR_BLK_DEV {
        SubmittedQueue(s, b, rw, g);
      }
    case Transfer(h) =>
      if h < NR_BLK_DEV && s.heads[h] != NULL {
        HeadIsPending(s, h);
        if s.req[s.heads[h]].nrSectors == 1 {
          EndedQueue(s, h, true, g);
        } else {
          SectorKeeps(s, h);
          SectorKeys(s, h, g);
        }
      }
    case BadTransfer(h) =>
      if h < NR_BLK_DEV && s.heads[h] != NULL {
        FailedQueue(s, h, g);
      }
    case Refuse(h) =>
      if h < NR_BLK_DEV && s.heads[h] != NULL {
        EndedQueue(s, h, false, g);
      }
    case Rename(b, dev, block) =>
      if CanRename(s, b, dev, block) {
        BuffersQueue(s, t, g);
      }
    case Flags(b, dirt, uptodate) =>
      if b < |s.bufs| {
        BuffersQueue(s, t, g);
      }
    case Pause =>
  }

  /** A run on a device queue is the elevator's run of its reports. */
  lemma {:induction false} RunIsTrace(driver: seq<bool>, s: State, evs: seq<DiskEvent>, g: nat)
    requires Inv(s) && |driver| == NR_BLK_DEV && !driver[0] && g < NR_BLK_DEV
    ensures var (t, reports) := NextAll(driver, s, evs);
            Legal(KeysAt(s, g), TraceOf(reports, g)) && KeysAt(t, g) == AfterAll(KeysAt(s, g), TraceOf(reports, g))
    decreases |evs|
  {
    hide Inv, KeysAt, Next;
    if evs != [] {
      var before := evs[..|evs| - 1];
      RunIsTrace(driver, s, before, g);
      var (t, reports) := NextAll(driver, s, before);
      var rep := Next(driver, t, evs[|evs| - 1]).1;
      NextQueue(driver, t, evs[|evs| - 1], g);
      assert (reports + [rep])[..|reports|] == reports;
      LegalExtends(KeysAt(s, g), TraceOf(reports, g), EventOf(rep, g));
    }
  }

  // ---------- a slot waits no longer than its rank ----------

  /** Requests ended on queue g. */
  function EndedOn(reports: seq<Report>, g: nat): nat {
    if reports == [] then 0
    else EndedOn(reports[..|reports| - 1], g) + if Last(reports).Ended? && Last(reports).h == g then 1 else 0
  }

  function Last(reports: seq<Report>): Report
    requires reports != []
  {
    reports[|reports| - 1]
  }

  lemma {:induction false} CompletionsAdd(q: seq<int>, a: seq<Event>, b: seq<Event>)
    requires Legal(q, a) && Legal(AfterAll(q, a), b)
    ensures Completions(q, a + b) == Completions(q, a) + Completions(AfterAll(q, a), b)
    ensures forall u :: Served(q, a + b, u) == Served(q, a, u) + Served(AfterAll(q, a), b, u)
    decreases |a|
  {
    hide Insert;
    if a == [] {
      assert a + b == b;
    } else {
      assert (a + b)[1..] == a[1..] + b;
      CompletionsAdd(After(q, a[0]), a[1..], b);
    }
  }

  /** What one report adds to the count of ended requests. */
  lemma EndedOnce(q: seq<int>, rep: Report, g: nat)
    requires Legal(q, EventOf(rep, g))
    ensures Completions(q, EventOf(rep, g)) == One(rep.Ended? && rep.h == g)
  {
    if EventOf(rep, g) != [] {
      OneEvent(q, EventOf(rep, g)[0]);
    }
  }

  /** The elevator's run of the reports completes as many keys as requests were ended on the queue. */
  lemma {:induction false} EndedIsCompleted(driver: seq<bool>, s: State, evs: seq<DiskEvent>, g: nat)
    requires Inv(s) && |driver| == NR_BLK_DEV && !driver[0] && g < NR_BLK_DEV
    ensures var reports := NextAll(driver, s, evs).1;
            Completions(KeysAt(s, g), TraceOf(reports, g)) == EndedOn(reports, g)
    decreases |evs|
  {
    hide Inv, KeysAt, Next, Legal, AfterAll, Served, EventOf;
    if evs == [] {
      return;
    }
    var before := evs[..|evs| - 1];
    EndedIsCompleted(driver, s, before, g);
    RunIsTrace(driver, s, before, g);
    var (t, reports) := NextAll(driver, s, before);
    var rep := Next(driver, t, evs[|evs| - 1]).1;
    NextQueue(driver, t, evs[|evs| - 1], g);
    assert (reports + [rep])[..|reports|] == reports;
    EndedOnce(KeysAt(t, g), rep, g);
    hide Completions;
    CompletionsAdd(KeysAt(s, g), TraceOf(reports, g), EventOf(rep, g));
  }

  /** Slot k is on queue g with the given key. */
  ghost predicate InSlot(s: State, g: nat, k: nat, key: int) {
    g < |s.qs| && k in s.qs[g] && k < |s.req| && KeyOf(s.req[k]) == key
  }

  lemma EnqueueStays(s: State, k: nat, b: nat, cmd: nat, g: nat, l: nat, key: int)
    requires CanEnqueue(s, k, b, cmd) && g < NR_BLK_DEV && InSlot(s, g, l, key)
    ensures InSlot(Enqueue(s, k, b, cmd), g, l, key)
  {
    EnqueueShape(s, Enqueue(s, k, b, cmd), k, b, cmd, QueueOf(s, b));
    FreeSlotOffQueue(s, k, g);
    hide CanEnqueue, Enqueue, KeyOf, Chain, Insert, Chained, Members, Pending, Owned, Identities, Swept;
    KeyIgnoresLink(s.req[l], Enqueue(s, k, b, cmd).req[l]);
  }

  lemma FinishStays(s: State, h: nat, ok: bool, g: nat, l: nat, key: int)
    requires CanFinish(s, h) && g < NR_BLK_DEV && InSlot(s, g, l, key) && l != s.heads[h]
    ensures InSlot(Finish(s, h, ok), g, l, key)
  {
    hide Chained, Members, Pending, Owned, Identities, Swept, KeyOf;
    if g == h {
      var j :| 0 <= j < |s.qs[g]| && s.qs[g][j] == l;
      assert s.qs[g][1..][j - 1] == l;
    }
  }

  lemma SubmittedStays(s: State, b: nat, cmd: nat, g: nat, l: nat, key: int)
    requires Inv(s) && b < |s.bufs| && s.slotOf[b] == TASK && cmd <= 1 && s.bufs[b].dev != 0
        && Major(s.bufs[b].dev) < NR_BLK_DEV
    requires g < NR_BLK_DEV && InSlot(s, g, l, key)
    ensures InSlot(Submitted(s, b, cmd).0, g, l, key)
  {
    var k := FreeBelow(s.req, Limit(cmd));
    hide Inv, InSlot, Enqueue, KeyOf;
    if k != NULL {
      EnqueueStays(s, k, b, cmd, g, l, key);
    }
  }

  lemma OneQueue(s: State, g: nat, h: nat, l: nat)
    requires Inv(s) && g < NR_BLK_DEV && h < NR_BLK_DEV
    ensures l in s.qs[g] && l in s.qs[h] ==> g == h
  {
    assert l in s.qs[g] ==> OnQueue(s, g, l);
    assert l in s.qs[h] ==> OnQueue(s, h, l);
  }

  lemma EndedStays(s: State, h: nat, ok: bool, g: nat, l: nat, key: int)
    requires Inv(s) && h < NR_BLK_DEV && s.heads[h] != NULL && g < NR_BLK_DEV && InSlot(s, g, l, key)
    requires EndedWith(s, h, ok).1 != Ended(g, l, key)
    ensures InSlot(EndedWith(s, h, ok).0, g, l, key)
  {
    hide Chained, Pending, Owned, Identities, Swept, KeyOf, PendingOk, Finish;
    HeadIsPending(s, h);
    OneQueue(s, g, h, l);
    if s.heads[h] != l {
      FinishStays(s, h, ok, g, l, key);
    }
  }

  lemma FailedStays(s: State, h: nat, g: nat, l: nat, key: int)
    requires Inv(s) && h < NR_BLK_DEV && s.heads[h] != NULL && g < NR_BLK_DEV && InSlot(s, g, l, key)
    requires Failed(s, h).1 != Ended(g, l, key)
    ensures InSlot(Failed(s, h).0, g, l, key)
  {
    hide Chained, Members, Pending, Owned, Identities, Swept, KeyOf, PendingOk, EndedWith;
    HeadIsPending(s, h);
    MissedKeeps(s, h);
    ErrorsKey(s.req[s.heads[h]], Missed(s, h).req[s.heads[h]]);
    assert InSlot(Missed(s, h), g, l, key);
    hide Inv, InSlot;
    if Missed(s, h).req[s.heads[h]].errors >= MAX_ERRORS {
      EndedStays(Missed(s, h), h, false, g, l, key);
    }
  }

  /** A queued slot stays queued, whatever happens, until its end is reported. */
  lemma NextStays(driver: seq<bool>, s: State, ev: DiskEvent, g: nat, l: nat, key: int)
    requires Inv(s) && |driver| == NR_BLK_DEV && !driver[0] && g < NR_BLK_DEV && InSlot(s, g, l, key)
    requires Next(driver, s, ev).1 != Ended(g, l, key)
    ensures InSlot(Next(driver, s, ev).0, g, l, key)
  {
    hide Chained, Members, Pending, Owned, Identities, Swept, KeyOf, PendingOk, Submitted, EndedWith, Finish;
    match ev
    case Command(rw, b) =>
      if rw <= 3 && b < |s.bufs| && HasDriver(driver, s.bufs[b]) && !s.bufs[b].lock && Needed(s.bufs[b], rw % 2) {
        HoldKeeps(s, b);
        SubmittedStays(Hold(s, b), b, rw % 2, g, l, key);
      }
    case TryAgain(rw, b) =>
      if rw <= 1 && b < |s.bufs| && s.slotOf[b] == TASK && s.bufs[b].dev != 0 && Major(s.bufs[b].dev) < NR_BLK_DEV {
        SubmittedStays(s, b, rw, g, l, key);
      }
    case Transfer(h) =>
      if h < NR_BLK_DEV && s.heads[h] != NULL {
        HeadIsPending(s, h);
        if s.req[s.heads[h]].nrSectors == 1 {
          EndedStays(s, h, true, g, l, key);
        } else {
          SectorPending(s, Sector(s, h), s.heads[h]);
        }
      }
    case BadTransfer(h) =>
      if h < NR_BLK_DEV && s.heads[h] != NULL {
        FailedStays(s, h, g, l, key);
      }
    case Refuse(h) =>
      if h < NR_BLK_DEV && s.heads[h] != NULL {
        EndedStays(s, h, false, g, l, key);
      }
    case _ =>
  }

  /** A report other than the slot's end is no service of its key. */
  lemma NotServed(driver: seq<bool>, s: State, ev: DiskEvent, g: nat, l: nat, key: int)
    requires Inv(s) && |driver| == NR_BLK_DEV && !driver[0] && g < NR_BLK_DEV && InSlot(s, g, l, key)
    requires Next(driver, s, ev).1 != Ended(g, l, key)
    ensures Served(KeysAt(s, g), EventOf(Next(driver, s, ev).1, g), key) == 0
  {
    NextQueue(driver, s, ev, g);
    var rep := Next(driver, s, ev).1;
    if rep.Ended? && rep.h == g {
      EndedHead(driver, s, ev);
      QueueKeysDistinct(s, g);
      var j :| 0 <= j < |s.qs[g]| && s.qs[g][j] == l;
      hide Inv, Chain, KeyOf, Next, Legal, AfterAll;
      assert KeysAt(s, g)[j] == key && KeysAt(s, g)[0] == rep.key;
      OneEvent(KeysAt(s, g), Complete);
    } else if rep.Placed? && rep.h == g {
      hide Inv, Chain, KeyOf, Next, Legal, AfterAll;
      OneEvent(KeysAt(s, g), Arrive(rep.key));
    }
  }

  /** Only the head of a queue ends. */
  lemma EndedHead(driver: seq<bool>, s: State, ev: DiskEvent)
    requires Inv(s) && |driver| == NR_BLK_DEV && !driver[0]
    ensures var rep := Next(driver, s, ev).1;
            rep.Ended? ==>
              rep.h < NR_BLK_DEV && s.qs[rep.h] != [] && rep.slot == s.qs[rep.h][0] < |s.req|
              && rep.key == KeyOf(s.req[rep.slot])
  {
    hide Chained, Members, Pending, Owned, Identities, Swept, KeyOf, PendingOk, Finish, Enqueue;
    match ev
    case Transfer(h) =>
      if h < NR_BLK_DEV && s.heads[h] != NULL {
        HeadIsPending(s, h);
      }
    case BadTransfer(h) =>
      if h < NR_BLK_DEV && s.heads[h] != NULL {
        HeadIsPending(s, h);
        ErrorsKey(s.req[s.heads[h]], Missed(s, h).req[s.heads[h]]);
      }
    case Refuse(h) =>
      if h < NR_BLK_DEV && s.heads[h] != NULL {
        HeadIsPending(s, h);
      }
    case _ =>
  }

  /** Through a run that does not report its end a slot stays queued, and its key is not served. */
  lemma {:induction false} RunStays(driver: seq<bool>, s: State, evs: seq<DiskEvent>, g: nat, l: nat, key: int)
    requires Inv(s) && |driver| == NR_BLK_DEV && !driver[0] && g < NR_BLK_DEV && InSlot(s, g, l, key)
    requires Ended(g, l, key) !in NextAll(driver, s, evs).1
    ensures InSlot(NextAll(driver, s, evs).0, g, l, key)
    ensures Served(KeysAt(s, g), TraceOf(NextAll(driver, s, evs).1, g), key) == 0
    decreases |evs|
  {
    hide Inv, KeysAt, Next, Legal, AfterAll, EventOf, InSlot;
    if evs == [] {
      return;
    }
    var before := evs[..|evs| - 1];
    var (t, reports) := NextAll(driver, s, before);
    var rep := Next(driver, t, evs[|evs| - 1]).1;
    assert forall r :: r in reports ==> r in reports + [rep];
    assert rep in reports + [rep];
    RunStays(driver, s, before, g, l, key);
    RunIsTrace(driver, s, before, g);
    NextQueue(driver, t, evs[|evs| - 1], g);
    NextStays(driver, t, evs[|evs| - 1], g, l, key);
    NotServed(driver, t, evs[|evs| - 1], g, l, key);
    assert (reports + [rep])[..|reports|] == reports;
    hide Served;
    CompletionsAdd(KeysAt(s, g), TraceOf(reports, g), EventOf(rep, g));
  }

  /** No starvation of a pending slot: in any run that ends more requests on queue g than the elevator's rank of the
      slot at position j, which is at most two for each key that can occur, that very slot is ended with the request
      it holds now. */
  lemma PendingIsServed(driver: seq<bool>, s: State, evs: seq<DiskEvent>, g: nat, d: nat, j: nat, us: seq<int>)
    requires Inv(s) && |driver| == NR_BLK_DEV && !driver[0] && g < NR_BLK_DEV
    requires Split(KeysAt(s, g), d) && j < |s.qs[g]| && s.qs[g][j] < |s.req|
    requires KeysOf(KeysAt(s, g), TraceOf(NextAll(driver, s, evs).1, g), us)
    requires EndedOn(NextAll(driver, s, evs).1, g) > RankOf(KeysAt(s, g), d, j, us)
    ensures RankOf(KeysAt(s, g), d, j, us) <= 2 * |us|
    ensures Ended(g, s.qs[g][j], KeyOf(s.req[s.qs[g][j]])) in NextAll(driver, s, evs).1
  {
    var l := s.qs[g][j];
    var key, q := KeyOf(s.req[l]), KeysAt(s, g);
    assert InSlot(s, g, l, key) && q[j] == key;
    QueueKeysDistinct(s, g);
    hide Inv, KeyOf, Chain, Keys, Split, Legal, AfterAll, KeysOf, DistinctKeys, InSlot, Next, RankOf;
    RunIsTrace(driver, s, evs, g);
    EndedIsCompleted(driver, s, evs, g);
    hide KeysAt, NextAll;
    ServedInTime(q, d, j, TraceOf(NextAll(driver, s, evs).1, g), us);
    if Ended(g, l, key) !in NextAll(driver, s, evs).1 {
      RunStays(driver, s, evs, g, l, key);
    }
  }
}
