/** What each atomic section does to the head of a device queue. */
module DiskProgress {
  import opened Elevator
  import opened DiskRuns
  import opened RequestState

  predicate EndsOn(rep: Report, g: nat) {
    rep.Ended? && rep.h == g
  }

  ghost predicate HasHead(s: State, g: nat) {
    g < |s.heads| && 0 <= s.heads[g] < |s.req|
  }

  ghost function Head(s: State, g: nat): Request
    requires HasHead(s, g)
  {
    s.req[s.heads[g]]
  }

  /** The same request stays at the head of queue g, but for its link; on an empty queue a fresh one may appear. */
  ghost predicate HeadKept(s: State, t: State, g: nat) {
    if HasHead(s, g) then HasHead(t, g) && t.heads[g] == s.heads[g] && SameRequest(Head(s, g), Head(t, g))
    else HasHead(t, g) ==> Head(t, g).errors == 0 && Head(t, g).nrSectors == 2
  }

  lemma HeadQueued(s: State, g: nat)
    requires Inv(s) && g < NR_BLK_DEV
    ensures s.heads[g] != NULL ==> 0 <= s.heads[g] < NR_REQUEST && s.heads[g] in s.qs[g]
    ensures s.heads[g] != NULL <==> HasHead(s, g)
  {
    assert Chain(s.req, s.qs[g], s.heads[g]);
  }

  /** Queueing a request never takes the head's place. */
  lemma EnqueueHead(s: State, k: nat, b: nat, cmd: nat, g: nat)
    requires CanEnqueue(s, k, b, cmd) && g < NR_BLK_DEV
    ensures HeadKept(s, Enqueue(s, k, b, cmd), g)
  {
    var t, h := Enqueue(s, k, b, cmd), QueueOf(s, b);
    EnqueueShape(s, t, k, b, cmd, h);
    NullMeansEmpty(s, g);
    HeadQueued(s, g);
    FreeSlotOffQueue(s, k, g);
    EnqueueIs(s, k, b, cmd, h);
    hide Inv, Enqueue, Chain, Keys, Insert, InsertAfter, Splice, KeyOf, Place;
  }

  lemma SubmittedHead(s: State, b: nat, cmd: nat, g: nat)
    requires Inv(s) && b < |s.bufs| && s.slotOf[b] == TASK && cmd <= 1 && s.bufs[b].dev != 0
    requires Major(s.bufs[b].dev) < NR_BLK_DEV && g < NR_BLK_DEV
    ensures HeadKept(s, Submitted(s, b, cmd).0, g) && !Submitted(s, b, cmd).1.Ended?
  {
    var k := FreeBelow(s.req, Limit(cmd));
    hide Inv, Enqueue;
    if k != NULL {
      EnqueueHead(s, k, b, cmd, g);
    }
  }

  /** The heads of two queues are different slots. */
  lemma OtherHead(s: State, g: nat, h: nat)
    requires Inv(s) && g < NR_BLK_DEV && h < NR_BLK_DEV && g != h && s.heads[g] != NULL && s.heads[h] != NULL
    ensures s.heads[g] != s.heads[h]
  {
    HeadIsPending(s, g);
    HeadIsPending(s, h);
    OneQueue(s, g, h, s.heads[g]);
  }

  lemma OtherFinish(s: State, h: nat, ok: bool, g: nat)
    requires CanFinish(s, h) && g < NR_BLK_DEV && g != h
    ensures HeadKept(s, Finish(s, h, ok), g)
  {
    HeadQueued(s, g);
    if s.heads[g] != NULL {
      OtherHead(s, g, h);
    }
    hide Inv, KeyOf;
  }

  lemma OtherEnded(s: State, h: nat, ok: bool, g: nat)
    requires Inv(s) && h < NR_BLK_DEV && s.heads[h] != NULL && g < NR_BLK_DEV && g != h
    ensures HeadKept(s, EndedWith(s, h, ok).0, g) && !EndsOn(EndedWith(s, h, ok).1, g)
  {
    hide Chained, Members, Pending, Owned, Identities, Swept, KeyOf, PendingOk, Finish, HeadKept;
    HeadIsPending(s, h);
    OtherFinish(s, h, ok, g);
  }

  lemma OtherSlot(s: State, t: State, h: nat, g: nat, r: Request)
    requires Inv(s) && h < NR_BLK_DEV && 0 <= s.heads[h] < NR_REQUEST && g < NR_BLK_DEV && g != h
    requires t == s.(req := s.req[s.heads[h] := r])
    ensures HeadKept(s, t, g)
  {
    if s.heads[g] != NULL {
      OtherHead(s, g, h);
    }
  }

  lemma OtherTransferred(s: State, h: nat, g: nat)
    requires Inv(s) && h < NR_BLK_DEV && s.heads[h] != NULL && g < NR_BLK_DEV && g != h
    ensures HeadKept(s, Transferred(s, h).0, g) && !EndsOn(Transferred(s, h).1, g)
  {
    hide Chained, Members, Pending, Owned, Identities, Swept, KeyOf, PendingOk, EndedWith, HeadKept;
    HeadIsPending(s, h);
    if s.req[s.heads[h]].nrSectors == 1 {
      OtherEnded(s, h, true, g);
    } else {
      OtherSlot(s, Sector(s, h), h, g, Advanced(s.req[s.heads[h]]));
    }
  }

  lemma HeadKeptTrans(s: State, t: State, u: State, g: nat)
    requires HeadKept(s, t, g) && HeadKept(t, u, g)
    ensures HeadKept(s, u, g)
  {
  }

  lemma OtherFailed(s: State, h: nat, g: nat)
    requires Inv(s) && h < NR_BLK_DEV && s.heads[h] != NULL && g < NR_BLK_DEV && g != h
    ensures HeadKept(s, Failed(s, h).0, g) && !EndsOn(Failed(s, h).1, g)
  {
    hide Chained, Members, Pending, Owned, Identities, Swept, KeyOf, PendingOk, EndedWith, HeadKept;
    HeadIsPending(s, h);
    MissedKeeps(s, h);
    var t := Missed(s, h);
    OtherSlot(s, t, h, g, t.req[s.heads[h]]);
    if t.req[s.heads[h]].errors >= MAX_ERRORS {
      OtherEnded(t, h, false, g);
      HeadKeptTrans(s, t, Failed(s, h).0, g);
    }
  }

  /** The event is about the head of queue g. */
  predicate About(ev: DiskEvent, g: nat) {
    ev == Transfer(g) || ev == BadTransfer(g) || ev == Refuse(g)
  }

  /** Only what is about the head of a queue changes it or ends it. */
  lemma OthersKeepHead(driver: seq<bool>, s: State, ev: DiskEvent, g: nat)
    requires Inv(s) && |driver| == NR_BLK_DEV && !driver[0] && g < NR_BLK_DEV && !(About(ev, g) && s.heads[g] != NULL)
    ensures var (t, rep) := Next(driver, s, ev); HeadKept(s, t, g) && !EndsOn(rep, g)
  {
    hide Chained, Members, Pending, Owned, Identities, Swept, KeyOf, PendingOk, Submitted, Transferred, Failed,
        EndedWith;
    HeadQueued(s, g);
    match ev
    case Command(rw, b) =>
      if rw <= 3 && b < |s.bufs| && HasDriver(driver, s.bufs[b]) && !s.bufs[b].lock && Needed(s.bufs[b], rw % 2) {
        HoldKeeps(s, b);
        SubmittedHead(Hold(s, b), b, rw % 2, g);
      }
    case TryAgain(rw, b) =>
      if rw <= 1 && b < |s.bufs| && s.slotOf[b] == TASK && s.bufs[b].dev != 0 && Major(s.bufs[b].dev) < NR_BLK_DEV {
        SubmittedHead(s, b, rw, g);
      }
    case Transfer(h) =>
      if h < NR_BLK_DEV && s.heads[h] != NULL {
        OtherTransferred(s, h, g);
      }
    case BadTransfer(h) =>
      if h < NR_BLK_DEV && s.heads[h] != NULL {
        OtherFailed(s, h, g);
      }
    case Refuse(h) =>
      if h < NR_BLK_DEV && s.heads[h] != NULL {
        OtherEnded(s, h, false, g);
      }
    case _ =>
  }

  ghost predicate Running(driver: seq<bool>, s: State, g: nat) {
    Inv(s) && |driver| == NR_BLK_DEV && !driver[0] && g < NR_BLK_DEV
  }

  /** A good transfer ends the head or leaves it one sector. */
  lemma GoodResult(driver: seq<bool>, s: State, g: nat)
    requires Running(driver, s, g) && s.heads[g] != NULL
    ensures HasHead(s, g) && 1 <= Head(s, g).nrSectors <= 2 && Head(s, g).cmd <= 1
    ensures var (t, rep) := Next(driver, s, Transfer(g));
            && (Head(s, g).nrSectors == 1 ==> EndsOn(rep, g))
            && (Head(s, g).nrSectors == 2 ==>
                  rep == Nothing && HasHead(t, g) && t.heads[g] == s.heads[g] && Head(t, g) == Advanced(Head(s, g)))
  {
    hide Chained, Members, Pending, Owned, Identities, Swept, KeyOf, Finish;
    HeadIsPending(s, g);
  }

  function OneError(r: Request): Request {
    r.(errors := r.errors + 1)
  }

  /** A bad one ends it or counts an error. */
  lemma BadResult(driver: seq<bool>, s: State, g: nat)
    requires Running(driver, s, g) && s.heads[g] != NULL
    ensures HasHead(s, g)
    ensures var (t, rep) := Next(driver, s, BadTransfer(g));
            && (Head(s, g).errors + 1 >= MAX_ERRORS ==> EndsOn(rep, g))
            && (Head(s, g).errors + 1 < MAX_ERRORS ==>
                  rep == Nothing && HasHead(t, g) && t.heads[g] == s.heads[g] && Head(t, g) == OneError(Head(s, g)))
  {
    hide Chained, Members, Pending, Owned, Identities, Swept, KeyOf, EndedWith, PendingOk;
    HeadIsPending(s, g);
    MissedKeeps(s, g);
    var t := Missed(s, g);
    if t.req[s.heads[g]].errors >= MAX_ERRORS {
      EndedIsEnded(t, g, false);
    }
  }

  lemma EndedIsEnded(s: State, h: nat, ok: bool)
    requires Inv(s) && h < NR_BLK_DEV && s.heads[h] != NULL
    ensures EndsOn(EndedWith(s, h, ok).1, h)
  {
    hide Chained, Members, Pending, Owned, Identities, Swept, KeyOf, PendingOk, Finish;
    HeadIsPending(s, h);
  }

  /** A refused one ends. */
  lemma RefusedResult(driver: seq<bool>, s: State, g: nat)
    requires Running(driver, s, g) && s.heads[g] != NULL
    ensures EndsOn(Next(driver, s, Refuse(g)).1, g)
  {
    hide Chained, Members, Pending, Owned, Identities, Swept, KeyOf, EndedWith;
    EndedIsEnded(s, g, false);
  }
}
