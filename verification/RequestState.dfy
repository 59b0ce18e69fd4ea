/** Request slots, buffers and device queues of drivers/block/hardisk/ll_rw_blk.c as one value, with its invariant. */
module RequestState {
  import opened Elevator

  const NR_REQUEST: nat := 32
  const NR_BLK_DEV: nat := 7
  const READ: nat := 0
  const WRITE: nat := 1
  const NULL: int := -1
  /** Owner marks of a buffer: nobody, or a task inside make_request that has no slot yet. */
  const NOBODY: int := -1
  const TASK: int := -2

  datatype Request = Request(dev: int, cmd: nat, errors: nat, sector: nat, nrSectors: nat, bh: nat, next: int)
  datatype Buf = Buf(dev: nat, blocknr: nat, dirt: bool, uptodate: bool, lock: bool)

  /** slotOf says who locked each buffer: the slot of the request naming it, or one of the marks above. */
  datatype State = State(req: seq<Request>, bufs: seq<Buf>, heads: seq<int>, qs: seq<seq<nat>>, slotOf: seq<int>)

  function Major(dev: int): int { dev / 256 }

  /** IN_ORDER: reads before writes, then by device, then by sector. */
  predicate InOrder(a: Request, b: Request) {
    a.cmd < b.cmd || (a.cmd == b.cmd && (a.dev < b.dev || (a.dev == b.dev && a.sector < b.sector)))
  }

  /** Command, device and block as one number; the two sectors of a block count alike. */
  function KeyOf(r: Request): int {
    (r.cmd * 0x1_0000 + r.dev) * 0x8000_0000 + r.sector / 2
  }

  predicate InRange(r: Request) {
    r.cmd <= 1 && 0 <= r.dev < 0x1_0000 && r.sector < 0x1_0000_0000
  }

  /** On requests for different blocks IN_ORDER is the order of the keys, also while the head has moved on to its
      block's second sector. */
  lemma InOrderIsKeyOrder(a: Request, b: Request)
    requires InRange(a) && InRange(b) && KeyOf(a) != KeyOf(b)
    ensures InOrder(a, b) <==> KeyOf(a) < KeyOf(b)
  {
    assert a.sector / 2 < 0x8000_0000 && b.sector / 2 < 0x8000_0000;
    var x, y := a.cmd * 0x1_0000 + a.dev, b.cmd * 0x1_0000 + b.dev;
    if x < y {
      assert (x + 1) * 0x8000_0000 <= y * 0x8000_0000;
    } else if y < x {
      assert (y + 1) * 0x8000_0000 <= x * 0x8000_0000;
    }
  }

  ghost predicate Sizes(s: State) {
    |s.req| == NR_REQUEST && |s.heads| == NR_BLK_DEV && |s.qs| == NR_BLK_DEV && |s.slotOf| == |s.bufs|
  }

  function NextIn(q: seq<nat>, i: nat): int
    requires i < |q|
  {
    if i + 1 < |q| then q[i + 1] else NULL
  }

  /** q lists the chain of `next` links from `head`. */
  ghost predicate Chain(req: seq<Request>, q: seq<nat>, head: int) {
    && head == (if |q| > 0 then q[0] else NULL)
    && (forall i :: 0 <= i < |q| ==> q[i] < |req|)
    && (forall i {:trigger req[q[i]]} :: 0 <= i < |q| ==> req[q[i]].next == NextIn(q, i))
    && (forall i, j :: 0 <= i < j < |q| ==> q[i] != q[j])
  }

  ghost predicate Chained(s: State)
    requires Sizes(s)
  {
    forall h :: 0 <= h < NR_BLK_DEV ==> Chain(s.req, s.qs[h], s.heads[h])
  }

  ghost predicate OnQueue(s: State, h: nat, k: nat) {
    k < |s.req| && s.req[k].dev >= 0 && Major(s.req[k].dev) == h
  }

  /** A slot in use is on the queue of its major device, and only there. */
  ghost predicate Members(s: State)
    requires Sizes(s)
  {
    && (forall h, k :: 0 <= h < NR_BLK_DEV && k in s.qs[h] ==> OnQueue(s, h, k))
    && (forall k :: 0 <= k < NR_REQUEST && s.req[k].dev >= 0 ==>
          0 <= Major(s.req[k].dev) < NR_BLK_DEV && k in s.qs[Major(s.req[k].dev)])
  }

  /** A pending request carries its buffer's identity, one or two sectors of it still to do; writes stay in the lower
      two thirds of the slots. */
  ghost predicate PendingOk(s: State, k: nat)
    requires k < |s.req|
  {
    var r := s.req[k];
    && InRange(r) && r.bh < |s.bufs| && s.bufs[r.bh].dev == r.dev && s.bufs[r.bh].dev != 0
    && 1 <= r.nrSectors <= 2 && r.sector == 2 * s.bufs[r.bh].blocknr + (2 - r.nrSectors)
    && (r.cmd == WRITE ==> k < NR_REQUEST * 2 / 3)
  }

  ghost predicate Pending(s: State)
    requires Sizes(s)
  {
    forall k {:trigger PendingOk(s, k)} :: 0 <= k < NR_REQUEST && s.req[k].dev >= 0 ==> PendingOk(s, k)
  }

  /** A buffer is locked exactly when somebody owns it, and a slot that owns it is in use and names it. */
  ghost predicate BufOwned(s: State, b: nat)
    requires Sizes(s) && b < |s.bufs|
  {
    && (s.bufs[b].lock <==> s.slotOf[b] != NOBODY)
    && (s.slotOf[b] != NOBODY && s.slotOf[b] != TASK ==>
          0 <= s.slotOf[b] < NR_REQUEST && s.req[s.slotOf[b]].dev >= 0 && s.req[s.slotOf[b]].bh == b)
  }

  /** The buffer a pending request names is owned by it. */
  ghost predicate Owns(s: State, k: nat)
    requires Sizes(s) && k < NR_REQUEST
  {
    s.req[k].bh < |s.bufs| && s.slotOf[s.req[k].bh] == k
  }

  /** A buffer is locked exactly when one pending request names it or a task in make_request holds it. */
  ghost predicate Owned(s: State)
    requires Sizes(s)
  {
    && (forall b {:trigger BufOwned(s, b)} :: 0 <= b < |s.bufs| ==> BufOwned(s, b))
    && (forall k {:trigger Owns(s, k)} :: 0 <= k < NR_REQUEST && s.req[k].dev >= 0 ==> Owns(s, k))
  }

  ghost predicate BufOk(b: Buf) {
    b.dev < 0x1_0000 && b.blocknr < 0x8000_0000
  }

  /** Buffers carry distinct identities. */
  ghost predicate Identities(s: State) {
    && (forall b :: 0 <= b < |s.bufs| ==> BufOk(s.bufs[b]))
    && (forall b, c :: 0 <= b < |s.bufs| && 0 <= c < |s.bufs| && SameBlock(s.bufs[b], s.bufs[c]) ==> b == c)
  }

  predicate SameBlock(b: Buf, c: Buf) {
    b.dev != 0 && b.dev == c.dev && b.blocknr == c.blocknr
  }

  lemma BlockAsked(s: State, k: nat)
    requires k < |s.req| && PendingOk(s, k)
    ensures s.req[k].sector / 2 == s.bufs[s.req[k].bh].blocknr && s.req[k].dev == s.bufs[s.req[k].bh].dev != 0
  {
  }

  ghost function Keys(req: seq<Request>, q: seq<nat>): (r: seq<int>)
    requires forall i :: 0 <= i < |q| ==> q[i] < |req|
    ensures |r| == |q| && forall i :: 0 <= i < |q| ==> r[i] == KeyOf(req[q[i]])
  {
    seq(|q|, i requires 0 <= i < |q| => KeyOf(req[q[i]]))
  }

  /** Every device queue is two ascending runs. */
  ghost predicate Swept(s: State)
    requires Sizes(s) && Chained(s)
  {
    forall h :: 0 <= h < NR_BLK_DEV ==> TwoRuns(Keys(s.req, s.qs[h]))
  }

  ghost predicate Inv(s: State) {
    Sizes(s) && Chained(s) && Members(s) && Pending(s) && Owned(s) && Identities(s) && Swept(s)
  }

  /** No two pending requests ask for the same block of the same device: their buffers differ, since each is locked by
      one request, and so do the buffers' identities. */
  lemma KeysAreDistinct(s: State, k: nat, l: nat)
    requires Inv(s) && k < NR_REQUEST && l < NR_REQUEST && s.req[k].dev >= 0 && s.req[l].dev >= 0
    requires s.req[k].dev == s.req[l].dev && s.req[k].sector / 2 == s.req[l].sector / 2
    ensures k == l
  {
    assert PendingOk(s, k) && PendingOk(s, l);
    BlockAsked(s, k);
    BlockAsked(s, l);
    assert Owns(s, k) && Owns(s, l);
    hide PendingOk, Chained, Members, Swept;
    assert SameBlock(s.bufs[s.req[k].bh], s.bufs[s.req[l].bh]);
  }

  lemma EqualKeys(a: Request, b: Request)
    requires InRange(a) && InRange(b) && KeyOf(a) == KeyOf(b)
    ensures a.dev == b.dev && a.sector / 2 == b.sector / 2
  {
  }

  /** A freshly locked buffer, not yet named by a request, is asked for by no pending request. */
  lemma NewKeyIsNew(s: State, b: nat, k: nat)
    requires Inv(s) && b < |s.bufs| && s.slotOf[b] == TASK && s.bufs[b].dev != 0
    requires k < NR_REQUEST && s.req[k].dev >= 0 && s.req[k].dev == s.bufs[b].dev
    ensures s.req[k].sector / 2 != s.bufs[b].blocknr
  {
    assert PendingOk(s, k);
    BlockAsked(s, k);
    assert Owns(s, k);
    hide PendingOk, Chained, Members, Swept;
    assert s.req[k].bh != b;
    assert !SameBlock(s.bufs[s.req[k].bh], s.bufs[b]);
  }

  // ---------- steps ----------

  /** lock_buffer on an unlocked buffer: a task in make_request holds it. */
  function Hold(s: State, b: nat): State
    requires b < |s.bufs| && b < |s.slotOf|
  {
    s.(bufs := s.bufs[b := s.bufs[b].(lock := true)], slotOf := s.slotOf[b := TASK])
  }

  /** unlock_buffer by that task. */
  function Free(s: State, b: nat): State
    requires b < |s.bufs| && b < |s.slotOf|
  {
    s.(bufs := s.bufs[b := s.bufs[b].(lock := false)], slotOf := s.slotOf[b := NOBODY])
  }

  lemma HoldFree(s: State, b: nat)
    requires b < |s.bufs| && b < |s.slotOf| && !s.bufs[b].lock && s.slotOf[b] == NOBODY
    ensures Free(Hold(s, b), b) == s
  {
    assert Free(Hold(s, b), b).bufs == s.bufs && Free(Hold(s, b), b).slotOf == s.slotOf;
  }

  /** Changing lock, dirt or uptodate of buffers leaves queues and requests alone. */
  lemma BufFlags(s: State, t: State)
    requires Sizes(s) && Members(s) && Pending(s) && Identities(s)
    requires t.req == s.req && t.heads == s.heads && t.qs == s.qs && |t.bufs| == |s.bufs| && |t.slotOf| == |s.slotOf|
    requires forall b :: 0 <= b < |s.bufs| ==> t.bufs[b].dev == s.bufs[b].dev && t.bufs[b].blocknr == s.bufs[b].blocknr
    ensures Sizes(t) && Members(t) && Pending(t) && Identities(t)
  {
    forall k | 0 <= k < NR_REQUEST && t.req[k].dev >= 0
      ensures PendingOk(t, k)
    {
      assert PendingOk(s, k);
    }
    forall h, k | 0 <= h < NR_BLK_DEV && k in t.qs[h]
      ensures OnQueue(t, h, k)
    {
      assert OnQueue(s, h, k);
    }
    forall b, c | 0 <= b < |t.bufs| && 0 <= c < |t.bufs| && SameBlock(t.bufs[b], t.bufs[c])
      ensures b == c
    {
      assert SameBlock(s.bufs[b], s.bufs[c]);
    }
    forall b | 0 <= b < |t.bufs|
      ensures BufOk(t.bufs[b])
    {
      assert BufOk(s.bufs[b]);
    }
  }

  lemma HoldKeeps(s: State, b: nat)
    requires Inv(s) && b < |s.bufs| && (!s.bufs[b].lock || s.slotOf[b] == TASK)
    ensures Inv(Hold(s, b))
  {
    var t := Hold(s, b);
    assert BufOwned(s, b);
    BufFlags(s, t);
    hide Members, Pending, Identities, Chain, TwoRuns;
    forall k | 0 <= k < NR_REQUEST && t.req[k].dev >= 0
      ensures Owns(t, k)
    {
      assert Owns(s, k);
    }
    forall c | 0 <= c < |t.bufs|
      ensures BufOwned(t, c)
    {
      assert BufOwned(s, c);
    }
  }

  lemma FreeKeeps(s: State, b: nat)
    requires Inv(s) && b < |s.bufs| && s.slotOf[b] == TASK
    ensures Inv(Free(s, b))
  {
    var t := Free(s, b);
    BufFlags(s, t);
    hide Members, Pending, Identities, Chain, TwoRuns;
    forall k | 0 <= k < NR_REQUEST && t.req[k].dev >= 0
      ensures Owns(t, k)
    {
      assert Owns(s, k);
    }
    forall c | 0 <= c < |t.bufs|
      ensures BufOwned(t, c)
    {
      assert BufOwned(s, c);
    }
  }

  /** Equal but for the link. */
  predicate SameRequest(a: Request, b: Request) {
    b == a.(next := b.next)
  }

  lemma KeyIgnoresLink(a: Request, b: Request)
    requires SameRequest(a, b)
    ensures KeyOf(a) == KeyOf(b)
  {
  }

  /** A chain none of whose slots is rewritten. */
  lemma ChainFrame(req: seq<Request>, t: seq<Request>, q: seq<nat>, head: int)
    requires Chain(req, q, head) && |t| == |req| && forall i :: 0 <= i < |q| ==> t[q[i]].next == req[q[i]].next
    ensures Chain(t, q, head)
  {
  }

  /** The two stores that splice slot k in after element p of a chain. */
  function Splice(req: seq<Request>, tmp: nat, k: nat, r: Request): (t: seq<Request>)
    requires tmp < |req| && k < |req|
    ensures |t| == |req|
  {
    var t := req[k := r.(next := req[tmp].next)];
    t[tmp := t[tmp].(next := k)]
  }

  lemma SpliceAt(req: seq<Request>, tmp: nat, k: nat, r: Request, l: nat)
    requires tmp < |req| && k < |req| && tmp != k && l < |req|
    ensures Splice(req, tmp, k, r)[l].next == if l == tmp then k else if l == k then req[tmp].next else req[l].next
    ensures SameRequest(if l == k then r else req[l], Splice(req, tmp, k, r)[l])
  {
  }

  lemma SpliceAtFull(req: seq<Request>, tmp: nat, k: nat, r: Request, l: nat)
    requires tmp < |req| && k < |req| && tmp != k && l < |req|
    ensures SameRequest(if l == k then r else req[l], Splice(req, tmp, k, r)[l])
    ensures l != k && l != tmp ==> Splice(req, tmp, k, r)[l] == req[l]
  {
  }

  lemma SpliceStep(req: seq<Request>, q: seq<nat>, head: int, p: nat, k: nat, r: Request, i: nat)
    requires Chain(req, q, head) && p < |q| && q[p] < |req| && k < |req| && k !in q && i <= |q|
    ensures var t, c := Splice(req, q[p], k, r), InsertAfter(q, p, k);
            c[i] < |t| && t[c[i]].next == NextIn(c, i)
  {
    InsertAt(q, p, k);
    var c := InsertAfter(q, p, k);
    hide InsertAfter;
    assert q[p] in q && req[q[p]].next == NextIn(q, p);
    if i <= p {
      assert q[i] in q && req[q[i]].next == NextIn(q, i) && (i < p ==> q[i] != q[p]);
    } else if i > p + 1 {
      assert q[i - 1] in q && req[q[i - 1]].next == NextIn(q, i - 1) && q[i - 1] != q[p];
    }
    SpliceAt(req, q[p], k, r, c[i]);
    hide Splice;
  }

  lemma SpliceChain(req: seq<Request>, q: seq<nat>, head: int, p: nat, k: nat, r: Request)
    requires Chain(req, q, head) && p < |q| && k < |req| && k !in q
    ensures q[p] < |req| && Chain(Splice(req, q[p], k, r), InsertAfter(q, p, k), head)
  {
    var c := InsertAfter(q, p, k);
    InsertAt(q, p, k);
    forall i, j | 0 <= i < j < |c|
      ensures c[i] != c[j]
    {
      assert forall l :: 0 <= l < |q| ==> q[l] in q;
    }
    hide InsertAfter, Splice;
    forall i | 0 <= i < |c|
      ensures c[i] < |req| && Splice(req, q[p], k, r)[c[i]].next == NextIn(c, i)
    {
      SpliceStep(req, q, head, p, k, r, i);
    }
  }

  /** The request make_request builds for buffer b. */
  function NewRequest(s: State, b: nat, rw: nat): Request
    requires b < |s.bufs|
  {
    Request(s.bufs[b].dev, rw, 0, 2 * s.bufs[b].blocknr, 2, b, NULL)
  }

  ghost function QueueOf(s: State, b: nat): nat
    requires b < |s.bufs| && Major(s.bufs[b].dev) < NR_BLK_DEV
  {
    Major(s.bufs[b].dev)
  }

  /** Slot k filled with a request for the held buffer b and inserted in its device queue, as make_request
      and add_request do. */
  ghost function Enqueue(s: State, k: nat, b: nat, rw: nat): State
    requires Sizes(s) && Chained(s) && k < NR_REQUEST && b < |s.bufs| && Major(s.bufs[b].dev) < NR_BLK_DEV
  {
    var h := QueueOf(s, b);
    var q := s.qs[h];
    assert Chain(s.req, q, s.heads[h]);
    var r := NewRequest(s, b, rw);
    var t := s.(bufs := s.bufs[b := s.bufs[b].(dirt := false)], slotOf := s.slotOf[b := k]);
    if q == [] then t.(req := s.req[k := r], heads := s.heads[h := k], qs := s.qs[h := [k]])
    else
      var p := Place(Keys(s.req, q), KeyOf(r), 0);
      t.(req := Splice(s.req, q[p], k, r), qs := s.qs[h := InsertAfter(q, p, k)])
  }

  /** What holds before Enqueue: a free slot, low enough for a write, and a held buffer. */
  ghost predicate CanEnqueue(s: State, k: nat, b: nat, rw: nat) {
    && Inv(s) && k < NR_REQUEST && s.req[k].dev < 0 && b < |s.bufs| && s.slotOf[b] == TASK && rw <= 1
    && s.bufs[b].dev != 0 && Major(s.bufs[b].dev) < NR_BLK_DEV && (rw == WRITE ==> k < NR_REQUEST * 2 / 3)
  }

  /** The new key is none of the queue's. */
  lemma NewKeyNotQueued(s: State, k: nat, b: nat, rw: nat, h: nat)
    requires CanEnqueue(s, k, b, rw) && h < NR_BLK_DEV
    ensures Chain(s.req, s.qs[h], s.heads[h]) && KeyOf(NewRequest(s, b, rw)) !in Keys(s.req, s.qs[h])
    ensures InRange(NewRequest(s, b, rw))
  {
    var r := NewRequest(s, b, rw);
    var q := s.qs[h];
    assert Chain(s.req, q, s.heads[h]);
    assert BufOk(s.bufs[b]);
    forall i | 0 <= i < |q|
      ensures KeyOf(s.req[q[i]]) != KeyOf(r)
    {
      assert OnQueue(s, h, q[i]);
      assert PendingOk(s, q[i]);
      if KeyOf(s.req[q[i]]) == KeyOf(r) {
        EqualKeys(s.req[q[i]], r);
        NewKeyIsNew(s, b, q[i]);
      }
    }
  }

  /** What Enqueue changes besides the requests. */
  ghost predicate EnqueuedRest(s: State, t: State, k: nat, b: nat, h: nat)
    requires Sizes(s) && b < |s.bufs|
  {
    && Sizes(t) && t.bufs == s.bufs[b := s.bufs[b].(dirt := false)] && t.slotOf == s.slotOf[b := k]
    && (forall g :: 0 <= g < NR_BLK_DEV && g != h ==> t.qs[g] == s.qs[g] && t.heads[g] == s.heads[g])
  }

  /** What splicing request r into slot k and a queue does: from requests `req`, queue q and head to `tr`, c and th. */
  ghost predicate Spliced(req: seq<Request>, q: seq<nat>, head: int, tr: seq<Request>, c: seq<nat>, th: int, k: nat,
      r: Request)
    requires Chain(req, q, head) && |req| == NR_REQUEST && k < NR_REQUEST
  {
    && |tr| == NR_REQUEST && Chain(tr, c, th) && (forall x :: x in c <==> x in q || x == k)
    && SameRequest(r, tr[k]) && (forall l :: 0 <= l < NR_REQUEST && l != k ==> SameRequest(req[l], tr[l]))
    && (forall l :: 0 <= l < NR_REQUEST && l != k && l !in q ==> tr[l] == req[l])
    && Keys(tr, c) == Insert(Keys(req, q), KeyOf(r))
  }

  /** What Enqueue changes. */
  ghost predicate Enqueued(s: State, t: State, k: nat, b: nat, rw: nat, h: nat)
    requires Sizes(s) && Chained(s) && b < |s.bufs| && k < NR_REQUEST && h < NR_BLK_DEV
  {
    && EnqueuedRest(s, t, k, b, h) && Chain(s.req, s.qs[h], s.heads[h])
    && Spliced(s.req, s.qs[h], s.heads[h], t.req, t.qs[h], t.heads[h], k, NewRequest(s, b, rw))
  }

  lemma EnqueueOnEmpty(s: State, t: State, k: nat, b: nat, rw: nat, h: nat)
    requires CanEnqueue(s, k, b, rw) && h == QueueOf(s, b) && t == Enqueue(s, k, b, rw) && s.qs[h] == []
    ensures Enqueued(s, t, k, b, rw, h)
  {
    var r := NewRequest(s, b, rw);
    assert Chain(s.req, s.qs[h], s.heads[h]);
    hide Members, Pending, Owned, Identities, Swept, Chained, KeyOf;
    assert t.req == s.req[k := r] && t.qs[h] == [k] && t.heads[h] == k;
    assert Keys(t.req, [k]) == [KeyOf(r)];
  }

  lemma SpliceIsSpliced(req: seq<Request>, q: seq<nat>, head: int, k: nat, r: Request)
    requires |req| == NR_REQUEST && Chain(req, q, head) && q != [] && k < NR_REQUEST && k !in q
    ensures var p := Place(Keys(req, q), KeyOf(r), 0);
            Spliced(req, q, head, Splice(req, q[p], k, r), InsertAfter(q, p, k), head, k, r)
  {
    hide KeyOf, Place;
    var p := Place(Keys(req, q), KeyOf(r), 0);
    assert q[p] in q;
    SpliceChain(req, q, head, p, k, r);
    SpliceKeys(req, q, p, k, r);
    InsertHas(q, p, k);
    hide Chain, InsertAfter;
    forall l | 0 <= l < NR_REQUEST
      ensures SameRequest(if l == k then r else req[l], Splice(req, q[p], k, r)[l])
      ensures l != k && l != q[p] ==> Splice(req, q[p], k, r)[l] == req[l]
    {
      SpliceAtFull(req, q[p], k, r, l);
    }
    hide Splice;
  }

  lemma EnqueueOnQueue(s: State, t: State, k: nat, b: nat, rw: nat, h: nat)
    requires CanEnqueue(s, k, b, rw) && h == QueueOf(s, b) && t == Enqueue(s, k, b, rw) && s.qs[h] != []
    ensures Enqueued(s, t, k, b, rw, h)
  {
    hide KeyOf, Place, Splice, InsertAfter, Pending, Owned, Identities, Swept, Spliced;
    assert Chain(s.req, s.qs[h], s.heads[h]);
    FreeSlotOffQueue(s, k, h);
    hide Members, Chained, Major;
    SpliceIsSpliced(s.req, s.qs[h], s.heads[h], k, NewRequest(s, b, rw));
    hide Chain;
  }

  lemma FreeSlotOffQueue(s: State, k: nat, h: nat)
    requires Sizes(s) && Members(s) && k < NR_REQUEST && s.req[k].dev < 0 && h < NR_BLK_DEV
    ensures k !in s.qs[h]
  {
    assert k in s.qs[h] ==> OnQueue(s, h, k);
  }

  lemma EnqueueShape(s: State, t: State, k: nat, b: nat, rw: nat, h: nat)
    requires CanEnqueue(s, k, b, rw) && h == QueueOf(s, b) && t == Enqueue(s, k, b, rw)
    ensures Enqueued(s, t, k, b, rw, h)
  {
    if s.qs[h] == [] {
      EnqueueOnEmpty(s, t, k, b, rw, h);
    } else {
      EnqueueOnQueue(s, t, k, b, rw, h);
    }
  }

  lemma SpliceKeys(req: seq<Request>, q: seq<nat>, p: nat, k: nat, r: Request)
    requires p < |q| && k < |req| && k !in q && forall i :: 0 <= i < |q| ==> q[i] < |req|
    ensures forall i :: 0 <= i < |InsertAfter(q, p, k)| ==> InsertAfter(q, p, k)[i] < |req|
    ensures Keys(Splice(req, q[p], k, r), InsertAfter(q, p, k)) == InsertAfter(Keys(req, q), p, KeyOf(r))
  {
    var c, t, ks := InsertAfter(q, p, k), Splice(req, q[p], k, r), Keys(req, q);
    InsertAt(q, p, k);
    InsertAt(ks, p, KeyOf(r));
    assert q[p] in q;
    var want := InsertAfter(ks, p, KeyOf(r));
    hide InsertAfter, KeyOf;
    forall i | 0 <= i < |c|
      ensures c[i] < |req| && KeyOf(t[c[i]]) == want[i]
    {
      assert i <= p ==> q[i] in q;
      assert i > p + 1 ==> q[i - 1] in q;
      SpliceAt(req, q[p], k, r, c[i]);
      KeyIgnoresLink(if c[i] == k then r else req[c[i]], t[c[i]]);
    }
  }

  lemma InsertHas(q: seq<nat>, p: nat, k: nat)
    requires p < |q|
    ensures forall x :: x in InsertAfter(q, p, k) <==> x in q || x == k
  {
    forall x | x in q
      ensures x in q[..p + 1] || x in q[p + 1..]
    {
      assert q == q[..p + 1] + q[p + 1..];
    }
  }

  lemma EnqueueChained(s: State, t: State, k: nat, b: nat, rw: nat, h: nat)
    requires CanEnqueue(s, k, b, rw) && h == QueueOf(s, b) && Enqueued(s, t, k, b, rw, h)
    ensures Chained(t)
  {
    forall g | 0 <= g < NR_BLK_DEV && g != h
      ensures Chain(t.req, t.qs[g], t.heads[g])
    {
      assert Chain(s.req, s.qs[g], s.heads[g]);
      forall i | 0 <= i < |s.qs[g]|
        ensures t.req[s.qs[g][i]].next == s.req[s.qs[g][i]].next
      {
        var l := s.qs[g][i];
        assert OnQueue(s, g, l);
        assert l in s.qs[h] ==> OnQueue(s, h, l);
      }
      ChainFrame(s.req, t.req, s.qs[g], s.heads[g]);
    }
  }

  lemma EnqueueMembers(s: State, t: State, k: nat, b: nat, rw: nat, h: nat)
    requires CanEnqueue(s, k, b, rw) && h == QueueOf(s, b) && Enqueued(s, t, k, b, rw, h)
    ensures Members(t)
  {
    hide Chained, Pending, Owned, Identities, Swept, Chain, Insert, KeyOf;
    forall g, x | 0 <= g < NR_BLK_DEV && x in t.qs[g]
      ensures OnQueue(t, g, x)
    {
      if x != k {
        assert OnQueue(s, g, x);
        assert SameRequest(s.req[x], t.req[x]);
      }
    }
    forall x | 0 <= x < NR_REQUEST && t.req[x].dev >= 0
      ensures 0 <= Major(t.req[x].dev) < NR_BLK_DEV && x in t.qs[Major(t.req[x].dev)]
    {
      if x != k {
        assert SameRequest(s.req[x], t.req[x]);
      }
    }
  }

  /** A request is still in order when only its link, and of buffers only their flags, change. */
  lemma PendingCarries(s: State, t: State, x: nat)
    requires x < |s.req| && x < |t.req| && PendingOk(s, x) && SameRequest(s.req[x], t.req[x]) && |t.bufs| == |s.bufs|
    requires t.bufs[s.req[x].bh].dev == s.bufs[s.req[x].bh].dev
        && t.bufs[s.req[x].bh].blocknr == s.bufs[s.req[x].bh].blocknr
    ensures PendingOk(t, x)
  {
  }

  lemma NewPending(s: State, t: State, k: nat, b: nat, rw: nat)
    requires CanEnqueue(s, k, b, rw) && BufOk(s.bufs[b]) && k < |t.req| && SameRequest(NewRequest(s, b, rw), t.req[k])
    requires t.bufs == s.bufs[b := s.bufs[b].(dirt := false)]
    ensures PendingOk(t, k)
  {
    hide Inv;
  }

  lemma EnqueuePending(s: State, t: State, k: nat, b: nat, rw: nat, h: nat)
    requires CanEnqueue(s, k, b, rw) && h == QueueOf(s, b) && Enqueued(s, t, k, b, rw, h)
    ensures Pending(t) && Identities(t)
  {
    BufFlags(s, s.(bufs := t.bufs, slotOf := t.slotOf));
    assert BufOk(s.bufs[b]);
    NewPending(s, t, k, b, rw);
    forall x | 0 <= x < NR_REQUEST && t.req[x].dev >= 0
      ensures PendingOk(t, x)
    {
      if x != k {
        assert SameRequest(s.req[x], t.req[x]);
        assert PendingOk(s, x);
        hide Enqueued, CanEnqueue, Pending;
        PendingCarries(s, t, x);
      }
    }
    assert Identities(t) by {
      hide Enqueued, CanEnqueue, Pending;
    }
  }

  lemma EnqueueOwned(s: State, t: State, k: nat, b: nat, rw: nat, h: nat)
    requires CanEnqueue(s, k, b, rw) && h == QueueOf(s, b) && Enqueued(s, t, k, b, rw, h)
    ensures Owned(t)
  {
    hide Chained, Members, Swept, Chain, Insert, KeyOf, Pending, Identities;
    forall x | 0 <= x < NR_REQUEST && t.req[x].dev >= 0
      ensures Owns(t, x)
    {
      if x != k {
        assert SameRequest(s.req[x], t.req[x]);
        assert Owns(s, x);
      }
    }
    forall c | 0 <= c < |s.bufs|
      ensures BufOwned(t, c)
    {
      assert BufOwned(s, c);
      if c != b && s.slotOf[c] != NOBODY && s.slotOf[c] != TASK {
        assert SameRequest(s.req[s.slotOf[c]], t.req[s.slotOf[c]]);
      }
    }
  }

  lemma EnqueueSwept(s: State, t: State, k: nat, b: nat, rw: nat, h: nat)
    requires CanEnqueue(s, k, b, rw) && h == QueueOf(s, b) && Enqueued(s, t, k, b, rw, h) && Chained(t)
    ensures Swept(t)
  {
    NewKeyNotQueued(s, k, b, rw, h);
    hide Pending, Owned, Identities, KeyOf, Split, Insert;
    forall g | 0 <= g < NR_BLK_DEV
      ensures TwoRuns(Keys(t.req, t.qs[g]))
    {
      assert Chain(s.req, s.qs[g], s.heads[g]) && Chain(t.req, t.qs[g], t.heads[g]);
      assert TwoRuns(Keys(s.req, s.qs[g]));
      if g == h {
        InsertTwoRuns(Keys(s.req, s.qs[h]), KeyOf(NewRequest(s, b, rw)));
      } else {
        forall i | 0 <= i < |s.qs[g]|
          ensures KeyOf(t.req[s.qs[g][i]]) == KeyOf(s.req[s.qs[g][i]])
        {
          assert OnQueue(s, g, s.qs[g][i]);
          KeyIgnoresLink(s.req[s.qs[g][i]], t.req[s.qs[g][i]]);
        }
        assert Keys(t.req, t.qs[g]) == Keys(s.req, s.qs[g]);
      }
    }
  }

  /** make_request's last step keeps everything: the request goes where the elevator puts its key. */
  lemma EnqueueKeeps(s: State, k: nat, b: nat, rw: nat)
    requires CanEnqueue(s, k, b, rw)
    ensures Inv(Enqueue(s, k, b, rw))
  {
    var t, h := Enqueue(s, k, b, rw), QueueOf(s, b);
    EnqueueShape(s, t, k, b, rw, h);
    hide Enqueue, Chained, Members, Pending, Owned, Identities, Swept;
    EnqueueChained(s, t, k, b, rw, h);
    EnqueueMembers(s, t, k, b, rw, h);
    EnqueuePending(s, t, k, b, rw, h);
    EnqueueOwned(s, t, k, b, rw, h);
    EnqueueSwept(s, t, k, b, rw, h);
  }

  /** A request after its first sector: a read also forgets its errors. */
  function Advanced(r: Request): Request {
    r.(errors := if r.cmd == READ then 0 else r.errors, sector := r.sector + 1, nrSectors := 1)
  }

  /** One sector of the head done, one to go: read_intr and write_intr. */
  ghost function Sector(s: State, h: nat): State
    requires Sizes(s) && h < NR_BLK_DEV && 0 <= s.heads[h] < NR_REQUEST
  {
    var k := s.heads[h];
    s.(req := s.req[k := Advanced(s.req[k])])
  }

  ghost predicate CanFinish(s: State, h: nat) {
    Inv(s) && h < NR_BLK_DEV && 0 <= s.heads[h] < NR_REQUEST && s.qs[h] != [] && s.heads[h] == s.qs[h][0]
    && s.req[s.heads[h]].dev >= 0 && s.req[s.heads[h]].bh < |s.bufs|
  }

  lemma SecondSectorKey(r: Request)
    requires r.sector % 2 == 0
    ensures KeyOf(Advanced(r)) == KeyOf(r)
  {
  }

  /** Requests and owners when only request k changes, and not its device or buffer. */
  lemma RequestPending(s: State, t: State, k: nat, r: Request)
    requires Sizes(s) && Sizes(t) && Pending(s) && Owned(s) && k < NR_REQUEST && PendingOk(t, k)
    requires t.bufs == s.bufs && t.slotOf == s.slotOf && t.req == s.req[k := r]
    requires r.dev == s.req[k].dev && r.bh == s.req[k].bh
    ensures Pending(t) && Owned(t)
  {
    hide KeyOf;
    forall x | 0 <= x < NR_REQUEST && t.req[x].dev >= 0
      ensures PendingOk(t, x) && Owns(t, x)
    {
      assert PendingOk(s, x) && Owns(s, x);
      if x != k {
        PendingCarries(s, t, x);
      }
    }
    forall c | 0 <= c < |t.bufs|
      ensures BufOwned(t, c)
    {
      assert BufOwned(s, c);
    }
  }

  lemma SectorPending(s: State, t: State, k: nat)
    requires Sizes(s) && Sizes(t) && Pending(s) && Owned(s) && k < NR_REQUEST && PendingOk(s, k)
        && s.req[k].nrSectors == 2
    requires t.bufs == s.bufs && t.slotOf == s.slotOf && t.req == s.req[k := Advanced(s.req[k])]
    ensures Pending(t) && Owned(t) && KeyOf(t.req[k]) == KeyOf(s.req[k])
  {
    SecondSectorKey(s.req[k]);
    hide KeyOf;
    assert PendingOk(t, k);
    RequestPending(s, t, k, Advanced(s.req[k]));
  }

  /** Queues when the links and keys of all slots stay the same. */
  lemma SameQueues(s: State, t: State)
    requires Sizes(s) && Sizes(t) && Chained(s) && Members(s) && Swept(s) && t.qs == s.qs && t.heads == s.heads
    requires forall l :: 0 <= l < NR_REQUEST ==> t.req[l].next == s.req[l].next && t.req[l].dev == s.req[l].dev
    requires forall l :: 0 <= l < NR_REQUEST ==> KeyOf(t.req[l]) == KeyOf(s.req[l])
    ensures Chained(t) && Members(t) && Swept(t)
  {
    hide KeyOf, TwoRuns, Major;
    forall g | 0 <= g < NR_BLK_DEV
      ensures Chain(t.req, t.qs[g], t.heads[g]) && TwoRuns(Keys(t.req, t.qs[g]))
    {
      assert Chain(s.req, s.qs[g], s.heads[g]);
      assert TwoRuns(Keys(s.req, s.qs[g]));
      ChainFrame(s.req, t.req, s.qs[g], s.heads[g]);
      hide Chain;
      assert Keys(t.req, t.qs[g]) == Keys(s.req, s.qs[g]);
    }
    forall g, x | 0 <= g < NR_BLK_DEV && x in t.qs[g]
      ensures OnQueue(t, g, x)
    {
      assert OnQueue(s, g, x);
    }
  }

  /** The head moving from its block's first sector to the second does not disturb the queue's order. */
  lemma SectorKeeps(s: State, h: nat)
    requires CanFinish(s, h) && PendingOk(s, s.heads[h]) && s.req[s.heads[h]].nrSectors == 2
    ensures Inv(Sector(s, h))
  {
    hide PendingOk, Pending, Owned, KeyOf, Chained, Members, Swept, Identities;
    var t := Sector(s, h);
    SectorPending(s, t, s.heads[h]);
    SameIdentities(s, t);
    SameQueues(s, t);
    hide Chained, Members, Swept, Chain;
  }

  /** One error more on the head: bad_rw_intr. */
  ghost function Missed(s: State, h: nat): State
    requires Sizes(s) && h < NR_BLK_DEV && 0 <= s.heads[h] < NR_REQUEST
  {
    var k := s.heads[h];
    s.(req := s.req[k := s.req[k].(errors := s.req[k].errors + 1)])
  }

  lemma MissedKeeps(s: State, h: nat)
    requires CanFinish(s, h) && PendingOk(s, s.heads[h])
    ensures Inv(Missed(s, h)) && CanFinish(Missed(s, h), h)
  {
    hide Pending, Owned, KeyOf, Chained, Members, Swept, Identities;
    var t, k := Missed(s, h), s.heads[h];
    assert PendingOk(t, k);
    RequestPending(s, t, k, t.req[k]);
    SameIdentities(s, t);
    ErrorsKey(s.req[k], t.req[k]);
    SameQueues(s, t);
    hide Chain;
  }

  lemma ErrorsKey(a: Request, b: Request)
    requires b == a.(errors := b.errors)
    ensures KeyOf(a) == KeyOf(b)
  {
  }

  /** end_request: the head's slot is freed, its buffer unlocked, and the next request moves up. */
  ghost function Finish(s: State, h: nat, uptodate: bool): State
    requires Sizes(s) && h < NR_BLK_DEV && 0 <= s.heads[h] < NR_REQUEST && s.qs[h] != []
        && s.req[s.heads[h]].bh < |s.bufs|
  {
    var k := s.heads[h];
    var b := s.req[k].bh;
    State(s.req[k := s.req[k].(dev := -1)],
          s.bufs[b := s.bufs[b].(uptodate := uptodate, lock := false)],
          s.heads[h := s.req[k].next], s.qs[h := s.qs[h][1..]], s.slotOf[b := NOBODY])
  }

  /** A non-NULL head is the first of its queue and pending. */
  lemma HeadIsPending(s: State, h: nat)
    requires Inv(s) && h < NR_BLK_DEV && s.heads[h] != NULL
    ensures CanFinish(s, h) && PendingOk(s, s.heads[h]) && 1 <= s.req[s.heads[h]].nrSectors <= 2
  {
    assert Chain(s.req, s.qs[h], s.heads[h]);
    assert s.qs[h][0] in s.qs[h];
    assert OnQueue(s, h, s.qs[h][0]);
    assert PendingOk(s, s.qs[h][0]);
  }

  /** The queue whose head completes. */
  lemma FinishQueue(s: State, h: nat, ok: bool)
    requires CanFinish(s, h)
    ensures var t := Finish(s, h, ok);
            Chain(t.req, t.qs[h], t.heads[h]) && TwoRuns(Keys(t.req, t.qs[h]))
  {
    var t, k := Finish(s, h, ok), s.heads[h];
    assert Chain(s.req, s.qs[h], s.heads[h]);
    assert TwoRuns(Keys(s.req, s.qs[h]));
    hide Members, Pending, Owned, Identities, Swept, Chained, KeyOf;
    PopChain(s.req, t.req, s.qs[h], k);
    PopTwoRuns(Keys(s.req, s.qs[h]));
    hide Chain, TwoRuns;
    assert Keys(t.req, t.qs[h]) == Keys(s.req, s.qs[h])[1..];
  }

  /** Any other queue. */
  lemma FinishOther(s: State, h: nat, ok: bool, g: nat)
    requires CanFinish(s, h) && g < NR_BLK_DEV && g != h
    ensures var t := Finish(s, h, ok);
            Chain(t.req, t.qs[g], t.heads[g]) && TwoRuns(Keys(t.req, t.qs[g]))
  {
    var t, k := Finish(s, h, ok), s.heads[h];
    assert Chain(s.req, s.qs[g], s.heads[g]);
    assert TwoRuns(Keys(s.req, s.qs[g]));
    assert OnQueue(s, h, k);
    assert k !in s.qs[g] by {
      assert k in s.qs[g] ==> OnQueue(s, g, k);
    }
    hide Members, Pending, Owned, Identities, Swept, Chained, KeyOf;
    ChainFrame(s.req, t.req, s.qs[g], s.heads[g]);
    hide Chain, TwoRuns;
    forall i | 0 <= i < |s.qs[g]|
      ensures KeyOf(t.req[s.qs[g][i]]) == KeyOf(s.req[s.qs[g][i]])
    {
      assert s.qs[g][i] in s.qs[g];
    }
    assert Keys(t.req, t.qs[g]) == Keys(s.req, s.qs[g]);
  }

  lemma FinishChained(s: State, h: nat, ok: bool)
    requires CanFinish(s, h)
    ensures Sizes(Finish(s, h, ok)) && Chained(Finish(s, h, ok)) && Swept(Finish(s, h, ok))
  {
    FinishQueue(s, h, ok);
    hide Chain, TwoRuns, Members, Pending, Owned, Identities;
    forall g | 0 <= g < NR_BLK_DEV && g != h
      ensures var t := Finish(s, h, ok);
              Chain(t.req, t.qs[g], t.heads[g]) && TwoRuns(Keys(t.req, t.qs[g]))
    {
      FinishOther(s, h, ok, g);
    }
  }

  lemma PopChain(req: seq<Request>, t: seq<Request>, q: seq<nat>, k: nat)
    requires Chain(req, q, k) && q != [] && |t| == |req| && forall l :: 0 <= l < |req| && l != k ==> t[l] == req[l]
    ensures k < |req| && Chain(t, q[1..], req[k].next)
    ensures forall i :: 0 < i < |q| ==> q[i] != k
  {
    assert req[q[0]].next == NextIn(q, 0);
    forall i | 0 <= i < |q[1..]|
      ensures t[q[1..][i]].next == NextIn(q[1..], i)
    {
      assert q[1..][i] == q[i + 1];
      assert req[q[i + 1]].next == NextIn(q, i + 1);
    }
  }

  lemma FinishMembers(s: State, t: State, h: nat, k: nat)
    requires Sizes(s) && Sizes(t) && Members(s) && h < NR_BLK_DEV && k < NR_REQUEST
    requires Chain(s.req, s.qs[h], s.heads[h]) && s.qs[h] != [] && s.qs[h][0] == k
    requires t.req == s.req[k := s.req[k].(dev := -1)] && t.qs == s.qs[h := s.qs[h][1..]]
    ensures Members(t)
  {
    hide Major;
    assert s.qs[h] == [k] + s.qs[h][1..];
    assert k !in s.qs[h][1..];
    hide Chain;
    assert k in s.qs[h] && OnQueue(s, h, k);
    forall g, x | 0 <= g < NR_BLK_DEV && x in t.qs[g]
      ensures OnQueue(t, g, x)
    {
      assert OnQueue(s, g, x);
    }
  }

  lemma FinishOwned(s: State, t: State, k: nat, b: nat, ok: bool)
    requires Sizes(s) && Sizes(t) && Pending(s) && Owned(s) && k < NR_REQUEST && s.req[k].dev >= 0
        && s.req[k].bh == b < |s.bufs|
    requires t.req == s.req[k := s.req[k].(dev := -1)]
    requires t.bufs == s.bufs[b := s.bufs[b].(uptodate := ok, lock := false)] && t.slotOf == s.slotOf[b := NOBODY]
    ensures Pending(t) && Owned(t)
  {
    assert Owns(s, k);
    forall x | 0 <= x < NR_REQUEST && t.req[x].dev >= 0
      ensures PendingOk(t, x) && Owns(t, x)
    {
      assert PendingOk(s, x) && Owns(s, x);
      PendingCarries(s, t, x);
    }
    forall c | 0 <= c < |t.bufs|
      ensures BufOwned(t, c)
    {
      assert BufOwned(s, c);
    }
  }

  lemma SameIdentities(s: State, t: State)
    requires Identities(s) && |t.bufs| == |s.bufs|
    requires forall b :: 0 <= b < |s.bufs| ==> t.bufs[b].dev == s.bufs[b].dev && t.bufs[b].blocknr == s.bufs[b].blocknr
    ensures Identities(t)
  {
    forall b, c | 0 <= b < |t.bufs| && 0 <= c < |t.bufs| && SameBlock(t.bufs[b], t.bufs[c])
      ensures b == c
    {
      assert SameBlock(s.bufs[b], s.bufs[c]);
    }
    forall b | 0 <= b < |t.bufs|
      ensures BufOk(t.bufs[b])
    {
      assert BufOk(s.bufs[b]);
    }
  }

  /** Completion keeps everything: the queue moves up one, the buffer is free. */
  lemma FinishKeeps(s: State, h: nat, ok: bool)
    requires CanFinish(s, h)
    ensures Inv(Finish(s, h, ok))
  {
    FinishChained(s, h, ok);
    var t, k := Finish(s, h, ok), s.heads[h];
    assert Chain(s.req, s.qs[h], s.heads[h]);
    hide Chained, Members, Pending, Owned, Identities, Swept, Chain;
    FinishMembers(s, t, h, k);
    FinishOwned(s, t, k, s.req[k].bh, ok);
    SameIdentities(s, t);
  }

  /** The buffer cache giving an unlocked buffer a new identity that no other buffer has, with new flags. */
  function Identify(s: State, b: nat, dev: nat, block: nat): State
    requires b < |s.bufs|
  {
    s.(bufs := s.bufs[b := s.bufs[b].(dev := dev, blocknr := block, dirt := false, uptodate := false)])
  }

  lemma IdentifyKeeps(s: State, b: nat, dev: nat, block: nat)
    requires Inv(s) && b < |s.bufs| && !s.bufs[b].lock && dev < 0x1_0000 && block < 0x8000_0000
    requires forall c :: 0 <= c < |s.bufs| && c != b ==>
        !(dev != 0 && s.bufs[c].dev == dev && s.bufs[c].blocknr == block)
    ensures Inv(Identify(s, b, dev, block))
  {
    var t := Identify(s, b, dev, block);
    hide Chain, TwoRuns;
    assert BufOwned(s, b);
    forall x | 0 <= x < NR_REQUEST && t.req[x].dev >= 0
      ensures PendingOk(t, x) && Owns(t, x)
    {
      assert PendingOk(s, x) && Owns(s, x);
      PendingCarries(s, t, x);
    }
    forall c | 0 <= c < |t.bufs|
      ensures BufOwned(t, c)
    {
      assert BufOwned(s, c);
    }
    forall c, e | 0 <= c < |t.bufs| && 0 <= e < |t.bufs| && SameBlock(t.bufs[c], t.bufs[e])
      ensures c == e
    {
      assert c != b && e != b ==> SameBlock(s.bufs[c], s.bufs[e]) && s.bufs[c] == t.bufs[c];
    }
    forall c | 0 <= c < |t.bufs|
      ensures BufOk(t.bufs[c])
    {
      assert BufOk(s.bufs[c]);
    }
    forall g, x | 0 <= g < NR_BLK_DEV && x in t.qs[g]
      ensures OnQueue(t, g, x)
    {
      assert OnQueue(s, g, x);
    }
  }

  /** The flags a buffer's user sets. */
  function Mark(s: State, b: nat, dirt: bool, uptodate: bool): State
    requires b < |s.bufs|
  {
    s.(bufs := s.bufs[b := s.bufs[b].(dirt := dirt, uptodate := uptodate)])
  }

  lemma MarkKeeps(s: State, b: nat, dirt: bool, uptodate: bool)
    requires Inv(s) && b < |s.bufs|
    ensures Inv(Mark(s, b, dirt, uptodate))
  {
    var t := Mark(s, b, dirt, uptodate);
    BufFlags(s, t);
    hide Members, Pending, Identities, Chain, TwoRuns;
    forall k | 0 <= k < NR_REQUEST && t.req[k].dev >= 0
      ensures Owns(t, k)
    {
      assert Owns(s, k);
    }
    forall c | 0 <= c < |t.bufs|
      ensures BufOwned(t, c)
    {
      assert BufOwned(s, c);
    }
  }

  /** At most 21 of the 32 slots ever hold writes: the rest is kept for reads. */
  lemma WritesLeaveRoom(s: State)
    requires Inv(s)
    ensures |set k | 0 <= k < NR_REQUEST && s.req[k].dev >= 0 && s.req[k].cmd == WRITE| <= 21
  {
    var w := set k | 0 <= k < NR_REQUEST && s.req[k].dev >= 0 && s.req[k].cmd == WRITE;
    forall k | k in w
      ensures k < 21
    {
      assert PendingOk(s, k);
    }
    hide Inv;
    Below(w, 21);
  }

  lemma {:induction false} Below(w: set<int>, n: nat)
    requires forall k :: k in w ==> 0 <= k < n
    ensures |w| <= n
  {
    if n > 0 {
      Below(w - {n - 1}, n - 1);
      if n - 1 in w {
        assert |w - {n - 1}| == |w| - 1;
      } else {
        assert w - {n - 1} == w;
      }
    } else {
      assert forall k :: k !in w;
    }
  }

  lemma QueuedIsPending(s: State, h: nat, k: nat)
    requires Inv(s) && h < NR_BLK_DEV && k in s.qs[h]
    ensures k < NR_REQUEST && s.req[k].dev >= 0 && InRange(s.req[k])
  {
    assert OnQueue(s, h, k);
    assert PendingOk(s, k);
  }

  lemma DifferentKeys(s: State, h: nat, k: nat, l: nat)
    requires Inv(s) && h < NR_BLK_DEV && k in s.qs[h] && l in s.qs[h] && k != l && k < |s.req| && l < |s.req|
    ensures KeyOf(s.req[k]) != KeyOf(s.req[l])
  {
    QueuedIsPending(s, h, k);
    QueuedIsPending(s, h, l);
    if KeyOf(s.req[k]) == KeyOf(s.req[l]) {
      EqualKeys(s.req[k], s.req[l]);
      KeysAreDistinct(s, k, l);
    }
  }

  /** The keys of one queue are pairwise distinct. */
  lemma QueueKeysDistinct(s: State, h: nat)
    requires Inv(s) && h < NR_BLK_DEV
    ensures Chain(s.req, s.qs[h], s.heads[h]) && DistinctKeys(Keys(s.req, s.qs[h]))
    ensures forall i :: 0 <= i < |s.qs[h]| ==> InRange(s.req[s.qs[h][i]])
  {
    var q := s.qs[h];
    assert Chain(s.req, q, s.heads[h]);
    hide Members, Pending, Owned, Identities, Swept, Chained, KeyOf, InRange;
    forall i | 0 <= i < |q|
      ensures InRange(s.req[q[i]])
    {
      QueuedIsPending(s, h, q[i]);
    }
    forall i, j | 0 <= i < j < |q|
      ensures KeyOf(s.req[q[i]]) != KeyOf(s.req[q[j]])
    {
      DifferentKeys(s, h, q[i], q[j]);
    }
  }

  /** One turn of add_request's loop: the comparison of requests decides as Place does on keys. */
  lemma PlaceTurn(s: State, h: nat, i: nat, r: Request)
    requires Inv(s) && h < NR_BLK_DEV && i < |s.qs[h]| && InRange(r)
    requires Chain(s.req, s.qs[h], s.heads[h]) && KeyOf(r) !in Keys(s.req, s.qs[h])
    ensures s.req[s.qs[h][i]].next == NextIn(s.qs[h], i)
    ensures i + 1 < |s.qs[h]| ==>
              var ks, a, b := Keys(s.req, s.qs[h]), s.req[s.qs[h][i]], s.req[s.qs[h][i + 1]];
              Place(ks, KeyOf(r), i) == if (InOrder(a, r) || !InOrder(a, b))
                  && InOrder(r, b) then i else Place(ks, KeyOf(r), i + 1)
  {
    QueueKeysDistinct(s, h);
    var ks, q := Keys(s.req, s.qs[h]), s.qs[h];
    assert ks[i] in ks;
    if i + 1 < |q| {
      var a, b := s.req[q[i]], s.req[q[i + 1]];
      assert ks[i + 1] in ks && KeyOf(a) != KeyOf(b);
      hide Inv, Chain, Keys, Place;
      InOrderIsKeyOrder(a, r);
      InOrderIsKeyOrder(a, b);
      InOrderIsKeyOrder(r, b);
    }
  }

  lemma NullMeansEmpty(s: State, h: nat)
    requires Inv(s) && h < NR_BLK_DEV
    ensures s.heads[h] == NULL <==> s.qs[h] == []
    ensures s.qs[h] != [] ==> s.qs[h][0] < NR_REQUEST
  {
    assert Chain(s.req, s.qs[h], s.heads[h]);
  }

  /** Splicing in a slot that already holds its request. */
  lemma SpliceFilled(req: seq<Request>, tmp: nat, k: nat, r: Request)
    requires tmp < |req| && k < |req| && tmp != k
    ensures Splice(req[k := r], tmp, k, r) == Splice(req, tmp, k, r)
  {
  }

  /** Enqueue written out. */
  lemma EnqueueIs(s: State, k: nat, b: nat, rw: nat, h: nat)
    requires CanEnqueue(s, k, b, rw) && h == QueueOf(s, b) && Chain(s.req, s.qs[h], s.heads[h])
    ensures var t := s.(bufs := s.bufs[b := s.bufs[b].(dirt := false)], slotOf := s.slotOf[b := k]);
            Enqueue(s, k, b, rw) == if s.qs[h] == []
              then t.(req := s.req[k := NewRequest(s, b, rw)], heads := s.heads[h := k], qs := s.qs[h := [k]])
              else
                var p := Place(Keys(s.req, s.qs[h]), KeyOf(NewRequest(s, b, rw)), 0);
                t.(req := Splice(s.req, s.qs[h][p], k, NewRequest(s, b, rw)),
                    qs := s.qs[h := InsertAfter(s.qs[h], p, k)])
  {
  }

  // ---------- what the steps do to the keys of queue g ----------

  ghost function KeysAt(s: State, g: nat): seq<int>
    requires Inv(s) && g < NR_BLK_DEV
  {
    assert Chain(s.req, s.qs[g], s.heads[g]);
    Keys(s.req, s.qs[g])
  }

  lemma SameKeys(s: State, t: State, g: nat)
    requires Inv(s) && Inv(t) && g < NR_BLK_DEV && t.qs[g] == s.qs[g]
    requires forall k :: k in s.qs[g] && k < NR_REQUEST ==> KeyOf(t.req[k]) == KeyOf(s.req[k])
    ensures KeysAt(t, g) == KeysAt(s, g)
  {
    assert Chain(s.req, s.qs[g], s.heads[g]);
    hide Inv, KeyOf;
    forall i | 0 <= i < |s.qs[g]|
      ensures KeyOf(t.req[s.qs[g][i]]) == KeyOf(s.req[s.qs[g][i]])
    {
      assert s.qs[g][i] in s.qs[g];
    }
  }

  lemma EnqueueKeys(s: State, k: nat, b: nat, rw: nat, g: nat)
    requires CanEnqueue(s, k, b, rw) && g < NR_BLK_DEV && Inv(Enqueue(s, k, b, rw))
    ensures KeyOf(NewRequest(s, b, rw)) !in KeysAt(s, g)
    ensures KeysAt(Enqueue(s, k, b, rw), g)
         == if g == QueueOf(s, b) then Insert(KeysAt(s, g), KeyOf(NewRequest(s, b, rw))) else KeysAt(s, g)
  {
    var t, h := Enqueue(s, k, b, rw), QueueOf(s, b);
    NewKeyNotQueued(s, k, b, rw, g);
    EnqueueShape(s, t, k, b, rw, h);
    if g != h {
      FreeSlotOffQueue(s, k, g);
      forall l | l in s.qs[g] && l < NR_REQUEST
        ensures KeyOf(t.req[l]) == KeyOf(s.req[l])
      {
        KeyIgnoresLink(s.req[l], t.req[l]);
      }
      hide Enqueue, KeyOf, Chain;
      SameKeys(s, t, g);
    }
  }

  lemma SectorKeys(s: State, h: nat, g: nat)
    requires CanFinish(s, h) && PendingOk(s, s.heads[h]) && s.req[s.heads[h]].nrSectors == 2
    requires g < NR_BLK_DEV && Inv(Sector(s, h))
    ensures KeysAt(Sector(s, h), g) == KeysAt(s, g)
  {
    hide PendingOk, Chained, Members, Pending, Owned, Identities, Swept, KeyOf;
    var t := Sector(s, h);
    SectorPending(s, t, s.heads[h]);
    SameKeys(s, t, g);
  }

  lemma MissedKeys(s: State, h: nat, g: nat)
    requires CanFinish(s, h) && PendingOk(s, s.heads[h]) && g < NR_BLK_DEV && Inv(Missed(s, h))
    ensures KeysAt(Missed(s, h), g) == KeysAt(s, g)
  {
    hide PendingOk, Chained, Members, Pending, Owned, Identities, Swept, KeyOf;
    ErrorsKey(s.req[s.heads[h]], Missed(s, h).req[s.heads[h]]);
    SameKeys(s, Missed(s, h), g);
  }

  lemma FinishKeys(s: State, h: nat, ok: bool, g: nat)
    requires CanFinish(s, h) && g < NR_BLK_DEV && Inv(Finish(s, h, ok))
    ensures KeysAt(s, h) != []
    ensures KeysAt(Finish(s, h, ok), g) == if g == h then KeysAt(s, h)[1..] else KeysAt(s, g)
  {
    hide Pending, Owned, Identities, Swept, KeyOf;
    var t, k := Finish(s, h, ok), s.heads[h];
    assert Chain(s.req, s.qs[h], s.heads[h]);
    if g == h {
      PopChain(s.req, t.req, s.qs[h], k);
      hide Inv;
    } else {
      assert k !in s.qs[g] by {
        assert k in s.qs[h];
        assert OnQueue(s, h, k);
        assert k in s.qs[g] ==> OnQueue(s, g, k);
      }
      SameKeys(s, t, g);
    }
  }
}
