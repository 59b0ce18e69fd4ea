/** The elevator of drivers/block/hardisk/ll_rw_blk.c on the keys of one device queue. Keys are integers that order as
    IN_ORDER does; the head is the request in service. */
module Elevator {

  /** Elements lo..hi-1 ascend strictly. */
  ghost predicate Ascending(q: seq<int>, lo: nat, hi: nat) {
    hi <= |q| && forall i, j :: lo <= i && j == i + 1 && j < hi ==> q[i] < q[j]
  }

  lemma {:induction false} AscendingIsSorted(q: seq<int>, lo: nat, hi: nat, i: nat, j: nat)
    requires Ascending(q, lo, hi) && lo <= i < j < hi
    ensures q[i] < q[j]
  {
    if i + 1 < j {
      AscendingIsSorted(q, lo, hi, i, j - 1);
    }
    assert j - 1 >= lo && q[j - 1] < q[j];
  }

  ghost predicate DistinctKeys(q: seq<int>) {
    forall i, k :: 0 <= i < k < |q| ==> q[i] != q[k]
  }

  /** q is two ascending runs: its first d keys, the sweep under way, and the rest, the next sweep. */
  ghost predicate Split(q: seq<int>, d: nat) {
    && d <= |q| && (|q| > 0 ==> d > 0)
    && Ascending(q, 0, d) && Ascending(q, d, |q|)
    && (0 < d < |q| ==> q[d - 1] > q[d])
  }

  ghost predicate TwoRuns(q: seq<int>) {
    exists d :: 0 <= d <= |q| && Split(q, d)
  }

  /** The element after which the loop of add_request inserts r, searching from element i. */
  function Place(q: seq<int>, r: int, i: nat): (p: nat)
    requires i < |q|
    ensures i <= p < |q|
    decreases |q| - i
  {
    if i + 1 == |q| then i
    else if (q[i] < r || !(q[i] < q[i + 1])) && r < q[i + 1] then i
    else Place(q, r, i + 1)
  }

  lemma PlaceAtEnd(q: seq<int>, r: int, i: nat)
    requires i + 1 == |q|
    ensures Place(q, r, i) == i
  {
  }

  function InsertAfter<T>(q: seq<T>, p: nat, r: T): (t: seq<T>)
    requires p < |q|
    ensures |t| == |q| + 1
  {
    q[..p + 1] + [r] + q[p + 1..]
  }

  function Insert(q: seq<int>, r: int): seq<int> {
    if q == [] then [r] else InsertAfter(q, Place(q, r, 0), r)
  }

  /** Where a key goes: between the ends of the sweep under way, to its sorted place there; otherwise to its sorted
      place in the next sweep, or, when there is none, to the end of the queue. */
  ghost predicate Placed(q: seq<int>, d: nat, r: int, p: nat)
    requires 0 < d <= |q| && p < |q|
  {
    if q[0] < r < q[d - 1] then p + 1 < d && q[p] < r < q[p + 1]
    else d - 1 <= p && (p >= d ==> q[p] < r) && (p + 1 < |q| ==> r < q[p + 1])
  }

  lemma {:induction false} PlaceIsPlaced(q: seq<int>, d: nat, r: int, i: nat)
    requires Split(q, d) && r !in q && i < |q|
    requires if q[0] < r < q[d - 1] then i < d && q[i] < r else i < d || q[i] < r
    ensures Placed(q, d, r, Place(q, r, i))
    decreases |q| - i
  {
    assert q[i] in q;
    if i + 1 < |q| {
      assert q[i + 1] in q;
      if !((q[i] < r || !(q[i] < q[i + 1])) && r < q[i + 1]) {
        PlaceIsPlaced(q, d, r, i + 1);
      } else if i + 1 < d {
        if i > 0 { AscendingIsSorted(q, 0, d, 0, i); }
        if i + 1 < d - 1 { AscendingIsSorted(q, 0, d, i + 1, d - 1); }
      }
    }
  }

  /** The length of the sweep under way after an insertion. */
  function SweepAfterInsert(q: seq<int>, d: nat, r: int): nat
    requires 0 < d <= |q|
  {
    if q[0] < r < q[d - 1] || (d == |q| && q[d - 1] < r) then d + 1 else d
  }

  lemma InsertAt<T>(q: seq<T>, p: nat, r: T)
    requires p < |q|
    ensures |InsertAfter(q, p, r)| == |q| + 1
    ensures forall k :: 0 <= k <= |q| ==>
        InsertAfter(q, p, r)[k] == if k <= p then q[k] else if k == p + 1 then r else q[k - 1]
  {
  }

  lemma PlacedKeepsRuns(q: seq<int>, d: nat, r: int, p: nat)
    requires Split(q, d) && r !in q && |q| > 0 && p < |q| && Placed(q, d, r, p)
    ensures Split(InsertAfter(q, p, r), SweepAfterInsert(q, d, r))
  {
    assert q[0] in q && q[d - 1] in q;
    InsertAt(q, p, r);
    var t, e := InsertAfter(q, p, r), SweepAfterInsert(q, d, r);
    hide InsertAfter;
    forall i, j | 0 <= i && j == i + 1 && j < |t| && j != e
      ensures t[i] < t[j]
    {
      if i < p { assert q[i] < q[j]; }
      if i > p + 1 { assert q[i - 1] < q[j - 1]; }
    }
  }

  /** Insertion keeps two runs. */
  lemma InsertKeepsRuns(q: seq<int>, d: nat, r: int)
    requires Split(q, d) && r !in q && |q| > 0
    ensures Split(Insert(q, r), SweepAfterInsert(q, d, r))
    ensures Placed(q, d, r, Place(q, r, 0))
  {
    assert q[0] in q && q[d - 1] in q;
    PlaceIsPlaced(q, d, r, 0);
    hide Split, Placed;
    PlacedKeepsRuns(q, d, r, Place(q, r, 0));
  }

  lemma InsertTwoRuns(q: seq<int>, r: int)
    requires TwoRuns(q) && r !in q
    ensures TwoRuns(Insert(q, r))
  {
    if q == [] {
      assert Split([r], 1);
    } else {
      var d :| 0 <= d <= |q| && Split(q, d);
      InsertKeepsRuns(q, d, r);
    }
  }

  function SweepAfterPop(q: seq<int>, d: nat): nat
    requires 0 < d <= |q|
  {
    if d > 1 then d - 1 else |q| - 1
  }

  /** Completing the head keeps two runs; after the last key of a sweep the next sweep is the one under way. */
  lemma PopKeepsRuns(q: seq<int>, d: nat)
    requires Split(q, d) && |q| > 0
    ensures Split(q[1..], SweepAfterPop(q, d))
  {
  }

  lemma PopTwoRuns(q: seq<int>)
    requires TwoRuns(q) && q != []
    ensures TwoRuns(q[1..])
  {
    var d :| 0 <= d <= |q| && Split(q, d);
    PopKeepsRuns(q, d);
  }

  // ---------- no starvation ----------

  function One(b: bool): nat { if b then 1 else 0 }

  /** How often key u can still be served before the key at position j: once if u lies between the head and it, or, for
      a key of the next sweep, once in the sweep under way and once before it in the next. */
  function Overtakes(q: seq<int>, d: nat, j: nat, u: int): (n: nat)
    requires 0 < d <= |q| && j < |q|
    ensures n <= 2
  {
    if j < d then One(q[0] <= u < q[j]) else One(q[0] <= u <= q[d - 1]) + One(u < q[j])
  }

  /** Position j after an insertion. */
  function Moved(q: seq<int>, r: int, j: nat): nat
    requires |q| > 0
  {
    if Place(q, r, 0) < j then j + 1 else j
  }

  /** Where an insertion leaves the head, the end of the sweep and position j. */
  lemma InsertPositions(q: seq<int>, d: nat, j: nat, r: int)
    requires 0 < d <= |q| && j < |q| && Placed(q, d, r, Place(q, r, 0)) && (j >= d ==> d < |q|)
    ensures var t, e, k := Insert(q, r), SweepAfterInsert(q, d, r), Moved(q, r, j);
            && e <= |t| && k < |t| && t[0] == q[0] && t[k] == q[j]
            && if j < d then k < e else e <= k && t[e - 1] == q[d - 1]
  {
    var p := Place(q, r, 0);
    InsertAt(q, p, r);
    hide Place, InsertAfter;
  }

  /** An insertion never raises what can still overtake a queued key, even when it goes in front of it. */
  lemma InsertKeepsOvertakes(q: seq<int>, d: nat, j: nat, r: int, u: int)
    requires Split(q, d) && r !in q && j < |q|
    ensures var t, e, k := Insert(q, r), SweepAfterInsert(q, d, r), Moved(q, r, j);
            0 < e <= |t| && k < |t| && t[k] == q[j] && Overtakes(t, e, k, u) == Overtakes(q, d, j, u)
  {
    InsertKeepsRuns(q, d, r);
    InsertPositions(q, d, j, r);
    hide Split, Place, Placed, Insert, Moved;
  }

  /** A completion uses up one of the completed key's turns. */
  lemma PopUsesTurn(q: seq<int>, d: nat, j: nat, u: int)
    requires Split(q, d) && 0 < j < |q|
    ensures 0 < SweepAfterPop(q, d) <= |q[1..]|
    ensures Overtakes(q[1..], SweepAfterPop(q, d), j - 1, u) + One(u == q[0]) <= Overtakes(q, d, j, u)
  {
    if d > 1 { AscendingIsSorted(q, 0, d, 0, if j < d then j else d - 1); }
  }

  /** What happens to a queue: a key arrives, or the head completes. */
  datatype Event = Arrive(key: int) | Complete

  function After(q: seq<int>, ev: Event): seq<int> {
    match ev
    case Arrive(r) => Insert(q, r)
    case Complete => if q == [] then [] else q[1..]
  }

  /** A run during which key t stays queued: arriving keys are new, and t does not complete. */
  ghost predicate Waiting(q: seq<int>, evs: seq<Event>, t: int)
    decreases |evs|
  {
    t in q && (evs == [] ||
      ((match evs[0] case Arrive(r) => r !in q case Complete => q[0] != t) && Waiting(After(q, evs[0]), evs[1..], t)))
  }

  /** How many of the completions in a run are of key u. */
  function Served(q: seq<int>, evs: seq<Event>, u: int): nat
    decreases |evs|
  {
    if evs == [] then 0
    else One(evs[0].Complete? && q != [] && q[0] == u) + Served(After(q, evs[0]), evs[1..], u)
  }

  lemma InsertDistinct(q: seq<int>, p: nat, r: int)
    requires p < |q| && r !in q && DistinctKeys(q)
    ensures DistinctKeys(InsertAfter(q, p, r))
  {
    InsertAt(q, p, r);
    assert forall k :: 0 <= k < |q| ==> q[k] in q;
  }

  /** One event of such a run: where the waiting key and the end of the sweep go, and what it costs. */
  lemma WaitOneEvent(q: seq<int>, d: nat, j: nat, ev: Event, u: int) returns (e: nat, k: nat)
    requires Split(q, d) && j < |q| && DistinctKeys(q)
    requires match ev case Arrive(r) => r !in q case Complete => q[0] != q[j]
    ensures Split(After(q, ev), e) && DistinctKeys(After(q, ev)) && k < |After(q, ev)| && After(q, ev)[k] == q[j]
    ensures Overtakes(After(q, ev), e, k, u) + One(ev.Complete? && q[0] == u) <= Overtakes(q, d, j, u)
  {
    match ev
    case Arrive(r) =>
      e, k := SweepAfterInsert(q, d, r), Moved(q, r, j);
      hide Split, Overtakes, Place, InsertAfter;
      InsertKeepsRuns(q, d, r);
      InsertKeepsOvertakes(q, d, j, r, u);
      InsertDistinct(q, Place(q, r, 0), r);
    case Complete =>
      assert j > 0;
      e, k := SweepAfterPop(q, d), j - 1;
      PopKeepsRuns(q, d);
      PopUsesTurn(q, d, j, u);
  }

  /** No key is served more often before a waiting key than Overtakes allows, hence never more than twice, whatever
      arrives in the meantime. */
  lemma {:induction false} OvertakenAtMostTwice(q: seq<int>, d: nat, j: nat, evs: seq<Event>, u: int)
    requires Split(q, d) && j < |q| && Waiting(q, evs, q[j]) && DistinctKeys(q)
    ensures Served(q, evs, u) <= Overtakes(q, d, j, u) <= 2
    decreases |evs|
  {
    if evs != [] {
      var e, k := WaitOneEvent(q, d, j, evs[0], u);
      OvertakenAtMostTwice(After(q, evs[0]), e, k, evs[1..], u);
    }
  }

  /** All completions of keys of U in a run. */
  function ServedOf(q: seq<int>, evs: seq<Event>, us: seq<int>): nat {
    if us == [] then 0 else Served(q, evs, us[0]) + ServedOf(q, evs, us[1..])
  }

  /** The turns of keys of U that can still come before position j: the elevator's ranking measure. */
  function RankOf(q: seq<int>, d: nat, j: nat, us: seq<int>): (n: nat)
    requires 0 < d <= |q| && j < |q|
    ensures n <= 2 * |us|
  {
    if us == [] then 0 else Overtakes(q, d, j, us[0]) + RankOf(q, d, j, us[1..])
  }

  lemma {:induction false} ServedWithinRank(q: seq<int>, d: nat, j: nat, evs: seq<Event>, us: seq<int>)
    requires Split(q, d) && j < |q| && Waiting(q, evs, q[j]) && DistinctKeys(q)
    ensures ServedOf(q, evs, us) <= RankOf(q, d, j, us)
  {
    if us != [] {
      OvertakenAtMostTwice(q, d, j, evs, us[0]);
      ServedWithinRank(q, d, j, evs, us[1..]);
    }
  }

  /** All completions of a run. */
  function Completions(q: seq<int>, evs: seq<Event>): nat
    decreases |evs|
  {
    if evs == [] then 0 else One(evs[0].Complete? && q != []) + Completions(After(q, evs[0]), evs[1..])
  }

  /** Every key queued or arriving in a run is one of us. */
  ghost predicate KeysOf(q: seq<int>, evs: seq<Event>, us: seq<int>) {
    (forall k :: 0 <= k < |q| ==> q[k] in us) && (forall i :: 0 <= i < |evs| && evs[i].Arrive? ==> evs[i].key in us)
  }

  lemma {:induction false} ServedStep(q: seq<int>, evs: seq<Event>, us: seq<int>)
    requires evs != []
    ensures ServedOf(q, evs, us)
         >= One(evs[0].Complete? && q != [] && q[0] in us) + ServedOf(After(q, evs[0]), evs[1..], us)
  {
    if us != [] {
      ServedStep(q, evs, us[1..]);
    }
  }

  lemma {:induction false} EveryCompletionIsServed(q: seq<int>, evs: seq<Event>, us: seq<int>)
    requires KeysOf(q, evs, us)
    ensures Completions(q, evs) <= ServedOf(q, evs, us)
    decreases |evs|
  {
    if evs != [] {
      ServedStep(q, evs, us);
      var t := After(q, evs[0]);
      forall k | 0 <= k < |t|
        ensures t[k] in us
      {
        if evs[0].Arrive? && q != [] {
          InsertAt(q, Place(q, evs[0].key, 0), evs[0].key);
        }
      }
      EveryCompletionIsServed(t, evs[1..], us);
    }
  }

  /** No starvation: in any run during which a key waits, at most RankOf completions happen, so at most two for each key
      that can occur; a queue that keeps completing reaches the key. */
  lemma BoundedWaiting(q: seq<int>, d: nat, j: nat, evs: seq<Event>, us: seq<int>)
    requires Split(q, d) && j < |q| && Waiting(q, evs, q[j]) && DistinctKeys(q) && KeysOf(q, evs, us)
    ensures Completions(q, evs) <= RankOf(q, d, j, us) <= 2 * |us|
  {
    EveryCompletionIsServed(q, evs, us);
    ServedWithinRank(q, d, j, evs, us);
  }

  function AfterAll(q: seq<int>, evs: seq<Event>): seq<int>
    decreases |evs|
  {
    if evs == [] then q else AfterAll(After(q, evs[0]), evs[1..])
  }

  /** Arriving keys are new, and only a non-empty queue completes. */
  ghost predicate Legal(q: seq<int>, evs: seq<Event>)
    decreases |evs|
  {
    evs == [] || ((match evs[0] case Arrive(r) => r !in q case Complete => q != [])
        && Legal(After(q, evs[0]), evs[1..]))
  }

  lemma {:induction false} LegalExtends(q: seq<int>, evs: seq<Event>, more: seq<Event>)
    requires Legal(q, evs) && Legal(AfterAll(q, evs), more)
    ensures Legal(q, evs + more) && AfterAll(q, evs + more) == AfterAll(AfterAll(q, evs), more)
    decreases |evs|
  {
    if evs == [] {
      assert evs + more == more;
    } else {
      assert (evs + more)[1..] == evs[1..] + more;
      LegalExtends(After(q, evs[0]), evs[1..], more);
    }
  }

  /** A queued key that is not served in a legal run waits through all of it. */
  lemma {:induction false} UnservedWaits(q: seq<int>, evs: seq<Event>, t: int)
    requires Legal(q, evs) && t in q && Served(q, evs, t) == 0
    ensures Waiting(q, evs, t)
    decreases |evs|
  {
    if evs != [] {
      var r := After(q, evs[0]);
      assert t in r by {
        match evs[0]
        case Arrive(k) =>
          var i :| 0 <= i < |q| && q[i] == t;
          var p := Place(q, k, 0);
          InsertAt(q, p, k);
          assert r[if i <= p then i else i + 1] == t;
        case Complete =>
          var i :| 0 <= i < |q| && q[i] == t;
          assert r[i - 1] == t;
      }
      UnservedWaits(r, evs[1..], t);
    }
  }

  /** In any legal run with more completions than the rank of a queued key, that key is served. */
  lemma ServedInTime(q: seq<int>, d: nat, j: nat, evs: seq<Event>, us: seq<int>)
    requires Split(q, d) && j < |q| && Legal(q, evs) && DistinctKeys(q) && KeysOf(q, evs, us)
    requires Completions(q, evs) > RankOf(q, d, j, us)
    ensures Served(q, evs, q[j]) > 0
  {
    if Served(q, evs, q[j]) == 0 {
      UnservedWaits(q, evs, q[j]);
      BoundedWaiting(q, d, j, evs, us);
    }
  }
}
