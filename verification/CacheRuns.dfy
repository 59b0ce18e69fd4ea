/** Lookups in the buffer cache with other tasks running at every sleep, on what the headers say besides their links. */
module CacheRuns {
  import opened BufferLists

  /** What other tasks and interrupts do while a task sleeps: take or drop a reference, start or finish I/O, or complete
      a getblk of their own. */
  datatype Action = Take(k: nat) | Release(k: nat) | Io(k: nat, lock: bool, uptodate: bool, dirt: bool)
    | Rekey(k: nat, dev: nat, block: nat)

  type Sleep = seq<Action>

  /** Headers without their links, and the order of the free list. */
  datatype Store = Store(heads: seq<Head>, order: seq<nat>)

  function Bare(h: Head): Head {
    h.(next := NULL, prev := NULL, nextFree := NULL, prevFree := NULL)
  }

  ghost function Bares(s: seq<Head>): (t: seq<Head>)
    ensures |t| == |s| && forall k :: 0 <= k < |s| ==> t[k] == Bare(s[k])
  {
    seq(|s|, k requires 0 <= k < |s| => Bare(s[k]))
  }

  /** BADNESS: dirty counts two, locked counts one. */
  function Badness(h: Head): nat {
    (if h.dirt then 2 else 0) + if h.lock then 1 else 0
  }

  /** Element j of the free list is the first unreferenced header of least badness. */
  ghost predicate IsVictim(s: seq<Head>, o: seq<nat>, j: nat) {
    && j < |o| && o[j] < |s| && s[o[j]].count == 0
    && (forall i :: 0 <= i < |o| && o[i] < |s| && s[o[i]].count == 0 ==>
          if i < j then Badness(s[o[i]]) > Badness(s[o[j]]) else Badness(s[o[i]]) >= Badness(s[o[j]]))
  }

  ghost predicate Cached(s: seq<Head>, dev: nat, block: nat) {
    exists k :: 0 <= k < |s| && Carries(s[k], dev, block)
  }

  ghost predicate AllReferenced(s: seq<Head>) {
    forall k :: 0 <= k < |s| ==> s[k].count > 0
  }

  /** The header that carries an identity, or NULL. */
  ghost function Holder(s: seq<Head>, dev: nat, block: nat): (k: int)
    ensures k == NULL <==> !Cached(s, dev, block)
    ensures k != NULL ==> 0 <= k < |s| && Carries(s[k], dev, block)
  {
    if Cached(s, dev, block) then
      var k :| 0 <= k < |s| && Carries(s[k], dev, block);
      k
    else NULL
  }

  /** The header getblk would give a new identity, or NULL. */
  ghost function Victim(st: Store): (k: int)
    ensures k != NULL ==> 0 <= k < |st.heads| && st.heads[k].count == 0
  {
    if j: nat :| IsVictim(st.heads, st.order, j) then st.order[j] else NULL
  }

  lemma VictimIs(st: Store, j: nat)
    requires IsVictim(st.heads, st.order, j) && Distinct(st.order)
    ensures Victim(st) == st.order[j]
  {
  }

  ghost function Touched(st: Store, k: nat, count: nat, lock: bool, uptodate: bool, dirt: bool): (r: Store)
    requires k < |st.heads|
    ensures |r.heads| == |st.heads|
  {
    st.(heads := st.heads[k := st.heads[k].(count := count, lock := lock, uptodate := uptodate, dirt := dirt)])
  }

  ghost function Counted(st: Store, k: nat, count: nat): (r: Store)
    requires k < |st.heads|
    ensures |r.heads| == |st.heads|
  {
    Touched(st, k, count, st.heads[k].lock, st.heads[k].uptodate, st.heads[k].dirt)
  }

  /** The last step of getblk on header k. */
  ghost function Renamed(st: Store, k: nat, dev: nat, block: nat): (r: Store)
    requires k < |st.heads|
    ensures |r.heads| == |st.heads|
  {
    Store(st.heads[k := st.heads[k].(dev := dev, blocknr := block, count := 1, dirt := false, uptodate := false)],
        Without(st.order, k) + [k])
  }

  // ---------- sleeping ----------

  /** One action of somebody else; the sleeping task holds buffer `own`. */
  ghost function Performed(st: Store, a: Action, own: int): (r: Store)
    ensures |r.heads| == |st.heads|
  {
    match a
    case Take(k) => if k < |st.heads| && st.heads[k].count < 255 then Counted(st, k, st.heads[k].count + 1) else st
    case Release(k) =>
      if k < |st.heads| && st.heads[k].count > (if k == own then 1 else 0) then Counted(st, k, st.heads[k].count - 1)
      else st
    case Io(k, lock, uptodate, dirt) =>
      if k < |st.heads| then Touched(st, k, st.heads[k].count, lock, uptodate, dirt) else st
    case Rekey(k, dev, block) =>
      if k < |st.heads| && st.heads[k].count == 0 && !st.heads[k].lock && !Cached(st.heads, dev, block) then
        Renamed(st, k, dev, block)
      else st
  }

  ghost function Slept(st: Store, acts: Sleep, own: int): (r: Store)
    ensures |r.heads| == |st.heads|
  {
    if acts == [] then st else Performed(Slept(st, acts[..|acts| - 1], own), acts[|acts| - 1], own)
  }

  /** After the first n sleeps. */
  ghost function SleptOn(st: Store, env: seq<Sleep>, n: nat, own: int): (r: Store)
    requires n <= |env|
    ensures |r.heads| == |st.heads|
    decreases n
  {
    if n == 0 then st else SleptOn(Slept(st, env[0], own), env[1..], n - 1, own)
  }

  /** wait_on_buffer: the state after it, whether it returned, and the sleeps not used. */
  ghost function Waited(st: Store, b: nat, env: seq<Sleep>, own: int): (r: (Store, bool, seq<Sleep>))
    requires b < |st.heads|
    ensures |r.0.heads| == |st.heads| && |r.2| <= |env| && (r.1 <==> !r.0.heads[b].lock) && (!r.1 ==> r.2 == [])
    ensures r.1 && |r.2| == |env| ==> r.0 == st
    decreases |env|
  {
    if !st.heads[b].lock then (st, true, env)
    else if env == [] then (st, false, [])
    else Waited(Slept(st, env[0], own), b, env[1..], own)
  }

  /** Header b is unlocked at first or after one of the sleeps. */
  ghost predicate EverUnlocked(st: Store, b: nat, env: seq<Sleep>, own: int)
    requires b < |st.heads|
  {
    exists n :: 0 <= n <= |env| && !SleptOn(st, env, n, own).heads[b].lock
  }

  /** A wait ends with the first sleep after which the buffer is unlocked, and only with one. */
  lemma {:induction false} WaitedIff(st: Store, b: nat, env: seq<Sleep>, own: int)
    requires b < |st.heads|
    ensures var (u, ok, rest) := Waited(st, b, env, own);
            && (ok <==> EverUnlocked(st, b, env, own))
            && u == SleptOn(st, env, |env| - |rest|, own) && rest == env[|env| - |rest|..]
            && (forall n :: 0 <= n < |env| - |rest| ==> SleptOn(st, env, n, own).heads[b].lock)
    decreases |env|
  {
    if st.heads[b].lock && env != [] {
      var t := Slept(st, env[0], own);
      WaitedIff(t, b, env[1..], own);
      var (u, ok, rest) := Waited(t, b, env[1..], own);
      forall n | 0 < n <= |env|
        ensures SleptOn(st, env, n, own) == SleptOn(t, env[1..], n - 1, own)
      {
      }
      if n :| 0 <= n <= |env[1..]| && !SleptOn(t, env[1..], n, own).heads[b].lock {
        assert !SleptOn(st, env, n + 1, own).heads[b].lock;
      }
      if n :| 0 <= n <= |env| && !SleptOn(st, env, n, own).heads[b].lock {
        assert !SleptOn(t, env[1..], n - 1, own).heads[b].lock;
      }
    } else {
      assert SleptOn(st, env, 0, own) == st;
      assert |env| == 0 || !st.heads[b].lock;
    }
  }

  // ---------- the three calls ----------

  /** Where a call got: `awake` says that it returned, otherwise it sleeps for buffer r, or for any buffer if r is NULL;
      `was` is the count of the buffer it found when it last looked it up. */
  datatype Outcome = Outcome(st: Store, awake: bool, hit: bool, r: int, was: nat, rest: seq<Sleep>)

  /** get_hash_table. */
  ghost function Looked(st: Store, dev: nat, block: nat, env: seq<Sleep>): (l: Outcome)
    ensures |l.st.heads| == |st.heads| && |l.rest| <= |env| && NULL <= l.r < |st.heads|
    ensures l.awake && l.r == NULL ==> !Cached(l.st.heads, dev, block)
    ensures l.awake && l.r == NULL && |l.rest| == |env| ==> l.st == st
    ensures !l.awake ==> l.r != NULL && l.st.heads[l.r].lock && l.rest == []
    ensures l.hit <==> l.awake && l.r != NULL
    decreases |env|
  {
    var r := Holder(st.heads, dev, block);
    if r == NULL then Outcome(st, true, false, NULL, 0, env)
    else
      var was := st.heads[r].count;
      var (u, ok, rest) := Waited(Counted(st, r, (was + 1) % 256), r, env, r);
      if !ok then Outcome(u, false, false, r, was, [])
      else if u.heads[r].dev == dev && u.heads[r].blocknr == block then Outcome(u, true, true, r, was, rest)
      else Looked(Counted(u, r, (u.heads[r].count + 255) % 256), dev, block, rest)
  }

  /** getblk. */
  ghost function Got(st: Store, dev: nat, block: nat, env: seq<Sleep>): (g: Outcome)
    ensures |g.st.heads| == |st.heads| && |g.rest| <= |env| && NULL <= g.r < |st.heads|
    ensures !g.awake ==> g.rest == [] && if g.r == NULL then Victim(g.st) == NULL else g.st.heads[g.r].lock
    decreases |env|
  {
    var l := Looked(st, dev, block, env);
    if !l.awake || l.r != NULL then l
    else
      var b := Victim(l.st);
      if b == NULL then
        if l.rest == [] then l.(awake := false) else Got(Slept(l.st, l.rest[0], NULL), dev, block, l.rest[1..])
      else
        var (u, ok, rest) := Waited(l.st, b, l.rest, NULL);
        if !ok then Outcome(u, false, false, b, 0, [])
        else if u.heads[b].count > 0 || Cached(u.heads, dev, block) then Got(u, dev, block, rest)
        else Outcome(Renamed(u, b, dev, block), true, false, b, 0, rest)
  }

  /** brelse on a buffer; `hit` says that there was a reference to drop, without which it panics. */
  ghost function Dropped(st: Store, b: nat, env: seq<Sleep>): Outcome
    requires b < |st.heads|
  {
    var (u, ok, rest) := Waited(st, b, env, b);
    if !ok then Outcome(u, false, false, b, 0, rest)
    else
      var c := u.heads[b].count;
      Outcome(Counted(u, b, (c + 255) % 256), true, c > 0, b, c, rest)
  }

  /** One turn of get_hash_table's loop. */
  lemma LookedTurn(st: Store, dev: nat, block: nat, env: seq<Sleep>)
    ensures var k := Holder(st.heads, dev, block);
            && (k == NULL ==> Looked(st, dev, block, env) == Outcome(st, true, false, NULL, 0, env))
            && (k != NULL ==>
                  var was := st.heads[k].count;
                  var (u, ok, rest) := Waited(Counted(st, k, (was + 1) % 256), k, env, k);
                  Looked(st, dev, block, env)
                  == if !ok then Outcome(u, false, false, k, was, [])
                     else if u.heads[k].dev == dev
                         && u.heads[k].blocknr == block then Outcome(u, true, true, k, was, rest)
                     else Looked(Counted(u, k, (u.heads[k].count + 255) % 256), dev, block, rest))
  {
  }

  /** One turn of getblk's. */
  lemma GotTurn(st: Store, dev: nat, block: nat, env: seq<Sleep>)
    ensures var l := Looked(st, dev, block, env);
            && (!l.awake || l.r != NULL ==> Got(st, dev, block, env) == l)
            && (l.awake && l.r == NULL ==>
                  var b := Victim(l.st);
                  Got(st, dev, block, env)
                  == if b == NULL then
                       if l.rest == [] then l.(awake := false)
                       else Got(Slept(l.st, l.rest[0], NULL), dev, block, l.rest[1..])
                     else
                       var (u, ok, rest) := Waited(l.st, b, l.rest, NULL);
                       if !ok then Outcome(u, false, false, b, 0, [])
                       else if u.heads[b].count > 0 || Cached(u.heads, dev, block) then Got(u, dev, block, rest)
                       else Outcome(Renamed(u, b, dev, block), true, false, b, 0, rest))
  {
  }

  /** No sleep is needed: the block is cached and its buffer unlocked, or it is not and there is an unlocked victim. */
  ghost predicate AtOnce(st: Store, dev: nat, block: nat) {
    var k := Holder(st.heads, dev, block);
    var b := if k == NULL then Victim(st) else k;
    b != NULL && !st.heads[b].lock
  }

  lemma LookedAtOnceIff(st: Store, dev: nat, block: nat, env: seq<Sleep>)
    ensures var l, k := Looked(st, dev, block, env), Holder(st.heads, dev, block);
            l.awake && |l.rest| == |env| <==> k == NULL || !st.heads[k].lock
  {
  }

  /** getblk returns without a sleep if and only if none is needed. */
  lemma GotAtOnceIff(st: Store, dev: nat, block: nat, env: seq<Sleep>)
    ensures var g := Got(st, dev, block, env); g.awake && |g.rest| == |env| <==> AtOnce(st, dev, block)
  {
    LookedAtOnceIff(st, dev, block, env);
  }

  /** The free list holds every header once. */
  ghost predicate Listed(st: Store) {
    && Distinct(st.order) && (forall i :: 0 <= i < |st.order| ==> st.order[i] < |st.heads|)
    && (forall k :: 0 <= k < |st.heads| ==> k in st.order)
  }

  /** Some unreferenced buffer has these flags. */
  ghost predicate SomeIdle(s: seq<Head>, dirt: bool, lock: bool) {
    exists k :: 0 <= k < |s| && s[k].count == 0 && s[k].dirt == dirt && s[k].lock == lock
  }

  /** A free list with an unreferenced header has a first one of least badness. */
  lemma {:induction false} VictimExists(s: seq<Head>, o: seq<nat>, n: nat) returns (j: nat)
    requires n <= |o| && (forall i :: 0 <= i < |o| ==> o[i] < |s|)
    requires exists i :: 0 <= i < n && s[o[i]].count == 0
    ensures IsVictim(s, o[..n], j)
  {
    var m := n - 1;
    if exists i :: 0 <= i < m && s[o[i]].count == 0 {
      j := VictimExists(s, o, m);
      assert forall i :: 0 <= i < m ==> o[..m][i] == o[..n][i];
      if s[o[m]].count == 0 && Badness(s[o[m]]) < Badness(s[o[j]]) {
        j := m;
      }
    } else {
      j := m;
    }
  }

  /** An uncached block is got without a sleep if and only if some unreferenced buffer is clean and unlocked, or some is
      dirty and unlocked and none is clean. */
  lemma UncachedAtOnceIff(st: Store, dev: nat, block: nat, env: seq<Sleep>)
    requires Listed(st) && !Cached(st.heads, dev, block)
    ensures var g, s := Got(st, dev, block, env), st.heads;
            g.awake && |g.rest| == |env| <==>
            || SomeIdle(s, false, false)
            || (SomeIdle(s, true, false) && !SomeIdle(s, false, true))
  {
    GotAtOnceIff(st, dev, block, env);
    hide Got;
    var s, o := st.heads, st.order;
    if exists i :: 0 <= i < |o| && s[o[i]].count == 0 {
      var j := VictimExists(s, o, |o|);
      assert o[..|o|] == o;
      VictimIs(st, j);
      forall k | 0 <= k < |s| && s[k].count == 0
        ensures Badness(s[k]) >= Badness(s[o[j]])
      {
        var i := PlaceInOrder(st, k);
      }
    } else {
      forall k | 0 <= k < |s|
        ensures s[k].count != 0
      {
        var i := PlaceInOrder(st, k);
      }
      assert Victim(st) == NULL;
    }
  }

  /** Of the unreferenced buffers with the victim's flags the victim stands first on the free list, where a buffer got
      anew goes to the end: it is the one got longest ago. */
  lemma VictimIsOldest(st: Store, i: nat, j: nat)
    requires Listed(st) && i < |st.order| && j < |st.order| && Victim(st) == st.order[j]
    requires var h, v := st.heads[st.order[i]], st.heads[st.order[j]];
             h.count == 0 && h.dirt == v.dirt && h.lock == v.lock
    ensures j <= i
  {
    var k: nat :| IsVictim(st.heads, st.order, k);
    VictimIs(st, k);
  }

  lemma PlaceInOrder(st: Store, k: nat) returns (i: nat)
    requires Listed(st) && k < |st.heads|
    ensures i < |st.order| && st.order[i] == k
  {
    assert k in st.order;
    i :| 0 <= i < |st.order| && st.order[i] == k;
  }

  /** A reference the sleeping task holds keeps the buffer and its identity. */
  lemma PerformedKeeps(st: Store, a: Action, own: nat)
    requires own < |st.heads| && st.heads[own].count > 0
    ensures var h := Performed(st, a, own).heads[own];
            h.count > 0 && h.dev == st.heads[own].dev && h.blocknr == st.heads[own].blocknr
  {
  }

  lemma {:induction false} SleptKeeps(st: Store, acts: Sleep, own: nat)
    requires own < |st.heads| && st.heads[own].count > 0
    ensures var h := Slept(st, acts, own).heads[own];
            h.count > 0 && h.dev == st.heads[own].dev && h.blocknr == st.heads[own].blocknr
  {
    hide Performed;
    if acts != [] {
      SleptKeeps(st, acts[..|acts| - 1], own);
      PerformedKeeps(Slept(st, acts[..|acts| - 1], own), acts[|acts| - 1], own);
    }
  }

  lemma {:induction false} WaitedKeeps(st: Store, env: seq<Sleep>, own: nat)
    requires own < |st.heads| && st.heads[own].count > 0
    ensures var h := Waited(st, own, env, own).0.heads[own];
            h.count > 0 && h.dev == st.heads[own].dev && h.blocknr == st.heads[own].blocknr
    decreases |env|
  {
    if st.heads[own].lock && env != [] {
      SleptKeeps(st, env[0], own);
      WaitedKeeps(Slept(st, env[0], own), env[1..], own);
    }
  }

  /** A lookup of a cached block whose count does not wrap comes back with it, referenced, after the first sleep that
      leaves it unlocked, whatever else happens; it sleeps on exactly as long as there is none. */
  lemma HitGetsThroughIff(st: Store, dev: nat, block: nat, env: seq<Sleep>)
    requires Cached(st.heads, dev, block) && st.heads[Holder(st.heads, dev, block)].count % 256 != 255
    ensures var g, k := Got(st, dev, block, env), Holder(st.heads, dev, block);
            var t := Counted(st, k, (st.heads[k].count + 1) % 256);
            && (g.awake <==> EverUnlocked(t, k, env, k))
            && (g.awake ==> g.hit && g.r == k && g.st.heads[k].count > 0 && Carries(g.st.heads[k], dev, block))
            && g == Looked(st, dev, block, env)
            && g.st == SleptOn(t, env, |env| - |g.rest|, k) && g.rest == env[|env| - |g.rest|..]
            && (forall n :: 0 <= n < |env| - |g.rest| ==> SleptOn(t, env, n, k).heads[k].lock)
  {
    var k := Holder(st.heads, dev, block);
    var t := Counted(st, k, (st.heads[k].count + 1) % 256);
    WaitedKeeps(t, env, k);
    WaitedIff(t, k, env, k);
    hide SleptOn, EverUnlocked;
    assert Looked(st, dev, block, env).awake == Waited(t, k, env, k).1;
  }
}
