/** The buffer cache of fs/buffer.c: headers and hash table updated in place. */
module BufferCache {
  import opened BufferLists
  import opened CacheRuns

  const BLOCK_SIZE: nat := 1024
  const HEAD_SIZE: nat := 36
  const LOW_MEM: nat := 0x10_0000

  /** Among the first j elements of the free list, v is the first unreferenced one of least badness. */
  ghost predicate Best(s: seq<Head>, o: seq<nat>, v: nat, j: nat) {
    && v < j <= |o| && o[v] < |s| && s[o[v]].count == 0
    && (forall i :: 0 <= i < j && o[i] < |s| && s[o[i]].count == 0 ==>
          if i < v then Badness(s[o[i]]) > Badness(s[o[v]]) else Badness(s[o[i]]) >= Badness(s[o[v]]))
  }

  lemma BestIsVictim(s: seq<Head>, o: seq<nat>, v: nat, j: nat)
    requires Best(s, o, v, j) && Distinct(o) && (j == |o| || Badness(s[o[v]]) == 0)
    ensures o[v] in o && o[v] < |s| && s[o[v]].count == 0 && IsVictim(s, o, IndexIn(o, o[v]))
  {
  }

  /** The search so far: no unreferenced element, or the best one. */
  ghost predicate Searched(s: seq<Head>, o: seq<nat>, b: int, v: nat, j: nat) {
    if b == NULL then j <= |o| && forall i :: 0 <= i < j && o[i] < |s| ==> s[o[i]].count > 0
    else Best(s, o, v, j) && b == o[v] && Badness(s[o[v]]) > 0
  }

  lemma SearchStep(s: seq<Head>, o: seq<nat>, b: int, v: nat, j: nat)
    requires Searched(s, o, b, v, j) && j < |o| && o[j] < |s|
    ensures var found := s[o[j]].count == 0 && (b == NULL || Badness(s[o[j]]) < Badness(s[b]));
            && (found ==> Best(s, o, j, j + 1))
            && (found && Badness(s[o[j]]) > 0 ==> Searched(s, o, o[j], j, j + 1))
            && (!found ==> Searched(s, o, b, v, j + 1))
  {
  }

  lemma NothingSearched(s: seq<Head>, o: seq<nat>)
    ensures Searched(s, o, NULL, 0, 0)
  {
  }

  /** The search is over when the cycle is. */
  lemma SearchEnds(s: seq<Head>, o: seq<nat>, b: int, v: nat)
    requires Searched(s, o, b, v, |o|) && Distinct(o) && Covers(s, o)
    ensures b == NULL ==> forall k :: 0 <= k < |s| ==> s[k].count > 0
    ensures b != NULL ==> 0 <= b < |s| && s[b].count == 0 && b in o && IsVictim(s, o, IndexIn(o, b))
  {
    if b != NULL {
      BestIsVictim(s, o, v, |o|);
    } else {
      forall k | 0 <= k < |s|
        ensures s[k].count > 0
      {
        assert o[IndexIn(o, k)] == k;
      }
    }
  }

  /** The search finds the one victim there is. */
  lemma VictimFound(s: seq<Head>, o: seq<nat>, b: int)
    requires Distinct(o)
    requires b == NULL ==> forall k :: 0 <= k < |s| ==> s[k].count > 0
    requires b != NULL ==> 0 <= b < |s| && b in o && IsVictim(s, o, IndexIn(o, b))
    ensures Victim(Store(Bares(s), o)) == b
  {
    LinksApart(s, o, 0, 0);
    if b != NULL {
      VictimIs(Store(Bares(s), o), IndexIn(o, b));
    }
  }

  /** Header k of n as buffer_init leaves it. */
  function InitialHead(k: nat, n: nat, data: nat): Head {
    Head(0, 0, false, false, 0, false, data, NULL, NULL, if k + 1 < n then k + 1 else 0, if k > 0 then k - 1 else n - 1)
  }

  /** Headers from LOW_MEM upwards and data blocks from `end` downwards, as many as fit without meeting. */
  ghost predicate LaidOut(s: seq<Head>, end: nat) {
    && LOW_MEM + |s| * HEAD_SIZE + |s| * BLOCK_SIZE <= end < LOW_MEM + (|s| + 1) * HEAD_SIZE + (|s| + 1) * BLOCK_SIZE
    && (forall k :: 0 <= k < |s| ==> s[k] == InitialHead(k, |s|, end - (k + 1) * BLOCK_SIZE))
  }

  ghost predicate InOrder(s: seq<Head>, o: seq<nat>) {
    |o| == |s| && forall k :: 0 <= k < |s| ==> o[k] == k
  }

  lemma InitialRing(s: seq<Head>, o: seq<nat>, end: nat)
    requires LaidOut(s, end) && InOrder(s, o) && |s| > 0
    ensures Ring(s, o, 0) && Covers(s, o)
  {
    forall k | 0 <= k < |s|
      ensures k in o
    {
      assert o[k] == k;
    }
  }

  lemma InitialChains(s: seq<Head>, cs: seq<seq<nat>>, table: seq<int>, end: nat)
    requires LaidOut(s, end) && |cs| == |table| == NR_HASH
    requires forall h :: 0 <= h < NR_HASH ==> cs[h] == [] && table[h] == NULL
    ensures Chains(s, cs, table, NULL) && Unique(s)
  {
  }

  /** Walking the cycle one step. */
  lemma RingStep(s: seq<Head>, o: seq<nat>, first: int, j: nat)
    requires Ring(s, o, first) && j < |o|
    ensures o[j] < |s| && s[o[j]].nextFree == After(o, j) && first == o[0] && Distinct(o)
    ensures s[o[j]].nextFree == first <==> j + 1 == |o|
  {
  }

  /** b took identity (dev, block) as a getblk miss does: a fresh reference, clean and not up to date, moved to the tail
      of the free list; all other headers and their order as before. */
  ghost predicate Rekeyed(s: seq<Head>, o: seq<nat>, t: seq<Head>, p: seq<nat>, b: nat, dev: nat, block: nat) {
    && |t| == |s| && b < |s| && p == Without(o, b) + [b]
    && SameBody(s[b].(dev := dev, blocknr := block, count := 1, dirt := false, uptodate := false), t[b])
    && (forall k :: 0 <= k < |s| && k != b ==> SameBody(s[k], t[k]))
  }

  lemma RekeyedIsRenamed(s: seq<Head>, o: seq<nat>, t: seq<Head>, p: seq<nat>, b: nat, dev: nat, block: nat)
    requires Rekeyed(s, o, t, p, b, dev, block)
    ensures Store(Bares(t), p) == Renamed(Store(Bares(s), o), b, dev, block)
  {
    assert Bares(t) == Renamed(Store(Bares(s), o), b, dev, block).heads;
  }

  lemma BaresAt(s: seq<Head>)
    ensures |Bares(s)| == |s| && forall k :: 0 <= k < |s| ==> Bares(s)[k] == Bare(s[k])
  {
  }

  /** Links play no part in lookups and in the choice of a victim. */
  lemma LinksApart(s: seq<Head>, o: seq<nat>, dev: nat, block: nat)
    ensures Cached(Bares(s), dev, block) <==> Cached(s, dev, block)
    ensures forall j :: IsVictim(Bares(s), o, j) <==> IsVictim(s, o, j)
  {
    if k :| 0 <= k < |s| && Carries(s[k], dev, block) {
      assert Carries(Bares(s)[k], dev, block);
    }
    if k :| 0 <= k < |s| && Carries(Bares(s)[k], dev, block) {
      assert Carries(s[k], dev, block);
    }
  }

  lemma HolderIs(s: seq<Head>, dev: nat, block: nat, r: int)
    requires Unique(s) && (r == NULL <==> !Cached(s, dev, block))
    requires r != NULL ==> 0 <= r < |s| && Carries(s[r], dev, block)
    ensures Holder(Bares(s), dev, block) == r
  {
    LinksApart(s, [], dev, block);
  }

  lemma TouchedIs(s: seq<Head>, o: seq<nat>, k: nat, count: nat, lock: bool, uptodate: bool, dirt: bool)
    requires k < |s|
    ensures Store(Bares(s[k := s[k].(count := count, lock := lock, uptodate := uptodate, dirt := dirt)]), o)
         == Touched(Store(Bares(s), o), k, count, lock, uptodate, dirt)
  {
    assert Bares(s[k := s[k].(count := count, lock := lock, uptodate := uptodate, dirt := dirt)])
        == Touched(Store(Bares(s), o), k, count, lock, uptodate, dirt).heads;
  }

  lemma SameBodiesTrans(s: seq<Head>, t: seq<Head>, u: seq<Head>)
    requires SameBodies(s, t) && SameBodies(t, u)
    ensures SameBodies(s, u)
  {
  }

  lemma NotOwnHead(s: seq<Head>, cs: seq<seq<nat>>, table: seq<int>, b: nat)
    requires Chains(s, cs, table, b) && b < |s|
    ensures table[HashOf(s[b])] != b
  {
  }

  /** The identity of a detached header is free to change. */
  lemma RekeyDetached(s: seq<Head>, t: seq<Head>, o: seq<nat>, first: int, cs: seq<seq<nat>>, table: seq<int>, b: nat)
    requires DetachedLists(s, o, first, cs, table, b) && |t| == |s|
    requires forall k :: 0 <= k < |s| && k != b ==> t[k] == s[k]
    requires t[b] == s[b].(dev := t[b].dev, blocknr := t[b].blocknr)
    ensures DetachedLists(t, o, first, cs, table, b)
  {
  }

  lemma RekeyUnique(s: seq<Head>, t: seq<Head>, u: seq<Head>, b: nat, dev: nat, block: nat)
    requires Unique(s) && !Cached(s, dev, block) && b < |s|
    requires SameBodies(s[b := s[b].(count := 1, uptodate := false, dirt := false)], t)
    requires u == t[b := t[b].(dev := dev, blocknr := block)]
    ensures Unique(u)
  {
  }

  lemma RekeyedBodies(s: seq<Head>, t: seq<Head>, u: seq<Head>, v: seq<Head>, b: nat, dev: nat, block: nat)
    requires b < |s| && SameBodies(s[b := s[b].(count := 1, uptodate := false, dirt := false)], t)
    requires u == t[b := t[b].(dev := dev, blocknr := block)] && SameBodies(u, v)
    ensures |v| == |s| && SameBody(s[b].(dev := dev, blocknr := block, count := 1, dirt := false, uptodate := false),
        v[b])
    ensures forall k :: 0 <= k < |s| && k != b ==> SameBody(s[k], v[k])
  {
  }

  /** The cache as a partial map from identities to headers: a miss adds its identity, removes the victim's old one and
      leaves every other lookup alone. */
  lemma RekeyedLookup(s: seq<Head>, o: seq<nat>, t: seq<Head>, p: seq<nat>, b: nat, dev: nat, block: nat, k: nat,
      d: nat, l: nat)
    requires Rekeyed(s, o, t, p, b, dev, block) && Unique(s) && !Cached(s, dev, block) && k < |s|
    ensures Unique(t)
    ensures (d, l) == (dev, block) ==> (Carries(t[k], d, l) <==> k == b && d != 0)
    ensures (d, l) != (dev, block) && Carries(s[b], d, l) ==> !Cached(t, d, l)
    ensures (d, l) != (dev, block) && !Carries(s[b], d, l) ==> (Carries(t[k], d, l) <==> Carries(s[k], d, l))
  {
  }

  /** Contents of a dirty block are given up only when every unreferenced buffer is dirty: there is no write-back. */
  lemma DirtyVictim(s: seq<Head>, o: seq<nat>, j: nat)
    requires IsVictim(s, o, j) && s[o[j]].dirt
    ensures forall i :: 0 <= i < |o| && o[i] < |s| && s[o[i]].count == 0 ==> s[o[i]].dirt
  {
  }

  class Cache {
    const bh: array<Head>
    const hashTable: array<int>
    var freeList: nat
    ghost var order: seq<nat>
    ghost var chains: seq<seq<nat>>

    ghost predicate Valid()
      reads this, bh, hashTable
    {
      bh as object != hashTable && Lists(bh[..], order, freeList, chains, hashTable[..])
    }

    ghost function State(): (st: Store)
      reads this, bh
      ensures |st.heads| == bh.Length
    {
      Store(Bares(bh[..]), order)
    }

    /** Valid with header b detached from its hash chain, and from the free list too if b is not in `order`. */
    ghost predicate Detached(b: nat)
      reads this, bh, hashTable
    {
      bh as object != hashTable && DetachedLists(bh[..], order, freeList, chains, hashTable[..], b)
    }

    // ---------- remove_from_queues ----------

    method UnlinkHashStores(b: nat)
      requires b < bh.Length && NULL <= bh[b].next < bh.Length && NULL <= bh[b].prev < bh.Length
      modifies bh
      ensures bh[..] == UnlinkHash(old(bh[..]), b)
    {
      if bh[b].next >= 0 {
        bh[bh[b].next] := bh[bh[b].next].(prev := bh[b].prev);
      }
      if bh[b].prev >= 0 {
        bh[bh[b].prev] := bh[bh[b].prev].(next := bh[b].next);
      }
    }

    method UnlinkFreeStores(b: nat)
      requires b < bh.Length && 0 <= bh[b].nextFree < bh.Length && 0 <= bh[b].prevFree < bh.Length
      requires bh[b].nextFree != b && bh[b].prevFree != b
      modifies bh
      ensures bh[..] == UnlinkFree(old(bh[..]), b) && bh[b] == old(bh[b])
    {
      bh[bh[b].prevFree] := bh[bh[b].prevFree].(nextFree := bh[b].nextFree);
      bh[bh[b].nextFree] := bh[bh[b].nextFree].(prevFree := bh[b].prevFree);
    }

    /** Takes b off its hash chain and the free list. */
    method RemoveFromQueues(b: nat)
      requires Valid() && b < bh.Length
      modifies this, bh, hashTable
      ensures Detached(b) && b !in order && order == Without(old(order), b) && SameBodies(old(bh[..]), bh[..])
    {
      ghost var s := bh[..];
      hide Ring, Linked, OnlyHashed, AllHashed, NoLinks, Unique, Covers;
      OffHash(s, order, freeList, chains, hashTable[..], b);
      UnlinkHashStores(b);
      var h := HashFn(bh[b].dev, bh[b].blocknr);
      assert SameBody(s[b], bh[b]);
      if hashTable[h] == b {
        hashTable[h] := bh[b].next;
      }
      assert hashTable[..] == TableWithout(s, old(hashTable[..]), b);
      chains := ChainsWithout(s, chains, b);
      ghost var t := bh[..];
      assert DetachedLists(t, order, freeList, chains, hashTable[..], b);
      OffFree(t, order, freeList, chains, hashTable[..], b);
      UnlinkFreeStores(b);
      if freeList == b {
        freeList := bh[b].nextFree;
      }
      order := Without(order, b);
      SameBodiesTrans(s, t, bh[..]);
    }

    // ---------- insert_into_queues ----------

    method LinkTailStores(b: nat)
      requires b < bh.Length && freeList < bh.Length && freeList != b
      requires 0 <= bh[freeList].prevFree < bh.Length && bh[freeList].prevFree != b
      modifies bh
      ensures bh[..] == LinkTail(old(bh[..]), b, freeList)
    {
      bh[b] := bh[b].(nextFree := freeList);
      bh[b] := bh[b].(prevFree := bh[freeList].prevFree);
      bh[bh[freeList].prevFree] := bh[bh[freeList].prevFree].(nextFree := b);
      bh[freeList] := bh[freeList].(prevFree := b);
    }

    method LinkHashStores(b: nat)
      requires b < bh.Length && hashTable.Length == NR_HASH && bh as object != hashTable
      requires forall h :: 0 <= h < NR_HASH ==> NULL <= hashTable[h] < bh.Length
      requires hashTable[HashOf(bh[b])] != b
      modifies bh, hashTable
      ensures bh[..] == LinkHash(old(bh[..]), old(hashTable[..]), b)
      ensures hashTable[..] == if old(bh[b].dev) == 0 then old(hashTable[..])
          else old(hashTable[..])[HashOf(old(bh[b])) := b]
    {
      bh[b] := bh[b].(prev := NULL);
      bh[b] := bh[b].(next := NULL);
      if bh[b].dev == 0 {
        return;
      }
      var h := HashFn(bh[b].dev, bh[b].blocknr);
      if hashTable[h] != NULL {
        bh[b] := bh[b].(next := hashTable[h]);
        hashTable[h] := b;
        bh[bh[b].next] := bh[bh[b].next].(prev := b);
      } else {
        hashTable[h] := b;
      }
    }

    /** The free-list half of insert_into_queues. */
    method InsertIntoFree(b: nat)
      requires Detached(b) && b !in order
      modifies this`order, bh
      ensures Detached(b) && order == old(order) + [b] && SameBodies(old(bh[..]), bh[..])
    {
      hide Ring, Chains;
      ghost var s := bh[..];
      OnFree(s, order, freeList, chains, hashTable[..], b);
      LinkTailStores(b);
      order := order + [b];
    }

    /** The hash half of insert_into_queues. */
    method InsertIntoHash(b: nat)
      requires Detached(b) && b in order && Unique(bh[..])
      modifies this`chains, bh, hashTable
      ensures Valid() && SameBodies(old(bh[..]), bh[..])
    {
      hide Ring, Linked, OnlyHashed, AllHashed, NoLinks, Unique, Covers, SameBodies, LinkHash, HashFn;
      OnHash(bh[..], order, freeList, chains, hashTable[..], b);
      NotOwnHead(bh[..], chains, hashTable[..], b);
      LinkHashStores(b);
      if old(bh[b]).dev != 0 {
        chains := chains[HashOf(old(bh[b])) := [b] + chains[HashOf(old(bh[b]))]];
      }
    }

    /** Puts b at the end of the free list and, if it has a device, at the front of its hash chain. */
    method InsertIntoQueues(b: nat)
      requires Detached(b) && b !in order && Unique(bh[..])
      modifies this, bh, hashTable
      ensures Valid() && order == old(order) + [b] && SameBodies(old(bh[..]), bh[..])
    {
      ghost var s := bh[..];
      InsertIntoFree(b);
      ghost var t := bh[..];
      UniqueFrame(s, t);
      assert b in order;
      InsertIntoHash(b);
      SameBodiesTrans(s, t, bh[..]);
    }

    // ---------- lookup ----------

    /** The buffer with identity (dev, block), or NULL if there is none. Device 0 is never found. */
    method FindBuffer(dev: nat, block: nat) returns (r: int)
      requires Valid()
      ensures r == NULL <==> !Cached(bh[..], dev, block)
      ensures r != NULL ==> 0 <= r < bh.Length && Carries(bh[r], dev, block)
      ensures r == Holder(State().heads, dev, block)
    {
      var h := HashFn(dev, block);
      ghost var c := chains[h];
      assert Chain(bh[..], c, hashTable[h]);
      r := hashTable[h];
      ghost var j := 0;
      while r != NULL
        invariant 0 <= j <= |c| && r == if j < |c| then c[j] else NULL
        invariant forall i :: 0 <= i < j ==> !Carries(bh[c[i]], dev, block)
        decreases |c| - j
      {
        assert Belongs(bh[..], c[j], h, NULL);
        if bh[r].dev == dev && bh[r].blocknr == block {
          HolderIs(bh[..], dev, block, r);
          return;
        }
        assert bh[c[j]].next == Next(c, j);
        r := bh[r].next;
        j := j + 1;
      }
      forall k | 0 <= k < bh.Length
        ensures !Carries(bh[k], dev, block)
      {
        assert bh[k].dev != 0 ==> k in chains[HashOf(bh[k])];
      }
      HolderIs(bh[..], dev, block, r);
    }

    // ---------- what happens while a task sleeps ----------

    /** Changing anything but links and identity keeps the lists. */
    method Touch(k: nat, count: nat, lock: bool, uptodate: bool, dirt: bool)
      requires Valid() && k < bh.Length
      modifies bh
      ensures Valid()
      ensures bh[..] == old(bh[..])[k := old(bh[k]).(count := count, lock := lock, uptodate := uptodate, dirt := dirt)]
      ensures State() == Touched(old(State()), k, count, lock, uptodate, dirt)
    {
      TouchedIs(bh[..], order, k, count, lock, uptodate, dirt);
      hide Ring, Linked, OnlyHashed, AllHashed, NoLinks;
      ghost var s := bh[..];
      bh[k] := bh[k].(count := count, lock := lock, uptodate := uptodate, dirt := dirt);
      assert SameFree(s, bh[..]) && SameHash(s, bh[..]);
      RingFrame(s, bh[..], order, freeList);
      ChainsFrame(s, bh[..], chains, hashTable[..], NULL);
    }

    method SetCount(k: nat, count: nat)
      requires Valid() && k < bh.Length
      modifies bh
      ensures Valid() && bh[..] == old(bh[..])[k := old(bh[k]).(count := count)]
      ensures State() == Counted(old(State()), k, count)
    {
      hide Lists;
      Touch(k, count, bh[k].lock, bh[k].uptodate, bh[k].dirt);
    }

    /** The last step of getblk: b, unreferenced, takes the identity (dev, block), which nobody has. */
    method Rekey(b: nat, dev: nat, block: nat)
      requires Valid() && b < bh.Length && !Cached(bh[..], dev, block)
      modifies this, bh, hashTable
      ensures Valid() && Rekeyed(old(bh[..]), old(order), bh[..], order, b, dev, block)
      ensures State() == Renamed(old(State()), b, dev, block)
    {
      hide Ring, Chains, Unique, Covers, SameBodies, Without;
      ghost var s := bh[..];
      Touch(b, 1, bh[b].lock, false, false);
      RemoveFromQueues(b);
      ghost var t := bh[..];
      bh[b] := bh[b].(dev := dev, blocknr := block);
      ghost var u := bh[..];
      RekeyDetached(t, u, order, freeList, chains, hashTable[..], b);
      RekeyUnique(s, t, u, b, dev, block);
      InsertIntoQueues(b);
      RekeyedBodies(s, t, u, bh[..], b, dev, block);
      RekeyedIsRenamed(s, old(order), bh[..], order, b, dev, block);
    }

    /** A reference this task holds keeps the buffer and its identity. */
    twostate predicate Kept(own: int)
      reads bh
    {
      0 <= own < bh.Length && old(bh[own]).count > 0 ==>
        bh[own].count > 0 && bh[own].dev == old(bh[own]).dev && bh[own].blocknr == old(bh[own]).blocknr
    }

    /** One atomic section of another task or an interrupt. `own` is the buffer the sleeping task holds. */
    method Perform(a: Action, own: int)
      requires Valid()
      modifies this, bh, hashTable
      ensures Valid() && Kept(own) && State() == Performed(old(State()), a, own)
    {
      hide Lists, Renamed, Touched, Bares, Cached;
      BaresAt(bh[..]);
      match a
      case Take(k) =>
        if k < bh.Length && bh[k].count < 255 {
          SetCount(k, bh[k].count + 1);
        }
      case Release(k) =>
        if k < bh.Length && bh[k].count > (if k == own then 1 else 0) {
          SetCount(k, bh[k].count - 1);
        }
      case Io(k, lock, uptodate, dirt) =>
        if k < bh.Length {
          Touch(k, bh[k].count, lock, uptodate, dirt);
        }
      case Rekey(k, dev, block) =>
        if k < bh.Length && bh[k].count == 0 && !bh[k].lock {
          var f := FindBuffer(dev, block);
          if f == NULL {
            ghost var s := bh[..];
            Rekey(k, dev, block);
            if 0 <= own < bh.Length && own != k {
              assert SameBody(s[own], bh[own]);
            }
          }
        }
    }

    /** Everything that happens during one sleep. */
    method SleepOn(acts: Sleep, own: int)
      requires Valid()
      modifies this, bh, hashTable
      ensures Valid() && Kept(own) && State() == Slept(old(State()), acts, own)
    {
      for i := 0 to |acts|
        invariant Valid() && Kept(own) && State() == Slept(old(State()), acts[..i], own)
      {
        Perform(acts[i], own);
        assert acts[..i + 1][..i] == acts[..i];
      }
      assert acts[..|acts|] == acts;
    }

    /** wait_on_buffer: sleeps as long as b is locked. `ok` is false if the task is still asleep when the modelled
        sleeps run out. */
    method WaitOnBuffer(b: nat, env: seq<Sleep>, own: int) returns (ok: bool, rest: seq<Sleep>)
      requires Valid() && b < bh.Length
      modifies this, bh, hashTable
      ensures Valid() && Kept(own) && |rest| <= |env|
      ensures (State(), ok, rest) == Waited(old(State()), b, env, own)
      ensures ok ==> !bh[b].lock
      ensures !ok ==> rest == []
      ensures ok && |rest| == |env| ==> bh[..] == old(bh[..]) && order == old(order)
    {
      rest := env;
      while bh[b].lock
        invariant Valid() && Kept(own) && |rest| <= |env|
        invariant Waited(State(), b, rest, own) == Waited(old(State()), b, env, own)
        invariant |rest| == |env| ==> bh[..] == old(bh[..]) && order == old(order)
        decreases |rest|
      {
        if rest == [] {
          return false, rest;
        }
        SleepOn(rest[0], own);
        rest := rest[1..];
      }
      ok := true;
    }

    /** Looks up (dev, block), takes a reference and waits until the buffer is unlocked. The reference count is one byte
        wide; only when it wraps to 0 can the buffer change identity under the sleeping task, and then the lookup starts
        again. `was` is the count the buffer had when it was last looked up: the buffer comes back referenced, whatever
        happened during the sleeps, if the count was not 255, and without a sleep exactly then. */
    method GetHashTable(dev: nat, block: nat, env: seq<Sleep>)
        returns (awake: bool, r: int, rest: seq<Sleep>, ghost was: nat)
      requires Valid()
      modifies this, bh, hashTable
      ensures Valid() && |rest| <= |env|
      ensures var l := Looked(old(State()), dev, block, env);
              State() == l.st && awake == l.awake && r == l.r && was == l.was && rest == l.rest
      ensures var k := Holder(old(State()).heads, dev, block);
              awake && |rest| == |env| <==> k == NULL || !old(State()).heads[k].lock
      ensures !awake ==> rest == [] && 0 <= r < bh.Length && bh[r].lock
      ensures awake && r != NULL ==> 0 <= r < bh.Length && Carries(bh[r], dev, block) && !bh[r].lock
      ensures awake && r == NULL ==> !Cached(bh[..], dev, block)
      ensures awake && |rest| == |env| ==> (r == NULL <==> !Cached(old(bh[..]), dev, block))
      ensures awake && r != NULL && was % 256 != 255 ==> bh[r].count > 0
      ensures awake && r != NULL && |rest| == |env| ==> was == old(bh[r]).count
      ensures awake && |rest| == |env| ==> order == old(order)
      ensures awake && |rest| == |env| ==>
          bh[..] == if r == NULL then old(bh[..])
          else old(bh[..])[r := old(bh[r]).(count := (old(bh[r]).count + 1) % 256)]
    {
      hide Lists;
      hide Looked, Waited, Counted, Cached, Bares, Holder;
      rest, was := env, 0;
      LookedAtOnceIff(State(), dev, block, env);
      while true
        invariant Valid() && |rest| <= |env|
        invariant Looked(State(), dev, block, rest) == Looked(old(State()), dev, block, env)
        invariant |rest| == |env| ==> bh[..] == old(bh[..]) && order == old(order)
        decreases |rest|
      {
        LookedTurn(State(), dev, block, rest);
        BaresAt(bh[..]);
        r := FindBuffer(dev, block);
        if r == NULL {
          return true, NULL, rest, 0;
        }
        was := bh[r].count;
        SetCount(r, (bh[r].count + 1) % 256);
        awake, rest := WaitOnBuffer(r, rest, r);
        BaresAt(bh[..]);
        if !awake {
          return;
        }
        if bh[r].dev == dev && bh[r].blocknr == block {
          return;
        }
        SetCount(r, (bh[r].count + 255) % 256);
      }
    }

    /** The search loop of getblk over the free list: the first unreferenced buffer of least badness, or NULL if every
        buffer is referenced. */
    method FindVictim() returns (b: int)
      requires Valid()
      ensures b == NULL ==> forall k :: 0 <= k < bh.Length ==> bh[k].count > 0
      ensures b != NULL ==>
          0 <= b < bh.Length && bh[b].count == 0 && b in order && IsVictim(bh[..], order, IndexIn(order, b))
      ensures b == Victim(State())
    {
      hide Chains, Unique, Best, Searched, IsVictim;
      b := NULL;
      var tmp := freeList;
      ghost var j := 0;
      ghost var v := 0;
      ghost var s := bh[..];
      RingStep(s, order, freeList, 0);
      hide Ring;
      assert Searched(s, order, NULL, 0, 0) by {
        NothingSearched(s, order);
      }
      while true
        invariant 0 <= j < |order| && tmp == order[j] && Searched(s, order, b, v, j)
        invariant b != NULL ==> 0 <= b < bh.Length && v < |order| && b == order[v]
        decreases |order| - j
      {
        RingStep(s, order, freeList, j);
        SearchStep(s, order, b, v, j);
        if bh[tmp].count == 0 {
          if b == NULL || Badness(bh[tmp]) < Badness(bh[b]) {
            b, v := tmp, j;
            if Badness(bh[tmp]) == 0 {
              BestIsVictim(s, order, v, j + 1);
              VictimFound(s, order, b);
              return;
            }
          }
        }
        tmp := bh[tmp].nextFree;
        j := j + 1;
        if tmp == freeList {
          break;
        }
      }
      SearchEnds(s, order, b, v);
      VictimFound(s, order, b);
    }

    /** getblk: returns the one buffer with identity (dev, block), unlocked and referenced. On a miss the victim,
        unreferenced and unlocked in the state `mid` of its last atomic section, is re-keyed. The checks are made again
        after every sleep, so no interleaving ever gives two buffers the same identity. Without any sleep `mid` is the
        state at the call and the victim is the first unreferenced buffer of least badness. The buffer comes back
        referenced unless it was a hit on a count of 255, which wraps to 0. */
    method Getblk(dev: nat, block: nat, env: seq<Sleep>)
      returns (awake: bool, hit: bool, r: nat, rest: seq<Sleep>, ghost mid: seq<Head>, ghost midOrder: seq<nat>,
               ghost was: nat)
      requires Valid()
      modifies this, bh, hashTable
      ensures Valid() && |rest| <= |env|
      ensures var g := Got(old(State()), dev, block, env);
              && State() == g.st && awake == g.awake && hit == g.hit && rest == g.rest
              && (awake ==> r == g.r) && (hit ==> was == g.was)
      ensures awake && |rest| == |env| <==> AtOnce(old(State()), dev, block)
      ensures !awake ==> rest == [] && (AllReferenced(bh[..]) || (r < bh.Length && bh[r].lock))
      ensures awake ==> r < bh.Length && bh[r].dev == dev && bh[r].blocknr == block && !bh[r].lock
      ensures awake && (hit ==> was % 256 != 255) ==> bh[r].count > 0
      ensures awake && hit && |rest| == |env| ==> (bh[r].count > 0 <==> was % 256 != 255) && was == old(bh[r]).count
      ensures awake && !hit ==> Rekeyed(mid, midOrder, bh[..], order, r, dev, block)
      ensures awake && !hit ==> !Cached(mid, dev, block) && mid[r].count == 0 && !mid[r].lock
      ensures awake && !hit ==> bh[r].count == 1 && !bh[r].dirt && !bh[r].uptodate && order[|order| - 1..] == [r]
      ensures awake && |rest| == |env| ==> (hit <==> Cached(old(bh[..]), dev, block))
      ensures awake && |rest| == |env| && hit ==>
                order == old(order) && bh[..] == old(bh[..])[r := old(bh[r]).(count := (old(bh[r]).count + 1) % 256)]
      ensures awake && |rest| == |env| && !hit ==>
                mid == old(bh[..]) && midOrder == old(order) && r in midOrder
                    && IsVictim(mid, midOrder, IndexIn(midOrder, r))
    {
      hide Lists, IsVictim, Got, Looked, Waited, AtOnce, Renamed, Slept, Bares, Cached, Holder, Victim;
      rest, r, hit, was := env, 0, false, 0;
      GotAtOnceIff(State(), dev, block, env);
      while true
        invariant Valid() && |rest| <= |env| && !hit
        invariant Got(State(), dev, block, rest) == Got(old(State()), dev, block, env)
        invariant |rest| == |env| ==> bh[..] == old(bh[..]) && order == old(order)
        decreases |rest|
      {
        mid, midOrder := bh[..], order;
        GotTurn(State(), dev, block, rest);
        var found;
        awake, found, rest, was := GetHashTable(dev, block, rest);
        if !awake {
          r := found;
          return;
        }
        if found != NULL {
          hit, r := true, found;
          return;
        }
        var b := FindVictim();
        if b == NULL {
          if rest == [] {
            awake := false;
            return;
          }
          SleepOn(rest[0], NULL);
          rest := rest[1..];
          continue;
        }
        awake, rest := WaitOnBuffer(b, rest, NULL);
        BaresAt(bh[..]);
        if !awake {
          r := b;
          return;
        }
        if bh[b].count > 0 {
          continue;
        }
        found := FindBuffer(dev, block);
        if found != NULL {
          continue;
        }
        mid, midOrder := bh[..], order;
        Rekey(b, dev, block);
        r := b;
        return;
      }
    }

    /** brelse: waits, then drops one reference; with none left to drop it panics after the count wraps to 255. */
    method Brelse(b: int, env: seq<Sleep>) returns (awake: bool, panic: bool, rest: seq<Sleep>)
      requires Valid() && (b == NULL || 0 <= b < bh.Length)
      modifies this, bh, hashTable
      ensures Valid()
      ensures b == NULL ==> awake && !panic && rest == env && bh[..] == old(bh[..]) && order == old(order)
      ensures b != NULL ==>
          var d := Dropped(old(State()), b, env);
          State() == d.st && awake == d.awake && rest == d.rest && panic == (d.awake && !d.hit)
      ensures b != NULL ==> (awake && |rest| == |env| <==> !old(bh[b]).lock)
      ensures !awake ==> rest == [] && 0 <= b < bh.Length && bh[b].lock
      ensures awake && b != NULL && |rest| == |env| ==>
                && bh[..] == old(bh[..])[b := old(bh[b]).(count := (old(bh[b]).count + 255) % 256)]
                && order == old(order) && (panic <==> old(bh[b]).count == 0)
      ensures awake && b != NULL && old(bh[b]).count > 0 ==> !panic
    {
      hide Lists;
      if b == NULL {
        return true, false, env;
      }
      awake, rest := WaitOnBuffer(b, env, b);
      panic := false;
      if awake {
        panic := bh[b].count == 0;
        SetCount(b, (bh[b].count + 255) % 256);
      }
    }

    /** The loop of buffer_init and the two stores after it. */
    static method LayOut(end: nat) returns (s: seq<Head>)
      requires end >= LOW_MEM + HEAD_SIZE + BLOCK_SIZE
      ensures |s| > 0 && LaidOut(s, end)
    {
      var n := 0;
      var b := end - BLOCK_SIZE;
      s := [];
      while b >= LOW_MEM + (n + 1) * HEAD_SIZE
        invariant |s| == n && b == end - (n + 1) * BLOCK_SIZE && LOW_MEM + n * HEAD_SIZE + n * BLOCK_SIZE <= end
        invariant forall k :: 0 <= k < n ==>
            s[k] == Head(0, 0, false, false, 0, false, end - (k + 1) * BLOCK_SIZE, NULL, NULL, k + 1, k - 1)
        decreases b
      {
        // b stays above LOW_MEM here, so the source's jump to 0xA0000 at 0x100000 is never taken
        s := s + [Head(0, 0, false, false, 0, false, b, NULL, NULL, n + 1, n - 1)];
        n := n + 1;
        b := b - BLOCK_SIZE;
      }
      s := s[0 := s[0].(prevFree := n - 1)];
      s := s[n - 1 := s[n - 1].(nextFree := 0)];
    }

    /** buffer_init: as many headers as fit between LOW_MEM and `end`, all free and on the free list in address order;
        no chain holds any. */
    constructor BufferInit(end: nat)
      requires end >= LOW_MEM + 2 * (HEAD_SIZE + BLOCK_SIZE)
      ensures Valid() && fresh(bh) && fresh(hashTable)
      ensures LaidOut(bh[..], end) && InOrder(bh[..], order)
    {
      var s := LayOut(end);
      var n := |s|;
      assert n >= 2;
      hide LaidOut, Ring, Chains, Unique, Covers;
      bh := new Head[n](i requires 0 <= i < |s| => s[i]);
      hashTable := new int[NR_HASH](i => NULL);
      freeList := 0;
      order := seq(n, i => i);
      chains := seq(NR_HASH, i => []);
      new;
      assert bh[..] == s;
      InitialRing(s, order, end);
      InitialChains(s, chains, hashTable[..], end);
    }
  }
}
