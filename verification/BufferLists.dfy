/** The headers of fs/buffer.c as a value: one circular doubly linked free list and 307 hash chains thread through the
    same array. Pointers are indices into the array; NULL is -1. */
module BufferLists {

  const NR_HASH: nat := 307
  const NULL: int := -1

  datatype Head = Head(dev: nat, blocknr: nat, uptodate: bool, dirt: bool, count: nat, lock: bool, data: nat,
                       next: int, prev: int, nextFree: int, prevFree: int)

  /** Exclusive or of two non-negative numbers. */
  function Xor(a: nat, b: nat): nat
    decreases a + b
  {
    if a == 0 && b == 0 then 0 else 2 * Xor(a / 2, b / 2) + (a + b) % 2
  }

  function HashFn(dev: nat, block: nat): (h: nat)
    ensures h < NR_HASH
  {
    Xor(dev, block) % NR_HASH
  }

  /** A header carries an identity only if its device is not 0. */
  predicate Carries(h: Head, dev: nat, block: nat) {
    h.dev != 0 && h.dev == dev && h.blocknr == block
  }

  ghost predicate Distinct(o: seq<nat>) {
    forall i, j :: 0 <= i < j < |o| ==> o[i] != o[j]
  }

  ghost predicate Within(s: seq<Head>, o: seq<nat>) {
    forall i :: 0 <= i < |o| ==> o[i] < |s|
  }

  /** Neighbours on a cycle. */
  function After(o: seq<nat>, i: nat): nat
    requires i < |o|
  {
    if i + 1 < |o| then o[i + 1] else o[0]
  }

  function Before(o: seq<nat>, i: nat): nat
    requires i < |o|
  {
    if i > 0 then o[i - 1] else o[|o| - 1]
  }

  /** Neighbours on a NULL-terminated chain. */
  function Next(c: seq<nat>, i: nat): int
    requires i < |c|
  {
    if i + 1 < |c| then c[i + 1] else NULL
  }

  function Prev(c: seq<nat>, i: nat): int
    requires i < |c|
  {
    if i > 0 then c[i - 1] else NULL
  }

  /** o lists one circular doubly linked cycle, starting at `first`. */
  ghost predicate Ring(s: seq<Head>, o: seq<nat>, first: int) {
    && |o| > 0 && Within(s, o) && Distinct(o) && first == o[0]
    && (forall i {:trigger s[o[i]]} :: 0 <= i < |o| ==> s[o[i]].nextFree == After(o, i))
    && (forall i {:trigger s[o[i]]} :: 0 <= i < |o| ==> s[o[i]].prevFree == Before(o, i))
  }

  /** c lists one NULL-terminated doubly linked chain starting at `first`. */
  ghost predicate Chain(s: seq<Head>, c: seq<nat>, first: int) {
    && Within(s, c) && Distinct(c) && first == (if |c| > 0 then c[0] else NULL)
    && (forall i {:trigger s[c[i]]} :: 0 <= i < |c| ==> s[c[i]].next == Next(c, i))
    && (forall i {:trigger s[c[i]]} :: 0 <= i < |c| ==> s[c[i]].prev == Prev(c, i))
  }

  /** Every chain is well linked and chain h holds exactly the headers with an identity that hashes to h. Header `out`,
      if any, is detached: on no chain, whatever its fields say. */
  ghost predicate Chains(s: seq<Head>, cs: seq<seq<nat>>, table: seq<int>, out: int) {
    |cs| == NR_HASH && |table| == NR_HASH
    && Linked(s, cs, table) && OnlyHashed(s, cs, out) && AllHashed(s, cs, out) && NoLinks(s, out)
  }

  ghost predicate Linked(s: seq<Head>, cs: seq<seq<nat>>, table: seq<int>)
    requires |cs| == NR_HASH && |table| == NR_HASH
  {
    forall h :: 0 <= h < NR_HASH ==> Chain(s, cs[h], table[h])
  }

  ghost predicate OnlyHashed(s: seq<Head>, cs: seq<seq<nat>>, out: int)
    requires |cs| == NR_HASH
  {
    forall h, i :: 0 <= h < NR_HASH && 0 <= i < |cs[h]| ==> Belongs(s, cs[h][i], h, out)
  }

  ghost predicate Belongs(s: seq<Head>, k: nat, h: nat, out: int) {
    k != out && k < |s| && s[k].dev != 0 && HashOf(s[k]) == h
  }

  ghost predicate AllHashed(s: seq<Head>, cs: seq<seq<nat>>, out: int)
    requires |cs| == NR_HASH
  {
    forall k :: 0 <= k < |s| && k != out && s[k].dev != 0 ==> k in cs[HashOf(s[k])]
  }

  ghost predicate NoLinks(s: seq<Head>, out: int) {
    forall k :: 0 <= k < |s| && k != out && s[k].dev == 0 ==> s[k].next == NULL && s[k].prev == NULL
  }

  function HashOf(h: Head): nat {
    HashFn(h.dev, h.blocknr)
  }

  /** No two headers carry the same identity. */
  ghost predicate Unique(s: seq<Head>) {
    forall k, l ::
        0 <= k < |s| && 0 <= l < |s| && s[k].dev != 0 && s[k].dev == s[l].dev && s[k].blocknr == s[l].blocknr ==> k == l
  }

  /** The free list runs through every header. */
  ghost predicate Covers(s: seq<Head>, o: seq<nat>) {
    forall k :: 0 <= k < |s| ==> k in o
  }

  ghost predicate Lists(s: seq<Head>, o: seq<nat>, first: int, cs: seq<seq<nat>>, table: seq<int>) {
    |s| >= 2 && Ring(s, o, first) && Covers(s, o) && Chains(s, cs, table, NULL) && Unique(s)
  }

  function Drop(o: seq<nat>, i: nat): seq<nat>
    requires i < |o|
  {
    o[..i] + o[i + 1..]
  }

  // ---------- free list ----------

  /** The unlinking stores of remove_from_queues. */
  function UnlinkFree(s: seq<Head>, b: nat): seq<Head>
    requires b < |s| && 0 <= s[b].prevFree < |s| && 0 <= s[b].nextFree < |s|
  {
    var t := s[s[b].prevFree := s[s[b].prevFree].(nextFree := s[b].nextFree)];
    t[t[b].nextFree := t[t[b].nextFree].(prevFree := t[b].prevFree)]
  }

  /** The index in o of element j of Drop(o, i). */
  function Lift(i: nat, j: nat): nat {
    if j < i then j else j + 1
  }

  lemma DropAt(o: seq<nat>, i: nat)
    requires i < |o|
    ensures |Drop(o, i)| == |o| - 1
    ensures forall j :: 0 <= j < |o| - 1 ==> Drop(o, i)[j] == o[Lift(i, j)]
    ensures Distinct(o) ==> Distinct(Drop(o, i)) && forall x :: x in Drop(o, i) <==> x in o && x != o[i]
  {
  }

  /** After unlinking element i of a cycle, the link fields of element j of the rest are its new neighbours. */
  lemma UnlinkFreeStep(s: seq<Head>, o: seq<nat>, first: int, i: nat, j: nat)
    requires Ring(s, o, first) && |o| >= 2 && i < |o| && j < |o| - 1
    requires s[o[i]].prevFree == Before(o, i) && s[o[i]].nextFree == After(o, i) && Before(o, i) < |s|
        && After(o, i) < |s|
    ensures var t, d := UnlinkFree(s, o[i]), Drop(o, i);
            |d| == |o| - 1 && d[j] < |s| && t[d[j]].nextFree == After(d, j) && t[d[j]].prevFree == Before(d, j)
  {
  }

  lemma UnlinkFreeRing(s: seq<Head>, o: seq<nat>, first: int, i: nat)
    requires Ring(s, o, first) && |o| >= 2 && i < |o|
    ensures 0 <= s[o[i]].prevFree < |s| && 0 <= s[o[i]].nextFree < |s| && s[o[i]].prevFree != o[i]
        && s[o[i]].nextFree != o[i]
    ensures Ring(UnlinkFree(s, o[i]), Drop(o, i), if first == o[i] then s[o[i]].nextFree else first)
  {
    assert s[o[i]].prevFree == Before(o, i) && s[o[i]].nextFree == After(o, i);
    DropAt(o, i);
    forall j | 0 <= j < |o| - 1
      ensures var t, d := UnlinkFree(s, o[i]), Drop(o, i);
              t[d[j]].nextFree == After(d, j) && t[d[j]].prevFree == Before(d, j)
    {
      UnlinkFreeStep(s, o, first, i, j);
    }
    assert first == o[i] <==> i == 0;
  }

  /** The stores of insert_into_queues that put b at the end of the free list. */
  function LinkTail(s: seq<Head>, b: nat, first: nat): seq<Head>
    requires b < |s| && first < |s| && 0 <= s[first].prevFree < |s| && b != first
  {
    var last := s[first].prevFree;
    var t := s[b := s[b].(nextFree := first, prevFree := last)];
    var u := t[last := t[last].(nextFree := b)];
    u[first := u[first].(prevFree := b)]
  }

  lemma LinkTailRing(s: seq<Head>, o: seq<nat>, first: nat, b: nat)
    requires Ring(s, o, first) && b < |s| && b !in o
    ensures b != first && 0 <= s[first].prevFree < |s| && s[first].prevFree != b
        && Ring(LinkTail(s, b, first), o + [b], first)
  {
    var n := |o|;
    assert s[o[0]].prevFree == o[n - 1];
    var t, d := LinkTail(s, b, first), o + [b];
    forall j | 0 <= j < |d|
      ensures t[d[j]].nextFree == After(d, j)
      ensures t[d[j]].prevFree == Before(d, j)
    {
    }
  }

  // ---------- hash chains ----------

  /** The unlinking stores on a hash chain. */
  function UnlinkHash(s: seq<Head>, b: nat): seq<Head>
    requires b < |s| && s[b].prev < |s| && s[b].next < |s|
  {
    var t := if s[b].next >= 0 then s[s[b].next := s[s[b].next].(prev := s[b].prev)] else s;
    if t[b].prev >= 0 then t[t[b].prev := t[t[b].prev].(next := t[b].next)] else t
  }

  lemma ChainNeighbours(c: seq<nat>, i: nat, j: nat)
    requires i < |c| && j < |c| - 1 && Distinct(c)
    ensures var k := Lift(i, j);
            && Next(Drop(c, i), j) == (if Next(c, k) == c[i] then Next(c, i) else Next(c, k))
            && Prev(Drop(c, i), j) == (if Prev(c, k) == c[i] then Prev(c, i) else Prev(c, k))
            && (Next(c, k) == c[i] <==> c[k] == Prev(c, i))
            && (Prev(c, k) == c[i] <==> c[k] == Next(c, i))
  {
  }

  /** What the unlinking stores do to the links of another header k. */
  lemma UnlinkHashAt(s: seq<Head>, b: nat, k: nat)
    requires b < |s| && NULL <= s[b].prev < |s| && NULL <= s[b].next < |s|
    requires s[b].prev != b && s[b].next != b && k < |s| && k != b
    ensures UnlinkHash(s, b)[k].next == if k == s[b].prev then s[b].next else s[k].next
    ensures UnlinkHash(s, b)[k].prev == if k == s[b].next then s[b].prev else s[k].prev
  {
  }

  lemma UnlinkHashStep(s: seq<Head>, c: seq<nat>, first: int, i: nat, j: nat)
    requires Chain(s, c, first) && i < |c| && j < |c| - 1
    requires s[c[i]].prev == Prev(c, i) && s[c[i]].next == Next(c, i) && Prev(c, i) < |s| && Next(c, i) < |s|
    ensures var t, d := UnlinkHash(s, c[i]), Drop(c, i);
            |d| == |c| - 1 && d[j] < |s| && t[d[j]].next == Next(d, j) && t[d[j]].prev == Prev(d, j)
  {
    var k := Lift(i, j);
    DropAt(c, i);
    ChainNeighbours(c, i, j);
    assert s[c[k]].next == Next(c, k) && s[c[k]].prev == Prev(c, k);
    assert c[k] != c[i] && Prev(c, i) != c[i] && Next(c, i) != c[i];
    UnlinkHashAt(s, c[i], c[k]);
  }

  lemma UnlinkHashChain(s: seq<Head>, c: seq<nat>, first: int, i: nat)
    requires Chain(s, c, first) && i < |c|
    ensures s[c[i]].prev < |s| && s[c[i]].next < |s|
    ensures Chain(UnlinkHash(s, c[i]), Drop(c, i), if first == c[i] then s[c[i]].next else first)
  {
    assert s[c[i]].prev == Prev(c, i) && s[c[i]].next == Next(c, i);
    DropAt(c, i);
    forall j | 0 <= j < |c| - 1
      ensures var t, d := UnlinkHash(s, c[i]), Drop(c, i);
              t[d[j]].next == Next(d, j) && t[d[j]].prev == Prev(d, j)
    {
      UnlinkHashStep(s, c, first, i, j);
    }
    assert first == c[i] <==> i == 0;
  }

  /** A chain sharing no header with those rewritten is untouched. */
  lemma OtherChain(s: seq<Head>, t: seq<Head>, c: seq<nat>, first: int)
    requires Chain(s, c, first) && |s| == |t|
    requires forall i :: 0 <= i < |c| ==> t[c[i]].next == s[c[i]].next && t[c[i]].prev == s[c[i]].prev
    ensures Chain(t, c, first)
  {
  }

  /** Pushing b on the front of a chain. */
  function Push(s: seq<Head>, b: nat, first: int): seq<Head>
    requires b < |s| && first < |s|
  {
    var t := s[b := s[b].(prev := NULL, next := first)];
    if first >= 0 then t[first := t[first].(prev := b)] else t
  }

  lemma PushChain(s: seq<Head>, c: seq<nat>, first: int, b: nat)
    requires Chain(s, c, first) && b < |s| && b !in c
    ensures first < |s| && Chain(Push(s, b, first), [b] + c, b)
  {
  }

  // ---------- whole lists ----------

  ghost function IndexIn(o: seq<nat>, x: nat): (i: nat)
    requires x in o
    ensures i < |o| && o[i] == x
  {
    var i :| 0 <= i < |o| && o[i] == x;
    i
  }

  /** o without x. */
  ghost function Without(o: seq<nat>, x: nat): seq<nat> {
    if x in o then Drop(o, IndexIn(o, x)) else o
  }

  ghost predicate SameFree(s: seq<Head>, t: seq<Head>) {
    |s| == |t| && forall k :: 0 <= k < |s| ==> t[k].nextFree == s[k].nextFree && t[k].prevFree == s[k].prevFree
  }

  ghost predicate SameLinks(h: Head, k: Head) {
    k.next == h.next && k.prev == h.prev && k.dev == h.dev && k.blocknr == h.blocknr
  }

  ghost predicate SameHash(s: seq<Head>, t: seq<Head>) {
    |s| == |t| && forall k :: 0 <= k < |s| ==> SameLinks(s[k], t[k])
  }

  /** All but the four links. */
  ghost predicate SameBody(h: Head, k: Head) {
    k == h.(next := k.next, prev := k.prev, nextFree := k.nextFree, prevFree := k.prevFree)
  }

  ghost predicate SameBodies(s: seq<Head>, t: seq<Head>) {
    |s| == |t| && forall k :: 0 <= k < |s| ==> SameBody(s[k], t[k])
  }

  lemma RingFrame(s: seq<Head>, t: seq<Head>, o: seq<nat>, first: int)
    requires Ring(s, o, first) && SameFree(s, t)
    ensures Ring(t, o, first)
  {
  }

  lemma ChainsFrame(s: seq<Head>, t: seq<Head>, cs: seq<seq<nat>>, table: seq<int>, out: int)
    requires Chains(s, cs, table, out) && SameHash(s, t)
    ensures Chains(t, cs, table, out)
  {
  }

  /** Headers off chain h keep their chain when only headers of chain h, or none on a chain, are rewritten. */
  lemma OtherChains(s: seq<Head>, t: seq<Head>, cs: seq<seq<nat>>, table: seq<int>, out: int, h: nat)
    requires Chains(s, cs, table, out) && |t| == |s| && h < NR_HASH
    requires forall k :: 0 <= k < |s| && k != out && s[k].dev != 0 && HashOf(s[k]) != h ==> t[k] == s[k]
    ensures forall h' :: 0 <= h' < NR_HASH && h' != h ==> Chain(t, cs[h'], table[h'])
  {
  }

  /** A link is NULL or another header that hashes alike. */
  ghost predicate Mate(s: seq<Head>, b: nat, link: int)
    requires b < |s|
  {
    link == NULL || (0 <= link < |s| && link != b && s[link].dev != 0 && HashOf(s[link]) == HashOf(s[b]))
  }

  lemma Mates(s: seq<Head>, cs: seq<seq<nat>>, table: seq<int>, b: nat)
    requires Chains(s, cs, table, NULL) && b < |s| && s[b].dev != 0
    ensures Mate(s, b, s[b].next) && Mate(s, b, s[b].prev)
  {
  }

  /** The unlinking stores rewrite only headers that hash like b, and only their chain links. */
  lemma UnlinkHashFrame(s: seq<Head>, b: nat)
    requires b < |s| && Mate(s, b, s[b].next) && Mate(s, b, s[b].prev)
    ensures SameFree(s, UnlinkHash(s, b)) && SameBodies(s, UnlinkHash(s, b))
    ensures forall k :: 0 <= k < |s| && s[k].dev == 0 ==> UnlinkHash(s, b)[k] == s[k]
    ensures forall k :: 0 <= k < |s| && HashOf(s[k]) != HashOf(s[b]) ==> UnlinkHash(s, b)[k] == s[k]
  {
    var t := UnlinkHash(s, b);
    forall k | 0 <= k < |s|
      ensures t[k] == s[k] || (SameBody(s[k], t[k]) && (k == s[b].next || k == s[b].prev))
    {
    }
  }

  /** The chains stay linked when header b, element i of its chain, is unlinked. */
  lemma UnlinkLinked(s: seq<Head>, cs: seq<seq<nat>>, table: seq<int>, b: nat, i: nat)
    requires Chains(s, cs, table, NULL) && b < |s| && s[b].dev != 0 && i < |cs[HashOf(s[b])]|
        && cs[HashOf(s[b])][i] == b
    ensures s[b].prev < |s| && s[b].next < |s|
    ensures var h := HashOf(s[b]);
            Linked(UnlinkHash(s, b), cs[h := Drop(cs[h], i)], if table[h] == b then table[h := s[b].next] else table)
  {
    var h := HashOf(s[b]);
    assert Chain(s, cs[h], table[h]);
    UnlinkHashChain(s, cs[h], table[h], i);
    Mates(s, cs, table, b);
    UnlinkHashFrame(s, b);
    OtherChains(s, UnlinkHash(s, b), cs, table, NULL, h);
  }

  /** Taking header b off its chain. */
  lemma UnlinkHashChains(s: seq<Head>, cs: seq<seq<nat>>, table: seq<int>, b: nat)
    requires Chains(s, cs, table, NULL) && b < |s| && s[b].dev != 0
    ensures s[b].prev < |s| && s[b].next < |s|
    ensures SameFree(s, UnlinkHash(s, b)) && SameBodies(s, UnlinkHash(s, b))
    ensures var h := HashOf(s[b]);
            Chains(UnlinkHash(s, b), cs[h := Without(cs[h], b)], if table[h] == b then table[h := s[b].next]
                else table, b)
  {
    var h := HashOf(s[b]);
    assert b in cs[h] && Chain(s, cs[h], table[h]);
    var i := IndexIn(cs[h], b);
    UnlinkLinked(s, cs, table, b, i);
    Mates(s, cs, table, b);
    UnlinkHashFrame(s, b);
    BodiesOffChain(s, UnlinkHash(s, b), cs, b, i);
  }

  /** Membership after header b, element i of its chain, is dropped: no identity changes. */
  lemma BodiesOffChain(s: seq<Head>, t: seq<Head>, cs: seq<seq<nat>>, b: nat, i: nat)
    requires |cs| == NR_HASH && OnlyHashed(s, cs, NULL) && AllHashed(s, cs, NULL) && NoLinks(s, NULL)
    requires SameBodies(s, t) && b < |s| && i < |cs[HashOf(s[b])]| && cs[HashOf(s[b])][i] == b
        && Distinct(cs[HashOf(s[b])])
    requires forall k :: 0 <= k < |s| && s[k].dev == 0 ==> t[k] == s[k]
    ensures var cs' := cs[HashOf(s[b]) := Drop(cs[HashOf(s[b])], i)];
            OnlyHashed(t, cs', b) && AllHashed(t, cs', b) && NoLinks(t, b)
  {
  }

  /** A header without identity is on no chain and has NULL links, so unlinking it stores nothing. */
  lemma UnlinkUnhashed(s: seq<Head>, cs: seq<seq<nat>>, table: seq<int>, b: nat)
    requires Chains(s, cs, table, NULL) && b < |s| && s[b].dev == 0
    ensures s[b].prev < |s| && s[b].next < |s| && UnlinkHash(s, b) == s
    ensures table[HashOf(s[b])] != b && Chains(s, cs, table, b)
  {
  }

  lemma LinkUnhashed(s: seq<Head>, cs: seq<seq<nat>>, table: seq<int>, b: nat)
    requires Chains(s, cs, table, b) && b < |s| && s[b].dev == 0
    ensures var t := s[b := s[b].(prev := NULL, next := NULL)];
            SameFree(s, t) && SameBodies(s, t) && Chains(t, cs, table, NULL)
  {
    var t := s[b := s[b].(prev := NULL, next := NULL)];
    forall h, i | 0 <= h < NR_HASH && 0 <= i < |cs[h]|
      ensures Belongs(t, cs[h][i], h, NULL) && t[cs[h][i]] == s[cs[h][i]]
    {
      assert Belongs(s, cs[h][i], h, b);
    }
    forall h | 0 <= h < NR_HASH
      ensures Chain(t, cs[h], table[h])
    {
      assert Chain(s, cs[h], table[h]);
      OtherChain(s, t, cs[h], table[h]);
    }
  }

  /** Pushing rewrites the pushed header and the old first of its chain, in their chain links only. */
  lemma PushFrame(s: seq<Head>, b: nat, first: int)
    requires b < |s| && s[b].dev != 0 && first != b && Mate(s, b, first)
    ensures SameFree(s, Push(s, b, first)) && SameBodies(s, Push(s, b, first))
    ensures forall k :: 0 <= k < |s| && s[k].dev == 0 ==> Push(s, b, first)[k] == s[k]
    ensures forall k :: 0 <= k < |s| && k != b && HashOf(s[k]) != HashOf(s[b]) ==> Push(s, b, first)[k] == s[k]
  {
  }

  lemma FirstIsMate(s: seq<Head>, cs: seq<seq<nat>>, table: seq<int>, b: nat)
    requires Chains(s, cs, table, b) && b < |s|
    ensures Mate(s, b, table[HashOf(s[b])]) && b !in cs[HashOf(s[b])]
  {
  }

  /** Membership after header b is pushed on its chain: no identity changes. */
  lemma BodiesOnChain(s: seq<Head>, t: seq<Head>, cs: seq<seq<nat>>, b: nat)
    requires |cs| == NR_HASH && OnlyHashed(s, cs, b) && AllHashed(s, cs, b) && NoLinks(s, b)
    requires SameBodies(s, t) && b < |s| && s[b].dev != 0
    requires forall k :: 0 <= k < |s| && s[k].dev == 0 ==> t[k] == s[k]
    ensures var cs' := cs[HashOf(s[b]) := [b] + cs[HashOf(s[b])]];
            OnlyHashed(t, cs', NULL) && AllHashed(t, cs', NULL) && NoLinks(t, NULL)
  {
  }

  lemma LinkHashChains(s: seq<Head>, cs: seq<seq<nat>>, table: seq<int>, b: nat)
    requires Chains(s, cs, table, b) && b < |s| && s[b].dev != 0
    ensures table[HashOf(s[b])] < |s|
    ensures var h := HashOf(s[b]); var t := Push(s, b, table[h]);
            SameFree(s, t) && SameBodies(s, t) && Chains(t, cs[h := [b] + cs[h]], table[h := b], NULL)
  {
    var h := HashOf(s[b]);
    FirstIsMate(s, cs, table, b);
    PushFrame(s, b, table[h]);
    var t := Push(s, b, table[h]);
    assert Chain(s, cs[h], table[h]);
    PushChain(s, cs[h], table[h], b);
    OtherChains(s, t, cs, table, b, h);
    hide Chain, OnlyHashed, AllHashed, NoLinks, SameBodies, SameFree;
    BodiesOnChain(s, t, cs, b);
  }

  /** The lists with header b off its hash chain, and off the free list too if it is not in o. */
  ghost predicate DetachedLists(s: seq<Head>, o: seq<nat>, first: int, cs: seq<seq<nat>>, table: seq<int>, b: nat) {
    && |s| >= 2 && b < |s| && Ring(s, o, first) && (forall k :: 0 <= k < |s| && k != b ==> k in o)
    && Chains(s, cs, table, b)
  }

  /** The hash table and the ghost chains once b is off its chain. */
  function TableWithout(s: seq<Head>, table: seq<int>, b: nat): seq<int>
    requires b < |s| && |table| == NR_HASH
  {
    var h := HashOf(s[b]);
    if table[h] == b then table[h := s[b].next] else table
  }

  ghost function ChainsWithout(s: seq<Head>, cs: seq<seq<nat>>, b: nat): seq<seq<nat>>
    requires b < |s| && |cs| == NR_HASH
  {
    if s[b].dev == 0 then cs else cs[HashOf(s[b]) := Without(cs[HashOf(s[b])], b)]
  }

  lemma OffHash(s: seq<Head>, o: seq<nat>, first: int, cs: seq<seq<nat>>, table: seq<int>, b: nat)
    requires Lists(s, o, first, cs, table) && b < |s|
    ensures NULL <= s[b].prev < |s| && NULL <= s[b].next < |s| && b in o
    ensures DetachedLists(UnlinkHash(s, b), o, first, ChainsWithout(s, cs, b), TableWithout(s, table, b), b)
    ensures SameBodies(s, UnlinkHash(s, b)) && UnlinkHash(s, b)[b].next == s[b].next
        && UnlinkHash(s, b)[b].dev == s[b].dev
  {
    hide Ring, Linked, OnlyHashed, AllHashed;
    if s[b].dev == 0 {
      UnlinkUnhashed(s, cs, table, b);
    } else {
      UnlinkHashChains(s, cs, table, b);
      Mates(s, cs, table, b);
    }
    RingFrame(s, UnlinkHash(s, b), o, first);
  }

  lemma WithoutIs(o: seq<nat>, x: nat)
    requires Distinct(o)
    ensures Distinct(Without(o, x)) && forall y :: y in Without(o, x) <==> y in o && y != x
  {
  }

  lemma UnlinkFreeFrame(s: seq<Head>, b: nat)
    requires b < |s| && 0 <= s[b].prevFree < |s| && 0 <= s[b].nextFree < |s|
    ensures SameHash(s, UnlinkFree(s, b)) && SameBodies(s, UnlinkFree(s, b))
  {
  }

  lemma LinkTailFrame(s: seq<Head>, b: nat, first: nat)
    requires b < |s| && first < |s| && 0 <= s[first].prevFree < |s| && b != first
    ensures SameHash(s, LinkTail(s, b, first)) && SameBodies(s, LinkTail(s, b, first))
  {
  }

  lemma OffFree(s: seq<Head>, o: seq<nat>, first: int, cs: seq<seq<nat>>, table: seq<int>, b: nat)
    requires DetachedLists(s, o, first, cs, table, b) && b in o
    ensures 0 <= s[b].prevFree < |s| && 0 <= s[b].nextFree < |s| && s[b].prevFree != b && s[b].nextFree != b
    ensures DetachedLists(UnlinkFree(s, b), Without(o, b), if first == b then s[b].nextFree else first, cs, table, b)
    ensures SameBodies(s, UnlinkFree(s, b)) && b !in Without(o, b)
  {
    assert |o| >= 2 by {
      var other := if b == 0 then 1 else 0;
      assert other in o;
    }
    assert Distinct(o);
    hide Ring, Chains, UnlinkFree, Drop;
    UnlinkFreeRing(s, o, first, IndexIn(o, b));
    WithoutIs(o, b);
    UnlinkFreeFrame(s, b);
    ChainsFrame(s, UnlinkFree(s, b), cs, table, b);
  }

  lemma OnFree(s: seq<Head>, o: seq<nat>, first: nat, cs: seq<seq<nat>>, table: seq<int>, b: nat)
    requires DetachedLists(s, o, first, cs, table, b) && b !in o
    ensures first < |s| && first != b && 0 <= s[first].prevFree < |s| && s[first].prevFree != b
    ensures DetachedLists(LinkTail(s, b, first), o + [b], first, cs, table, b)
    ensures SameBodies(s, LinkTail(s, b, first))
  {
    assert first < |s|;
    hide Ring, Chains, LinkTail;
    LinkTailRing(s, o, first, b);
    LinkTailFrame(s, b, first);
    ChainsFrame(s, LinkTail(s, b, first), cs, table, b);
  }

  /** Push, or just NULL links for a header without a device. */
  function LinkHash(s: seq<Head>, table: seq<int>, b: nat): seq<Head>
    requires b < |s| && |table| == NR_HASH && (forall h :: 0 <= h < NR_HASH ==> table[h] < |s|)
  {
    if s[b].dev == 0 then s[b := s[b].(prev := NULL, next := NULL)] else Push(s, b, table[HashOf(s[b])])
  }

  lemma TableInRange(s: seq<Head>, cs: seq<seq<nat>>, table: seq<int>, out: int)
    requires Chains(s, cs, table, out)
    ensures forall h :: 0 <= h < NR_HASH ==> NULL <= table[h] < |s|
  {
  }

  lemma OnHash(s: seq<Head>, o: seq<nat>, first: int, cs: seq<seq<nat>>, table: seq<int>, b: nat)
    requires DetachedLists(s, o, first, cs, table, b) && b in o && Unique(s)
    ensures forall h :: 0 <= h < NR_HASH ==> NULL <= table[h] < |s|
    ensures var h := HashOf(s[b]); var t := LinkHash(s, table, b);
            SameBodies(s, t)
            && Lists(t, o, first, if s[b].dev == 0 then cs else cs[h := [b] + cs[h]], if s[b].dev == 0 then table
                else table[h := b])
  {
    TableInRange(s, cs, table, b);
    if s[b].dev == 0 {
      LinkUnhashed(s, cs, table, b);
    } else {
      LinkHashChains(s, cs, table, b);
    }
    var t := LinkHash(s, table, b);
    RingFrame(s, t, o, first);
    UniqueFrame(s, t);
  }

  lemma UniqueFrame(s: seq<Head>, t: seq<Head>)
    requires Unique(s) && SameBodies(s, t)
    ensures Unique(t)
  {
  }
}
