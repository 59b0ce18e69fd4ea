/** Zones of a device as a value: which are in use, what indirect blocks hold, and the three-level block map of each
    inode (fs/inode.c, fs/truncate.c). */
module ZoneTree {

  /** Zone numbers in one indirect block. */
  const PER: nat := 512
  const MAX_BLOCK: nat := 7 + 512 + 512 * 512

  /** Where a zone hangs in an inode's tree. */
  datatype Place = Direct(i: nat) | Ind | InInd(k: nat) | Dind | Table(k: nat) | InDind(k: nat, l: nat)

  datatype Owner = Owner(ino: nat, place: Place)

  /** `used` and `store` are indexed by zone, `inodes` holds the nine zone numbers of each inode; `owner` is the place
      of every zone that hangs in a tree. */
  datatype Fs = Fs(used: seq<bool>, store: seq<seq<nat>>, inodes: seq<seq<nat>>, owner: map<nat, Owner>)

  predicate ValidPlace(p: Place) {
    match p
    case Direct(i) => i < 7
    case Ind => true
    case InInd(k) => k < PER
    case Dind => true
    case Table(k) => k < PER
    case InDind(k, l) => k < PER && l < PER
  }

  /** Places of file data, as opposed to indirect blocks. */
  predicate DataPlace(p: Place) {
    p.Direct? || p.InInd? || p.InDind?
  }

  predicate Sizes(fs: Fs) {
    && |fs.store| == |fs.used|
    && (forall z :: 0 <= z < |fs.store| ==> |fs.store[z]| == PER)
    && (forall n :: 0 <= n < |fs.inodes| ==> |fs.inodes[n]| == 9)
  }

  /** Entry k of indirect block z; nothing hangs below zone 0. */
  function Entry(fs: Fs, z: nat, k: nat): nat {
    if z != 0 && z < |fs.store| && k < |fs.store[z]| then fs.store[z][k] else 0
  }

  /** The zone at a place of inode n's tree, 0 if there is none. */
  function At(fs: Fs, n: nat, p: Place): nat
    requires n < |fs.inodes| && |fs.inodes[n]| == 9 && ValidPlace(p)
  {
    match p
    case Direct(i) => fs.inodes[n][i]
    case Ind => fs.inodes[n][7]
    case InInd(k) => Entry(fs, fs.inodes[n][7], k)
    case Dind => fs.inodes[n][8]
    case Table(k) => Entry(fs, fs.inodes[n][8], k)
    case InDind(k, l) => Entry(fs, Entry(fs, fs.inodes[n][8], k), l)
  }

  /** The zone at a valid place is in use and belongs to that place alone. */
  ghost predicate PlaceOk(fs: Fs, n: nat, p: Place)
    requires Sizes(fs) && n < |fs.inodes| && ValidPlace(p)
  {
    var z := At(fs, n, p);
    z != 0 ==> z < |fs.used| && fs.used[z] && z in fs.owner && fs.owner[z] == Owner(n, p)
  }

  ghost predicate OwnerOk(fs: Fs, z: nat)
    requires Sizes(fs) && z in fs.owner
  {
    var o := fs.owner[z];
    0 < z < |fs.used| && o.ino < |fs.inodes| && ValidPlace(o.place) && At(fs, o.ino, o.place) == z
  }

  ghost predicate Inv(fs: Fs) {
    && Sizes(fs) && |fs.used| > 0 && !fs.used[0]
    && (forall n, p {:trigger PlaceOk(fs, n, p)} :: 0 <= n < |fs.inodes| && ValidPlace(p) ==> PlaceOk(fs, n, p))
    && (forall z {:trigger OwnerOk(fs, z)} :: z in fs.owner ==> OwnerOk(fs, z))
  }

  /** Zones hanging in trees are pairwise distinct. */
  lemma ZonesAreDistinct(fs: Fs, n: nat, p: Place, m: nat, q: Place)
    requires Inv(fs) && n < |fs.inodes| && m < |fs.inodes| && ValidPlace(p) && ValidPlace(q)
    requires At(fs, n, p) == At(fs, m, q) != 0
    ensures n == m && p == q
  {
    assert PlaceOk(fs, n, p) && PlaceOk(fs, m, q);
  }

  /** Logical block b of a file. */
  function PlaceOf(b: nat): (p: Place)
    requires b < MAX_BLOCK
    ensures ValidPlace(p) && DataPlace(p)
  {
    if b < 7 then Direct(b)
    else if b < 7 + PER then InInd(b - 7)
    else InDind((b - 7 - PER) / PER, (b - 7 - PER) % PER)
  }

  lemma PlaceOfInjective(b: nat, c: nat)
    requires b < MAX_BLOCK && c < MAX_BLOCK && PlaceOf(b) == PlaceOf(c)
    ensures b == c
  {
  }

  /** bmap: the zone of block b, 0 for a hole. */
  function Bmap(fs: Fs, n: nat, b: nat): nat
    requires n < |fs.inodes| && |fs.inodes[n]| == 9 && b < MAX_BLOCK
  {
    At(fs, n, PlaceOf(b))
  }

  /** The indirect block whose entry a place is, if it is one. */
  function Parent(p: Place): Place
    requires p.InInd? || p.Table? || p.InDind?
  {
    match p
    case InInd(k) => Ind
    case Table(k) => Dind
    case InDind(k, l) => Table(k)
  }

  function Index(p: Place): nat
    requires p.InInd? || p.Table? || p.InDind?
  {
    match p
    case InInd(k) => k
    case Table(k) => k
    case InDind(k, l) => l
  }

  predicate InInode(p: Place) {
    p.Direct? || p.Ind? || p.Dind?
  }

  function InodeIndex(p: Place): nat
    requires InInode(p)
  {
    match p
    case Direct(i) => i
    case Ind => 7
    case Dind => 8
  }

  lemma AtByParent(fs: Fs, n: nat, p: Place)
    requires n < |fs.inodes| && |fs.inodes[n]| == 9 && ValidPlace(p)
    ensures InInode(p) ==> InodeIndex(p) < 9 && At(fs, n, p) == fs.inodes[n][InodeIndex(p)]
    ensures !InInode(p) ==> ValidPlace(Parent(p)) && At(fs, n, p) == Entry(fs, At(fs, n, Parent(p)), Index(p))
  {
  }

  function Cleared(): seq<nat> {
    seq(PER, i => 0)
  }

  /** A free zone z, cleared, put at an empty place whose parent exists. */
  function Attach(fs: Fs, n: nat, p: Place, z: nat): Fs
    requires Sizes(fs) && n < |fs.inodes| && ValidPlace(p) && z < |fs.used|
    requires InInode(p) || (At(fs, n, Parent(p)) < |fs.store| && ValidPlace(Parent(p)))
  {
    var zero: seq<seq<nat>> := fs.store[z := Cleared()];
    if InInode(p) then
      var zones: seq<nat> := fs.inodes[n][InodeIndex(p) := z];
      Fs(fs.used[z := true], zero, fs.inodes[n := zones], fs.owner[z := Owner(n, p)])
    else
      var t := At(fs, n, Parent(p));
      var entries: seq<nat> := zero[t][Index(p) := z];
      Fs(fs.used[z := true], zero[t := entries], fs.inodes, fs.owner[z := Owner(n, p)])
  }

  ghost predicate CanAttach(fs: Fs, n: nat, p: Place, z: nat) {
    && Inv(fs) && n < |fs.inodes| && ValidPlace(p) && 0 < z < |fs.used| && !fs.used[z] && At(fs, n, p) == 0
    && (InInode(p) || At(fs, n, Parent(p)) != 0)
  }

  /** Entries after Attach: only the new one differs, and the new zone has none. */
  lemma AttachEntries(fs: Fs, n: nat, p: Place, z: nat, y: nat, k: nat)
    requires Sizes(fs) && n < |fs.inodes| && ValidPlace(p) && 0 < z < |fs.used|
    requires InInode(p) || (0 < At(fs, n, Parent(p)) < |fs.store| && At(fs, n, Parent(p)) != z && ValidPlace(Parent(p)))
    ensures Sizes(Attach(fs, n, p, z))
    ensures Entry(Attach(fs, n, p, z), y, k)
         == if y == z then 0
            else if !InInode(p) && y == At(fs, n, Parent(p)) && k == Index(p) then z
            else Entry(fs, y, k)
  {
  }

  /** Nothing in a tree names an unused zone. */
  lemma NotNamed(fs: Fs, z: nat, m: nat, q: Place)
    requires Inv(fs) && 0 < z < |fs.used| && !fs.used[z] && m < |fs.inodes| && ValidPlace(q)
    ensures At(fs, m, q) != z && At(fs, m, q) < |fs.used| && z !in fs.owner
  {
    assert PlaceOk(fs, m, q);
    assert z in fs.owner ==> OwnerOk(fs, z) && PlaceOk(fs, fs.owner[z].ino, fs.owner[z].place);
  }

  /** After Attach the place holds the new zone and every other place of every inode what it held before. */
  lemma AttachAt(fs: Fs, n: nat, p: Place, z: nat, m: nat, q: Place)
    requires CanAttach(fs, n, p, z) && m < |fs.inodes| && ValidPlace(q)
    requires InInode(p) || (At(fs, n, Parent(p)) < |fs.store| && ValidPlace(Parent(p)))
    ensures Sizes(Attach(fs, n, p, z)) && |Attach(fs, n, p, z).inodes| == |fs.inodes|
    ensures At(Attach(fs, n, p, z), m, q) == if m == n && q == p then z else At(fs, m, q)
    decreases q.InDind?, q.Table? || q.InInd?
  {
    var t := Attach(fs, n, p, z);
    if !InInode(p) {
      NotNamed(fs, z, n, Parent(p));
    }
    AttachEntries(fs, n, p, z, 0, 0);
    AtByParent(t, m, q);
    AtByParent(fs, m, q);
    if !InInode(q) {
      AttachAt(fs, n, p, z, m, Parent(q));
      NotNamed(fs, z, m, Parent(q));
      AttachEntries(fs, n, p, z, At(t, m, Parent(q)), Index(q));
      if !InInode(p) && At(fs, m, Parent(q)) == At(fs, n, Parent(p)) {
        ZonesAreDistinct(fs, m, Parent(q), n, Parent(p));
      }
      if m == n && q == p {
      } else if m == n && Parent(q) == p {
        assert At(fs, m, q) == 0;
      }
    }
  }

  /** Attach keeps the invariant and the contents of every data zone. */
  lemma AttachKeeps(fs: Fs, n: nat, p: Place, z: nat)
    requires CanAttach(fs, n, p, z)
    ensures InInode(p) || (At(fs, n, Parent(p)) < |fs.store| && ValidPlace(Parent(p)))
    ensures Inv(Attach(fs, n, p, z))
    ensures forall y :: 0 <= y < |fs.used| ==> (Attach(fs, n, p, z).used[y] <==> fs.used[y] || y == z)
  {
    AtByParent(fs, n, p);
    if !InInode(p) {
      NotNamed(fs, z, n, Parent(p));
    }
    var t := Attach(fs, n, p, z);
    AttachEntries(fs, n, p, z, 0, 0);
    forall m, q | 0 <= m < |t.inodes| && ValidPlace(q)
      ensures PlaceOk(t, m, q)
    {
      AttachAt(fs, n, p, z, m, q);
      NotNamed(fs, z, m, q);
      assert PlaceOk(fs, m, q);
    }
    forall y | y in t.owner
      ensures OwnerOk(t, y)
    {
      if y != z {
        assert OwnerOk(fs, y);
        AttachAt(fs, n, p, z, fs.owner[y].ino, fs.owner[y].place);
      } else {
        AttachAt(fs, n, p, z, n, p);
      }
    }
  }

  lemma AttachKeepsData(fs: Fs, n: nat, p: Place, z: nat, m: nat, q: Place)
    requires CanAttach(fs, n, p, z) && m < |fs.inodes| && ValidPlace(q) && DataPlace(q) && At(fs, m, q) != 0
    requires InInode(p) || (At(fs, n, Parent(p)) < |fs.store| && ValidPlace(Parent(p)))
    ensures At(fs, m, q) < |fs.store| && Attach(fs, n, p, z).store[At(fs, m, q)] == fs.store[At(fs, m, q)]
  {
    NotNamed(fs, z, m, q);
    if !InInode(p) && At(fs, m, q) == At(fs, n, Parent(p)) {
      ZonesAreDistinct(fs, m, q, n, Parent(p));
    }
  }

  /** From a to b place p of inode n has got zone z, if it had none: no other place of any inode changed, no data zone
      changed its contents, exactly z is newly in use, and it came cleared. With z = 0 nothing changed. */
  ghost predicate Grown(a: Fs, b: Fs, n: nat, p: Place, z: nat) {
    && Inv(a) && Inv(b) && n < |a.inodes| == |b.inodes| && |a.used| == |b.used| && ValidPlace(p)
    && z == At(b, n, p) && z < |a.used|
    && (At(a, n, p) != 0 || z == 0 ==> b == a)
    && (forall m, q {:trigger At(b, m, q)} {:trigger At(a, m, q)} ::
        0 <= m < |a.inodes| && ValidPlace(q) && (m, q) != (n, p) ==> At(b, m, q) == At(a, m, q))
    && (forall m, q {:trigger At(b, m, q)} {:trigger At(a, m, q)} ::
        0 <= m < |a.inodes| && ValidPlace(q) && DataPlace(q) && At(a, m, q) != 0 ==> SameData(a, b, At(a, m, q)))
    && (forall y :: 0 <= y < |a.used| ==> (b.used[y] <==> a.used[y] || (y == z && z != 0)))
    && (At(a, n, p) == 0 && z != 0 ==> !a.used[z] && b.store[z] == Cleared())
  }

  ghost predicate SameData(a: Fs, b: Fs, z: nat) {
    z < |a.store| && z < |b.store| && b.store[z] == a.store[z]
  }

  lemma GrownSame(a: Fs, n: nat, p: Place, z: nat)
    requires Inv(a) && n < |a.inodes| && ValidPlace(p) && z == At(a, n, p)
    ensures Grown(a, a, n, p, z)
  {
    assert PlaceOk(a, n, p);
    forall m, q | 0 <= m < |a.inodes| && ValidPlace(q) && DataPlace(q) && At(a, m, q) != 0
      ensures SameData(a, a, At(a, m, q))
    {
      assert PlaceOk(a, m, q);
    }
  }

  lemma GrownAttach(a: Fs, n: nat, p: Place, z: nat)
    requires CanAttach(a, n, p, z)
    ensures InInode(p) || (At(a, n, Parent(p)) < |a.store| && ValidPlace(Parent(p)))
    ensures Grown(a, Attach(a, n, p, z), n, p, z)
  {
    AttachKeeps(a, n, p, z);
    var b := Attach(a, n, p, z);
    if !InInode(p) {
      NotNamed(a, z, n, Parent(p));
    }
    forall m, q | 0 <= m < |a.inodes| && ValidPlace(q)
      ensures At(b, m, q) == if m == n && q == p then z else At(a, m, q)
      ensures DataPlace(q) && At(a, m, q) != 0 ==> SameData(a, b, At(a, m, q))
    {
      AttachAt(a, n, p, z, m, q);
      if DataPlace(q) && At(a, m, q) != 0 {
        AttachKeepsData(a, n, p, z, m, q);
      }
    }
  }

  /** From a to b only block p of inode n may have been filled: every other file block keeps its zone and every existing
      one its contents, no zone is given up, and zones newly in use hang in inode n's tree. */
  ghost predicate Kept(a: Fs, b: Fs, n: nat, p: Place) {
    && Inv(a) && Inv(b) && n < |a.inodes| == |b.inodes| && |a.used| == |b.used|
    && (forall m, q {:trigger At(b, m, q)} {:trigger At(a, m, q)} ::
        0 <= m < |a.inodes| && ValidPlace(q) && DataPlace(q) && (m, q) != (n, p) ==> At(b, m, q) == At(a, m, q))
    && (forall m, q {:trigger At(b, m, q)} {:trigger At(a, m, q)} ::
        0 <= m < |a.inodes| && ValidPlace(q) && DataPlace(q) && At(a, m, q) != 0 ==> SameData(a, b, At(a, m, q)))
    && (forall m, q {:trigger At(b, m, q)} {:trigger At(a, m, q)} ::
        0 <= m < |a.inodes| && ValidPlace(q) && At(a, m, q) != 0 ==> At(b, m, q) == At(a, m, q))
    && (forall y {:trigger b.used[y]} :: 0 <= y < |a.used| && a.used[y] ==> b.used[y])
    && (forall y {:trigger b.used[y]} :: 0 <= y < |a.used| && b.used[y] && !a.used[y] ==>
        y in b.owner && b.owner[y].ino == n)
  }

  lemma GrownIsKept(a: Fs, b: Fs, n: nat, p: Place, z: nat, d: Place)
    requires Grown(a, b, n, p, z) && (p == d || !DataPlace(p))
    ensures Kept(a, b, n, d)
  {
    assert PlaceOk(b, n, p);
    assert z != 0 ==> z in b.owner && b.owner[z].ino == n;
  }

  lemma KeptTrans(a: Fs, b: Fs, c: Fs, n: nat, p: Place)
    requires Kept(a, b, n, p) && Kept(b, c, n, p) && ValidPlace(p) && DataPlace(p)
    ensures Kept(a, c, n, p)
  {
    forall m, q | 0 <= m < |a.inodes| && ValidPlace(q) && DataPlace(q) && At(a, m, q) != 0
      ensures SameData(a, c, At(a, m, q))
    {
      assert At(b, m, q) == At(a, m, q) && At(c, m, q) == At(b, m, q);
      assert SameData(a, b, At(a, m, q)) && SameData(b, c, At(b, m, q));
    }
    forall m, q | 0 <= m < |a.inodes| && ValidPlace(q) && (At(a, m, q) != 0 || (DataPlace(q) && (m, q) != (n, p)))
      ensures At(c, m, q) == At(a, m, q)
    {
      assert At(b, m, q) == At(a, m, q);
    }
    forall y | 0 <= y < |a.used| && c.used[y] && !a.used[y]
      ensures y in c.owner && c.owner[y].ino == n
    {
      if b.used[y] {
        assert OwnerOk(b, y);
        var o := b.owner[y];
        assert At(c, o.ino, o.place) == y;
        assert PlaceOk(c, o.ino, o.place);
      }
    }
  }

  /** What create_block promises: block k of inode n is mapped to z; the map of every other block of every inode, and
      the contents of all mapped blocks, stay; with z = 0 the whole map stays. */
  lemma KeptIsMapped(a: Fs, b: Fs, n: nat, k: nat)
    requires n < |a.inodes| && k < MAX_BLOCK && Kept(a, b, n, PlaceOf(k))
    ensures forall m, c {:trigger Bmap(b, m, c)} ::
        0 <= m < |a.inodes| && 0 <= c < MAX_BLOCK && ((m, c) != (n, k) || Bmap(b, n, k) == 0) ==>
              Bmap(b, m, c) == Bmap(a, m, c)
    ensures forall m, c {:trigger Bmap(b, m, c)} :: 0 <= m < |a.inodes| && 0 <= c < MAX_BLOCK && Bmap(a, m, c) != 0 ==>
              SameData(a, b, Bmap(a, m, c))
  {
    forall m, c | 0 <= m < |a.inodes| && 0 <= c < MAX_BLOCK
      ensures (m, c) != (n, k) || Bmap(b, n, k) == 0 ==> Bmap(b, m, c) == Bmap(a, m, c)
      ensures Bmap(a, m, c) != 0 ==> SameData(a, b, Bmap(a, m, c))
    {
      assert At(b, m, PlaceOf(c)) == Bmap(b, m, c);
      if PlaceOf(c) == PlaceOf(k) {
        PlaceOfInjective(c, k);
      }
    }
  }

  // ---------- truncate ----------

  /** The order in which truncate visits the places of a tree. */
  function Turn(p: Place): nat {
    match p
    case Direct(i) => i
    case InInd(k) => 7 + k
    case Ind => 7 + PER
    case InDind(k, l) => 8 + PER + k * (PER + 1) + l
    case Table(k) => 8 + PER + k * (PER + 1) + PER
    case Dind => 8 + PER + PER * (PER + 1)
  }

  const TURNS: nat := 9 + PER + PER * (PER + 1)

  lemma TurnsDiffer(p: Place, q: Place)
    requires ValidPlace(p) && ValidPlace(q) && Turn(p) == Turn(q)
    ensures p == q
  {
  }

  /** Zone z belongs to inode n and truncate has had it before turn r. */
  ghost predicate Freed(fs: Fs, n: nat, r: nat, z: nat) {
    z in fs.owner && fs.owner[z].ino == n && Turn(fs.owner[z].place) < r
  }

  /** The zones still in use when truncate of inode n reaches turn r. */
  ghost predicate UsedAt(fs: Fs, used: seq<bool>, n: nat, r: nat) {
    |used| == |fs.used| && forall z :: 0 <= z < |used| ==> (used[z] <==> fs.used[z] && !Freed(fs, n, r, z))
  }

  /** At the turn of a place without a zone nothing changes; at the turn of one with a zone, that zone is still in use
      and is the one to go. */
  lemma TakeTurn(fs: Fs, used: seq<bool>, n: nat, p: Place)
    requires Inv(fs) && n < |fs.inodes| && ValidPlace(p) && UsedAt(fs, used, n, Turn(p))
    ensures At(fs, n, p) == 0 ==> UsedAt(fs, used, n, Turn(p) + 1)
    ensures At(fs, n, p) != 0 ==>
        At(fs, n, p) < |used| && used[At(fs, n, p)] && UsedAt(fs, used[At(fs, n, p) := false], n, Turn(p) + 1)
  {
    assert PlaceOk(fs, n, p);
    forall z | 0 <= z < |used| && z in fs.owner && fs.owner[z].ino == n && Turn(fs.owner[z].place) == Turn(p)
      ensures z == At(fs, n, p) != 0
    {
      assert OwnerOk(fs, z);
      TurnsDiffer(fs.owner[z].place, p);
    }
  }

  /** Without an indirect block the turns of its entries do nothing. */
  lemma SkipTurns(fs: Fs, used: seq<bool>, n: nat, r: nat, r': nat)
    requires Inv(fs) && n < |fs.inodes| && r <= r' && UsedAt(fs, used, n, r)
    requires forall p {:trigger Turn(p)} :: ValidPlace(p) && r <= Turn(p) < r' ==> At(fs, n, p) == 0
    ensures UsedAt(fs, used, n, r')
  {
    forall z | 0 <= z < |used| && z in fs.owner && fs.owner[z].ino == n
      ensures !(r <= Turn(fs.owner[z].place) < r')
    {
      assert OwnerOk(fs, z);
    }
  }

  /** The inode after truncate, and the owners that are left. */
  ghost function Emptied(fs: Fs, used: seq<bool>, n: nat): Fs
    requires n < |fs.inodes|
  {
    Fs(used, fs.store, fs.inodes[n := NoZones()], map z | z in fs.owner && fs.owner[z].ino != n :: fs.owner[z])
  }

  function NoZones(): seq<nat> {
    [0, 0, 0, 0, 0, 0, 0, 0, 0]
  }

  /** truncate conserves zones: exactly the zones of inode n's tree are free afterwards, all its places are empty, the
      other trees are untouched and the invariant holds. */
  lemma TruncateConserves(fs: Fs, used: seq<bool>, n: nat)
    requires Inv(fs) && n < |fs.inodes| && UsedAt(fs, used, n, TURNS)
    ensures Inv(Emptied(fs, used, n))
    ensures forall z :: 0 <= z < |used| ==>
        (used[z] <==> fs.used[z] && !(exists p {:trigger At(fs, n, p)} :: ValidPlace(p) && At(fs, n, p) == z != 0))
    ensures forall m, q {:trigger At(fs, m, q)} | 0 <= m < |fs.inodes|
        && ValidPlace(q) :: At(Emptied(fs, used, n), m, q) == if m == n then 0 else At(fs, m, q)
  {
    var t := Emptied(fs, used, n);
    forall z | 0 <= z < |used|
      ensures used[z] <==> fs.used[z] && !(exists p {:trigger At(fs, n, p)} :: ValidPlace(p) && At(fs, n, p) == z != 0)
    {
      if Freed(fs, n, TURNS, z) {
        assert OwnerOk(fs, z);
        assert At(fs, n, fs.owner[z].place) == z;
      }
      if exists p {:trigger At(fs, n, p)} :: ValidPlace(p) && At(fs, n, p) == z != 0 {
        var p {:trigger At(fs, n, p)} :| ValidPlace(p) && At(fs, n, p) == z != 0;
        assert PlaceOk(fs, n, p);
        LastTurn(p);
      }
    }
    forall m, q | 0 <= m < |fs.inodes| && ValidPlace(q)
      ensures At(t, m, q) == (if m == n then 0 else At(fs, m, q)) && PlaceOk(t, m, q)
    {
      assert PlaceOk(fs, m, q);
    }
    forall z | z in t.owner
      ensures OwnerOk(t, z)
    {
      assert OwnerOk(fs, z);
    }
  }

  lemma LastTurn(p: Place)
    requires ValidPlace(p)
    ensures Turn(p) < TURNS
  {
  }

  /** Entry i of the indirect block at place p. */
  function Child(p: Place, i: nat): (c: Place)
    requires p.Ind? || p.Table?
    ensures !InInode(c) && Parent(c) == p && Index(c) == i
  {
    if p.Ind? then InInd(i) else InDind(p.k, i)
  }

  /** The entries of an indirect block take the turns just before the block's own. */
  lemma ChildTurns(p: Place, i: nat)
    requires (p.Ind? || p.Table?) && ValidPlace(p) && i < PER
    ensures ValidPlace(Child(p, i)) && Turn(Child(p, i)) == Turn(p) - PER + i
  {
  }

  lemma OnlyChildTurns(p: Place, q: Place)
    requires (p.Ind? || p.Table?) && ValidPlace(p) && ValidPlace(q) && Turn(p) - PER <= Turn(q) < Turn(p)
    ensures !InInode(q) && Parent(q) == p
  {
  }

  /** The double-indirect tree takes all turns between the single-indirect block and itself. */
  lemma OnlyTableTurns(q: Place)
    requires ValidPlace(q) && Turn(Ind) < Turn(q) < Turn(Dind)
    ensures q.Table? || q.InDind?
  {
  }
}
