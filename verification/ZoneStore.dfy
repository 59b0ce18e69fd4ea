/** Zone bitmap, block map and truncation of fs/bitmap.c, fs/inode.c and fs/truncate.c, in place over an ideal block
    store: bread always succeeds and no block is held by anyone else. */
module ZoneStore {
  import opened FileOrder
  import opened ZoneTree

  const Z_MAP_SLOTS: nat := 8
  const BITS: nat := 8192

  class Device {
    /** One row per zone-map block, one column per bit. */
    const bits: array2<bool>
    /** Which of s_zmap[] are present. */
    const loaded: seq<bool>
    const store: array<seq<nat>>
    const inodes: array<seq<nat>>
    /** s_firstdatazone and s_nzones. */
    const first: nat
    const nzones: nat
    ghost var owner: map<nat, Owner>

    /** Bit j of the zone map, over all its blocks. */
    predicate Bit(j: nat)
      requires bits.Length0 == Z_MAP_SLOTS && bits.Length1 == BITS && j < Z_MAP_SLOTS * BITS
      reads bits
    {
      bits[j / BITS, j % BITS]
    }

    /** Sizes, and a zone map with a bit for every zone: bit z - first + 1 stands for zone z. */
    ghost predicate Geometry() {
      && bits.Length0 == Z_MAP_SLOTS && bits.Length1 == BITS && |loaded| == Z_MAP_SLOTS
      && bits as object != store && bits as object != inodes && store as object != inodes
      && 1 <= first <= nzones < 0x1_0000 && store.Length == nzones
      && (forall j :: 0 <= j <= nzones - first ==> loaded[j / BITS])
    }

    /** The bits that stand for no zone are set: bit 0 and those from the last zone on. */
    ghost predicate Padded()
      requires Geometry()
      reads bits
    {
      Bit(0) && forall j {:trigger Bit(j)} :: nzones - first < j < Z_MAP_SLOTS * BITS && loaded[j / BITS] ==> Bit(j)
    }

    predicate InUse(z: nat)
      requires bits.Length0 == Z_MAP_SLOTS && bits.Length1 == BITS && first >= 1 && z < 0x1_0000
      reads bits
    {
      z >= first && Bit(z - first + 1)
    }

    ghost function Used(): (u: seq<bool>)
      requires Geometry()
      reads bits
      ensures |u| == nzones && forall z :: 0 <= z < nzones ==> u[z] == InUse(z)
    {
      seq(nzones, z requires 0 <= z < nzones && Geometry() reads bits => InUse(z))
    }

    ghost function Abs(): Fs
      requires Geometry()
      reads this, bits, store, inodes
    {
      Fs(Used(), store[..], inodes[..], owner)
    }

    ghost predicate Valid()
      reads this, bits, store, inodes
    {
      Geometry() && Padded() && Inv(Abs())
    }

    /** find_first_zero: the lowest clear bit of one map block, or 8192. */
    method FindFirstZero(i: nat) returns (j: nat)
      requires bits.Length0 == Z_MAP_SLOTS && bits.Length1 == BITS && i < Z_MAP_SLOTS
      ensures j <= BITS && (j < BITS ==> !bits[i, j]) && forall k :: 0 <= k < j ==> bits[i, k]
    {
      j := 0;
      while j < BITS && bits[i, j]
        invariant j <= BITS && forall k :: 0 <= k < j ==> bits[i, k]
      {
        j := j + 1;
      }
    }

    /** The search of new_block: the lowest clear bit among the map blocks present, or -1. */
    method FindClear() returns (j: int)
      requires Geometry()
      ensures j == -1 || 0 <= j < Z_MAP_SLOTS * BITS
      ensures j >= 0 ==> loaded[j / BITS] && !Bit(j)
      ensures forall k {:trigger Bit(k)} :: 0 <= k < (if j == -1 then Z_MAP_SLOTS * BITS else j) && loaded[k / BITS] ==>
          Bit(k)
    {
      var i := 0;
      while i < Z_MAP_SLOTS
        invariant 0 <= i <= Z_MAP_SLOTS
        invariant forall k {:trigger Bit(k)} :: 0 <= k < i * BITS && loaded[k / BITS] ==> Bit(k)
      {
        if loaded[i] {
          var b := FindFirstZero(i);
          if b < BITS {
            return i * BITS + b;
          }
        }
        i := i + 1;
      }
      j := -1;
    }

    /** new_block: takes the lowest clear bit j. A bit beyond the last zone is set and lost, and 0 returned; otherwise
        its zone is cleared and returned. */
    method NewBlock() returns (z: nat, ghost j: int)
      requires Geometry()
      modifies bits, store
      ensures j == -1 || 0 <= j < Z_MAP_SLOTS * BITS
      ensures forall k {:trigger Bit(k)} :: 0 <= k < Z_MAP_SLOTS * BITS ==> Bit(k) == (old(Bit(k)) || k == j)
      ensures j >= 0 ==> loaded[j / BITS] && !old(Bit(j))
      ensures forall k {:trigger old(Bit(k))} ::
          0 <= k < (if j == -1 then Z_MAP_SLOTS * BITS else j) && loaded[k / BITS] ==> old(Bit(k))
      ensures z == if j == -1 || j + first - 1 >= nzones then 0 else j + first - 1
      ensures j >= 0 && j + first - 1 < nzones ==> store[..] == old(store[..])[j + first - 1 := Cleared()]
      ensures j == -1 || j + first - 1 >= nzones ==> store[..] == old(store[..])
    {
      var b := FindClear();
      j := b;
      forall k | 0 <= k < (if j == -1 then Z_MAP_SLOTS * BITS else j) && loaded[k / BITS]
        ensures old(Bit(k))
      {
        assert Bit(k);
      }
      if b == -1 {
        return 0, j;
      }
      bits[b / BITS, b % BITS] := true;
      z := b + first - 1;
      if z >= nzones {
        return 0, j;
      }
      store[z] := Cleared();
    }

    /** new_block on a padded map: the lowest-numbered free zone, cleared; 0, with nothing changed, if and only if every
        zone is in use. */
    method AllocateZone() returns (z: nat)
      requires Geometry() && Padded()
      modifies bits, store
      ensures Padded()
      ensures z == 0 ==> Used() == old(Used()) && store[..] == old(store[..])
      ensures z == 0 <==> forall y :: first <= y < nzones ==> old(InUse(y))
      ensures z != 0 ==> first <= z < nzones && !old(InUse(z)) && forall y :: first <= y < z ==> old(InUse(y))
      ensures z != 0 ==> Used() == old(Used())[z := true] && store[..] == old(store[..])[z := Cleared()]
      ensures forall k {:trigger Bit(k)} :: 0 <= k < Z_MAP_SLOTS * BITS ==>
          Bit(k) == (old(Bit(k)) || (z != 0 && k == z - first + 1))
    {
      ghost var j;
      z, j := NewBlock();
      assert j != -1 ==> !old(Bit(j));
      assert z != 0 ==> !old(InUse(z));
      forall y | first <= y < (if z == 0 then nzones else z)
        ensures old(InUse(y))
      {
        assert loaded[(y - first + 1) / BITS];
        assert old(Bit(y - first + 1));
      }
    }

    /** free_block: panics outside the data zones or when the bit is already clear. `held` says that the block's cached
        buffer is held by somebody else; the zone then stays in use. */
    method FreeBlock(z: nat, held: bool) returns (panic: bool)
      requires Geometry()
      modifies bits
      ensures panic <==> z < first || z >= nzones || (!held && !old(InUse(z)))
      ensures z < nzones && !held ==> Used() == old(Used())[z := false]
      ensures z >= nzones || held ==> Used() == old(Used())
      ensures old(Padded()) ==> Padded()
      ensures forall k {:trigger Bit(k)} :: 0 <= k < Z_MAP_SLOTS * BITS && (z < first || k != z - first + 1) ==>
          Bit(k) == old(Bit(k))
    {
      if z < first || z >= nzones {
        return true;
      }
      if held {
        return false;
      }
      var j := z - first + 1;
      panic := !bits[j / BITS, j % BITS];
      bits[j / BITS, j % BITS] := false;
      forall k | 0 <= k < Z_MAP_SLOTS * BITS && k != j
        ensures Bit(k) == old(Bit(k))
      {
      }
      if old(Padded()) {
        forall k | nzones - first < k < Z_MAP_SLOTS * BITS && loaded[k / BITS]
          ensures Bit(k)
        {
          assert old(Bit(k));
        }
        assert old(Bit(0));
      }
    }

    /** Freeing the zone just taken puts the bitmap back as it was. */
    method AllocateAndFree() returns (z: nat)
      requires Geometry() && Padded()
      modifies bits, store
      ensures Used() == old(Used())
      ensures forall k {:trigger Bit(k)} :: 0 <= k < Z_MAP_SLOTS * BITS ==> Bit(k) == old(Bit(k))
    {
      z := AllocateZone();
      if z != 0 {
        var panic := FreeBlock(z, false);
        assert !panic;
        assert Used() == old(Used());
        assert !old(Bit(z - first + 1)) && !Bit(z - first + 1) by {
          assert !old(InUse(z)) && !InUse(z);
        }
      }
    }

    /** One level of _bmap with create set: place p of inode n, an entry of indirect block t unless it is in the inode,
        gets a zone if it has none and one is free. */
    method EnsurePlace(n: nat, p: Place, t: nat) returns (z: nat)
      requires Valid() && n < inodes.Length && ValidPlace(p)
      requires !InInode(p) ==> t != 0 && t == At(Abs(), n, Parent(p))
      modifies this`owner, bits, store, inodes
      ensures Valid() && Grown(old(Abs()), Abs(), n, p, z)
      ensures z == 0 ==> forall y :: first <= y < nzones ==> InUse(y)
    {
      ghost var a := Abs();
      AtByParent(a, n, p);
      if !InInode(p) {
        assert PlaceOk(a, n, Parent(p));
      }
      z := if InInode(p) then inodes[n][InodeIndex(p)] else store[t][Index(p)];
      if z != 0 {
        GrownSame(a, n, p, z);
        return;
      }
      z := AllocateZone();
      if z == 0 {
        GrownSame(a, n, p, z);
        assert Abs() == a;
        return;
      }
      GrownAttach(a, n, p, z);
      AttachHere(n, p, t, z, a);
    }

    /** Storing the new zone's number in the inode or in the indirect block. */
    method AttachHere(n: nat, p: Place, t: nat, z: nat, ghost a: Fs)
      requires Geometry() && Padded() && CanAttach(a, n, p, z) && n < inodes.Length && inodes[..] == a.inodes
          && |a.store| == nzones
      requires Used() == a.used[z := true] && store[..] == a.store[z := Cleared()] && owner == a.owner
      requires !InInode(p) ==> t == At(a, n, Parent(p)) < nzones
      modifies this`owner, store, inodes
      ensures Valid() && Abs() == Attach(a, n, p, z)
    {
      if !InInode(p) {
        NotNamed(a, z, n, Parent(p));
      }
      AttachKeeps(a, n, p, z);
      hide Inv;
      if InInode(p) {
        inodes[n] := inodes[n][InodeIndex(p) := z];
      } else {
        store[t] := store[t][Index(p) := z];
      }
      owner := owner[z := Owner(n, p)];
      assert store[..] == Attach(a, n, p, z).store;
      assert Abs() == Attach(a, n, p, z);
    }

    /** create_block: _bmap with create set. The block number is checked first; out of range is a panic. */
    method CreateBlock(n: nat, block: int) returns (panic: bool, z: nat)
      requires Valid() && n < inodes.Length
      modifies this`owner, bits, store, inodes
      ensures Valid() && (panic <==> block < 0 || block >= FILE_BLOCKS)
      ensures panic ==> Abs() == old(Abs())
      ensures !panic ==> z == Blocks(Abs(), n)[block] && Blocks(Abs(), n) == old(Blocks(Abs(), n))[block := z]
      ensures !panic ==>
          forall m :: 0 <= m < inodes.Length && m != n ==> Blocks(Abs(), m) == old(Blocks(Abs(), m))
      ensures !panic ==> Kept(old(Abs()), Abs(), n, PlaceOf(block)) && z == Bmap(Abs(), n, block)
      ensures !panic && Bmap(old(Abs()), n, block) != 0 ==> Abs() == old(Abs())
      ensures !panic && Bmap(old(Abs()), n, block) == 0 && z != 0 ==>
          z < nzones && !old(Abs()).used[z] && Abs().store[z] == Cleared()
      ensures !panic && z == 0 ==> forall y :: first <= y < nzones ==> InUse(y)
    {
      if block < 0 || block >= MAX_BLOCK {
        return true, 0;
      }
      panic := false;
      ghost var a := Abs();
      z := CreateAt(n, block);
      forall m | 0 <= m < inodes.Length
        ensures Blocks(Abs(), m) == if m == n then Blocks(a, n)[block := z] else Blocks(a, m)
      {
        KeptIsListed(a, Abs(), n, block, m);
      }
      BmapIsListed(Abs(), n, block);
    }

    /** The three branches. */
    method CreateAt(n: nat, block: nat) returns (z: nat)
      requires Valid() && n < inodes.Length && block < MAX_BLOCK
      modifies this`owner, bits, store, inodes
      ensures Valid() && Kept(old(Abs()), Abs(), n, PlaceOf(block)) && z == Bmap(Abs(), n, block)
      ensures Bmap(old(Abs()), n, block) != 0 ==> Abs() == old(Abs())
      ensures Bmap(old(Abs()), n, block) == 0 && z != 0 ==>
          z < nzones && !old(Abs()).used[z] && Abs().store[z] == Cleared()
      ensures z == 0 ==> forall y :: first <= y < nzones ==> InUse(y)
    {
      ghost var a := Abs();
      if block < 7 {
        z := EnsurePlace(n, Direct(block), 0);
        GrownIsKept(a, Abs(), n, Direct(block), z, Direct(block));
        return;
      }
      if block - 7 < PER {
        z := CreateSingle(n, block - 7);
        return;
      }
      z := CreateDouble(n, (block - 7 - PER) / PER, (block - 7 - PER) % PER);
    }

    /** The single-indirect branch. */
    method CreateSingle(n: nat, k: nat) returns (z: nat)
      requires Valid() && n < inodes.Length && k < PER
      modifies this`owner, bits, store, inodes
      ensures Valid() && Kept(old(Abs()), Abs(), n, InInd(k)) && z == At(Abs(), n, InInd(k))
      ensures At(old(Abs()), n, InInd(k)) != 0 ==> Abs() == old(Abs())
      ensures At(old(Abs()), n, InInd(k)) == 0 && z != 0 ==>
          z < nzones && !old(Abs()).used[z] && Abs().store[z] == Cleared()
      ensures z == 0 ==> forall y :: first <= y < nzones ==> InUse(y)
    {
      ghost var a := Abs();
      var t := EnsurePlace(n, Ind, 0);
      ghost var b := Abs();
      GrownIsKept(a, b, n, Ind, t, InInd(k));
      if t == 0 {
        return 0;
      }
      z := EnsurePlace(n, InInd(k), t);
      GrownIsKept(b, Abs(), n, InInd(k), z, InInd(k));
      KeptTrans(a, b, Abs(), n, InInd(k));
      assert At(b, n, InInd(k)) == At(a, n, InInd(k));
    }

    /** The double-indirect branch. */
    method CreateDouble(n: nat, k: nat, l: nat) returns (z: nat)
      requires Valid() && n < inodes.Length && k < PER && l < PER
      modifies this`owner, bits, store, inodes
      ensures Valid() && Kept(old(Abs()), Abs(), n, InDind(k, l)) && z == At(Abs(), n, InDind(k, l))
      ensures At(old(Abs()), n, InDind(k, l)) != 0 ==> Abs() == old(Abs())
      ensures At(old(Abs()), n, InDind(k, l)) == 0 && z != 0 ==>
          z < nzones && !old(Abs()).used[z] && Abs().store[z] == Cleared()
      ensures z == 0 ==> forall y :: first <= y < nzones ==> InUse(y)
    {
      ghost var a := Abs();
      var t := EnsurePlace(n, Dind, 0);
      ghost var b := Abs();
      GrownIsKept(a, b, n, Dind, t, InDind(k, l));
      if t == 0 {
        return 0;
      }
      var u := EnsurePlace(n, Table(k), t);
      ghost var c := Abs();
      GrownIsKept(b, c, n, Table(k), u, InDind(k, l));
      KeptTrans(a, b, c, n, InDind(k, l));
      if u == 0 {
        return 0;
      }
      z := EnsurePlace(n, InDind(k, l), u);
      GrownIsKept(c, Abs(), n, InDind(k, l), z, InDind(k, l));
      KeptTrans(a, c, Abs(), n, InDind(k, l));
      assert At(c, n, InDind(k, l)) == At(b, n, InDind(k, l)) == At(a, n, InDind(k, l));
    }

    /** bmap: _bmap without create. */
    method BMap(n: nat, block: int) returns (panic: bool, z: nat)
      requires Valid() && n < inodes.Length
      ensures panic <==> block < 0 || block >= FILE_BLOCKS
      ensures !panic ==> z == Blocks(Abs(), n)[block] && z == Bmap(Abs(), n, block)
    {
      if block < 0 || block >= MAX_BLOCK {
        return true, 0;
      }
      panic := false;
      ghost var a := Abs();
      BmapIsListed(a, n, block);
      hide Blocks;
      if block < 7 {
        return false, inodes[n][block];
      }
      var b: nat := block - 7;
      if b < PER {
        assert PlaceOk(a, n, Ind);
        if inodes[n][7] == 0 {
          return false, 0;
        }
        return false, store[inodes[n][7]][b];
      }
      b := b - PER;
      assert PlaceOk(a, n, Dind);
      if inodes[n][8] == 0 {
        return false, 0;
      }
      assert PlaceOk(a, n, Table(b / PER));
      var i := store[inodes[n][8]][b / PER];
      if i == 0 {
        return false, 0;
      }
      z := store[i][b % PER];
    }

    /** Zones in use when truncate of inode n, whose device was in state fs, reaches turn r. */
    ghost predicate Truncating(fs: Fs, n: nat, r: nat)
      reads bits, store
    {
      && Geometry() && Padded() && Inv(fs) && n < |fs.inodes| && |fs.used| == nzones && store[..] == fs.store
      && (forall z :: 0 <= z < first && z < nzones ==> !fs.used[z]) && UsedAt(fs, Used(), n, r)
    }

    /** free_block at the turn of place p: the zone is there, in use and a data zone, so no panic is possible. */
    method FreeAt(z: nat, ghost fs: Fs, ghost n: nat, ghost p: Place)
      requires ValidPlace(p) && Truncating(fs, n, Turn(p)) && z == At(fs, n, p) != 0
      modifies bits
      ensures Truncating(fs, n, Turn(p) + 1)
    {
      TakeTurn(fs, Used(), n, p);
      assert Used()[z];
      var panic := FreeBlock(z, false);
      assert !panic;
    }

    /** A turn, or some turns, with nothing to free. */
    ghost method Skip(fs: Fs, n: nat, r: nat, r': nat)
      requires Truncating(fs, n, r) && r <= r'
      requires forall p {:trigger Turn(p)} :: ValidPlace(p) && r <= Turn(p) < r' ==> At(fs, n, p) == 0
      ensures Truncating(fs, n, r')
    {
      SkipTurns(fs, Used(), n, r, r');
    }

    /** free_ind on the indirect block at place p. */
    method FreeInd(block: nat, ghost fs: Fs, ghost n: nat, ghost p: Place)
      requires (p.Ind? || p.Table?) && ValidPlace(p) && Truncating(fs, n, Turn(p) - PER) && block == At(fs, n, p)
      modifies bits
      ensures Truncating(fs, n, Turn(p) + 1)
    {
      if block == 0 {
        forall q {:trigger Turn(q)} | ValidPlace(q) && Turn(p) - PER <= Turn(q) < Turn(p) + 1
          ensures At(fs, n, q) == 0
        {
          if Turn(q) == Turn(p) {
            TurnsDiffer(q, p);
          } else {
            OnlyChildTurns(p, q);
            AtByParent(fs, n, q);
          }
        }
        Skip(fs, n, Turn(p) - PER, Turn(p) + 1);
        return;
      }
      assert PlaceOk(fs, n, p);
      var i := 0;
      while i < PER
        invariant 0 <= i <= PER && Truncating(fs, n, Turn(p) - PER + i)
      {
        ChildTurns(p, i);
        AtByParent(fs, n, Child(p, i));
        if store[block][i] != 0 {
          FreeAt(store[block][i], fs, n, Child(p, i));
        } else {
          TakeTurn(fs, Used(), n, Child(p, i));
        }
        i := i + 1;
      }
      FreeAt(block, fs, n, p);
    }

    /** free_dind. */
    method FreeDind(block: nat, ghost fs: Fs, ghost n: nat)
      requires Truncating(fs, n, Turn(Ind) + 1) && block == At(fs, n, Dind)
      modifies bits
      ensures Truncating(fs, n, TURNS)
    {
      if block == 0 {
        forall q {:trigger Turn(q)} | ValidPlace(q) && Turn(Ind) + 1 <= Turn(q) < TURNS
          ensures At(fs, n, q) == 0
        {
          if Turn(q) == Turn(Dind) {
            TurnsDiffer(q, Dind);
          } else {
            OnlyTableTurns(q);
          }
        }
        Skip(fs, n, Turn(Ind) + 1, TURNS);
        return;
      }
      assert PlaceOk(fs, n, Dind);
      var k := 0;
      while k < PER
        invariant 0 <= k <= PER && Truncating(fs, n, Turn(Ind) + 1 + k * (PER + 1))
      {
        AtByParent(fs, n, Table(k));
        assert Turn(Table(k)) - PER == Turn(Ind) + 1 + k * (PER + 1);
        FreeInd(store[block][k], fs, n, Table(k));
        k := k + 1;
      }
      FreeAt(block, fs, n, Dind);
    }

    /** truncate of a regular file or directory: every zone of its tree is freed exactly once, its map is empty, and
        nothing else changed. */
    method Truncate(n: nat, regular: bool)
      requires Valid() && n < inodes.Length
      modifies this`owner, bits, inodes
      ensures Valid()
      ensures !regular ==> Abs() == old(Abs())
      ensures regular ==> UsedAt(old(Abs()), Used(), n, TURNS) && Abs() == Emptied(old(Abs()), Used(), n)
      ensures regular ==> forall z :: first <= z < nzones ==> (InUse(z) <==> old(InUse(z)) && !old(Holds(Abs(), n, z)))
      ensures regular ==> forall b :: 0 <= b < FILE_BLOCKS ==> Blocks(Abs(), n)[b] == 0
    {
      if !regular {
        return;
      }
      ghost var fs := Abs();
      var i := 0;
      while i < 7
        invariant 0 <= i <= 7 && Truncating(fs, n, i)
        invariant |inodes[n]| == 9 && inodes[n][7..] == fs.inodes[n][7..]
        invariant forall j :: i <= j < 7 ==> inodes[n][j] == fs.inodes[n][j]
        invariant forall j :: 0 <= j < i ==> inodes[n][j] == 0
        invariant forall m :: 0 <= m < inodes.Length && m != n ==> inodes[m] == fs.inodes[m]
      {
        if inodes[n][i] != 0 {
          FreeAt(inodes[n][i], fs, n, Direct(i));
          inodes[n] := inodes[n][i := 0];
        } else {
          TakeTurn(fs, Used(), n, Direct(i));
        }
        i := i + 1;
      }
      assert inodes[n][7] == inodes[n][7..][0] && inodes[n][8] == inodes[n][7..][1];
      assert fs.inodes[n][7] == fs.inodes[n][7..][0] && fs.inodes[n][8] == fs.inodes[n][7..][1];
      FreeInd(inodes[n][7], fs, n, Ind);
      FreeDind(inodes[n][8], fs, n);
      inodes[n] := inodes[n][7 := 0][8 := 0];
      owner := map z | z in fs.owner && fs.owner[z].ino != n :: fs.owner[z];
      TruncateEmpties(fs, Used(), n);
      assert inodes[n] == NoZones();
      assert inodes[..] == fs.inodes[n := NoZones()];
      assert Abs() == Emptied(fs, Used(), n);
    }

    /** A freshly made device: every data zone free, every inode without zones. */
    constructor Make(first: nat, nzones: nat, ninodes: nat)
      requires 1 <= first <= nzones < 0x1_0000
      ensures Valid() && this.first == first && this.nzones == nzones && inodes.Length == ninodes
      ensures forall z :: first <= z < nzones ==> !InUse(z)
    {
      this.first := first;
      this.nzones := nzones;
      bits := new bool[Z_MAP_SLOTS, BITS]((i, j) => i * BITS + j == 0 || i * BITS + j > nzones - first);
      loaded := seq(Z_MAP_SLOTS, i => true);
      store := new seq<nat>[nzones](i => Cleared());
      inodes := new seq<nat>[ninodes](i => NoZones());
      owner := map[];
      new;
      forall m, q | 0 <= m < inodes.Length && ValidPlace(q)
        ensures PlaceOk(Abs(), m, q)
      {
      }
    }
  }
}
