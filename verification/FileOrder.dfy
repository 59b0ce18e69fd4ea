/** The order of a file's blocks, written out as a list: the first seven zone numbers of the inode, then the entries of
    the indirect block in order, then those of each block the double-indirect block names (fs/inode.c:218-291). Places
    and turns of the tree do not occur in it. */
module FileOrder {
  import opened ZoneTree

  const FILE_BLOCKS: nat := 262663

  /** The 512 entries of indirect block z; all zero if there is none. */
  function Row(fs: Fs, z: nat): (r: seq<nat>)
    requires Sizes(fs)
    ensures |r| == 512
  {
    if 0 < z < |fs.store| then fs.store[z] else seq(512, i => 0)
  }

  /** The entries of the indirect blocks zs, one block after the other. */
  function Rows(fs: Fs, zs: seq<nat>): (r: seq<nat>)
    requires Sizes(fs)
    ensures |r| == 512 * |zs|
    decreases |zs|
  {
    if zs == [] then [] else Rows(fs, zs[..|zs| - 1]) + Row(fs, zs[|zs| - 1])
  }

  /** The zones of a file, block by block, 0 for a hole. */
  function Blocks(fs: Fs, n: nat): (r: seq<nat>)
    requires Sizes(fs) && n < |fs.inodes|
    ensures |r| == FILE_BLOCKS
  {
    fs.inodes[n][..7] + Row(fs, fs.inodes[n][7]) + Rows(fs, Row(fs, fs.inodes[n][8]))
  }

  lemma {:induction false} RowsAt(fs: Fs, zs: seq<nat>, k: nat, l: nat)
    requires Sizes(fs) && k < |zs| && l < 512
    ensures k * 512 + l < |Rows(fs, zs)| && Rows(fs, zs)[k * 512 + l] == Row(fs, zs[k])[l]
    decreases |zs|
  {
    var m := |zs| - 1;
    if k < m {
      RowsAt(fs, zs[..m], k, l);
    }
  }

  lemma EntryIsRow(fs: Fs, z: nat, k: nat)
    requires Sizes(fs) && k < 512
    ensures Entry(fs, z, k) == Row(fs, z)[k]
  {
  }

  /** bmap finds the block where the list has it. */
  lemma BmapIsListed(fs: Fs, n: nat, b: nat)
    requires Sizes(fs) && n < |fs.inodes| && b < FILE_BLOCKS
    ensures Bmap(fs, n, b) == Blocks(fs, n)[b]
  {
    var zones := fs.inodes[n];
    if b < 7 {
    } else if b < 519 {
      EntryIsRow(fs, zones[7], b - 7);
    } else {
      var k, l := (b - 519) / 512, (b - 519) % 512;
      EntryIsRow(fs, zones[8], k);
      EntryIsRow(fs, Row(fs, zones[8])[k], l);
      RowsAt(fs, Row(fs, zones[8]), k, l);
    }
  }

  /** create_block puts the zone where the list has the block, and leaves the rest of the list, and the lists of all
      other files, alone. */
  lemma KeptIsListed(a: Fs, b: Fs, n: nat, k: nat, m: nat)
    requires n < |a.inodes| && k < FILE_BLOCKS && m < |a.inodes| && Kept(a, b, n, PlaceOf(k))
    ensures Blocks(b, m) == if m == n then Blocks(a, n)[k := Bmap(b, n, k)] else Blocks(a, m)
  {
    KeptIsMapped(a, b, n, k);
    forall c | 0 <= c < FILE_BLOCKS
      ensures Blocks(b, m)[c] == if (m, c) == (n, k) then Bmap(b, n, k) else Blocks(a, m)[c]
    {
      BmapIsListed(a, m, c);
      BmapIsListed(b, m, c);
    }
  }

  /** The zones of an inode's tree: those of its blocks and its indirect blocks. */
  predicate Holds(fs: Fs, n: nat, z: nat)
    requires Sizes(fs) && n < |fs.inodes|
  {
    z != 0 && (z in Blocks(fs, n) || z == fs.inodes[n][7] || z == fs.inodes[n][8] || z in Row(fs, fs.inodes[n][8]))
  }

  lemma PlacesAreHeld(fs: Fs, n: nat, p: Place)
    requires Sizes(fs) && n < |fs.inodes| && ValidPlace(p) && At(fs, n, p) != 0
    ensures Holds(fs, n, At(fs, n, p))
  {
    var zones := fs.inodes[n];
    match p
    case Direct(i) => assert Blocks(fs, n)[i] == zones[i];
    case Ind =>
    case InInd(k) =>
      EntryIsRow(fs, zones[7], k);
      assert Blocks(fs, n)[7 + k] == Row(fs, zones[7])[k];
    case Dind =>
    case Table(k) =>
      EntryIsRow(fs, zones[8], k);
      assert Row(fs, zones[8])[k] == At(fs, n, p);
    case InDind(k, l) =>
      EntryIsRow(fs, zones[8], k);
      EntryIsRow(fs, Row(fs, zones[8])[k], l);
      RowsAt(fs, Row(fs, zones[8]), k, l);
      assert Blocks(fs, n)[519 + (k * 512 + l)] == Rows(fs, Row(fs, zones[8]))[k * 512 + l];
  }

  lemma HeldHasPlace(fs: Fs, n: nat, z: nat)
    requires Sizes(fs) && n < |fs.inodes| && Holds(fs, n, z)
    ensures exists p {:trigger At(fs, n, p)} :: ValidPlace(p) && At(fs, n, p) == z
  {
    var zones := fs.inodes[n];
    if z == zones[7] {
      assert At(fs, n, Ind) == z && ValidPlace(Ind);
    } else if z == zones[8] {
      assert At(fs, n, Dind) == z && ValidPlace(Dind);
    } else if z in Blocks(fs, n) {
      var b :| 0 <= b < FILE_BLOCKS && Blocks(fs, n)[b] == z;
      BmapIsListed(fs, n, b);
      assert At(fs, n, PlaceOf(b)) == z && ValidPlace(PlaceOf(b));
    } else {
      var k :| 0 <= k < 512 && Row(fs, zones[8])[k] == z;
      EntryIsRow(fs, zones[8], k);
      assert At(fs, n, Table(k)) == z && ValidPlace(Table(k));
    }
  }

  /** truncate frees exactly the zones in the inode's list and its indirect blocks; the list is all holes then, and
      every other file keeps its own. */
  lemma TruncateEmpties(fs: Fs, used: seq<bool>, n: nat)
    requires Inv(fs) && n < |fs.inodes| && UsedAt(fs, used, n, TURNS)
    ensures forall z :: 0 <= z < |used| ==> (used[z] <==> fs.used[z] && !Holds(fs, n, z))
    ensures Inv(Emptied(fs, used, n))
    ensures forall b :: 0 <= b < FILE_BLOCKS ==> Blocks(Emptied(fs, used, n), n)[b] == 0
    ensures forall m :: 0 <= m < |fs.inodes| && m != n ==> Blocks(Emptied(fs, used, n), m) == Blocks(fs, m)
  {
    TruncateConserves(fs, used, n);
    var t := Emptied(fs, used, n);
    forall z | 0 <= z < |used|
      ensures used[z] <==> fs.used[z] && !Holds(fs, n, z)
    {
      if Holds(fs, n, z) {
        HeldHasPlace(fs, n, z);
      }
      forall p {:trigger At(fs, n, p)} | ValidPlace(p) && At(fs, n, p) == z != 0
        ensures Holds(fs, n, z)
      {
        PlacesAreHeld(fs, n, p);
      }
    }
    hide Inv, At;
    forall m, b | 0 <= m < |fs.inodes| && 0 <= b < FILE_BLOCKS
      ensures Blocks(t, m)[b] == if m == n then 0 else Blocks(fs, m)[b]
    {
      BmapIsListed(t, m, b);
      BmapIsListed(fs, m, b);
      assert At(fs, m, PlaceOf(b)) == Bmap(fs, m, b);
    }
  }
}
