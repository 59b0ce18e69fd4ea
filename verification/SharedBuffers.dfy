/** The buffers of the cache are the buffers of the request layer: what the one does to identities the other allows. */
module SharedBuffers {
  import BufferLists
  import CacheRuns
  import DiskRuns
  import RequestState

  predicate SameBuffer(h: BufferLists.Head, b: RequestState.Buf) {
    b == RequestState.Buf(h.dev, h.blocknr, h.dirt, h.uptodate, h.lock)
  }

  predicate Agree(heads: seq<BufferLists.Head>, bufs: seq<RequestState.Buf>) {
    |heads| == |bufs| && forall k :: 0 <= k < |heads| ==> SameBuffer(heads[k], bufs[k])
  }

  /** The last step of getblk is a renaming that the request layer allows: it comes for an unlocked buffer and an
      identity that no header carries. */
  lemma RekeyIsRename(driver: seq<bool>, st: CacheRuns.Store, s: RequestState.State, k: nat, dev: nat, block: nat)
    requires RequestState.Inv(s) && |driver| == RequestState.NR_BLK_DEV && !driver[0]
    requires Agree(st.heads, s.bufs) && k < |st.heads| && dev < 0x1_0000 && block < 0x8000_0000
    requires !st.heads[k].lock && !CacheRuns.Cached(st.heads, dev, block)
    ensures DiskRuns.CanRename(s, k, dev, block)
    ensures Agree(CacheRuns.Renamed(st, k, dev, block).heads,
                  DiskRuns.Next(driver, s, DiskRuns.Rename(k, dev, block)).0.bufs)
  {
    assert SameBuffer(st.heads[k], s.bufs[k]);
    forall c | 0 <= c < |s.bufs| && c != k
      ensures !(dev != 0 && s.bufs[c].dev == dev && s.bufs[c].blocknr == block)
    {
      assert SameBuffer(st.heads[c], s.bufs[c]);
      assert !BufferLists.Carries(st.heads[c], dev, block);
    }
    RequestState.IdentifyKeeps(s, k, dev, block);
    hide RequestState.Inv;
  }

  /** And getblk takes no other: the victim it re-keys is unlocked, and the block is not cached. */
  lemma GotIsRename(st: CacheRuns.Store, dev: nat, block: nat, env: seq<CacheRuns.Sleep>) returns (mid: CacheRuns.Store)
    requires CacheRuns.Got(st, dev, block, env).awake && !CacheRuns.Got(st, dev, block, env).hit
    ensures var g := CacheRuns.Got(st, dev, block, env);
            && 0 <= g.r < |mid.heads| && mid.heads[g.r].count == 0 && !mid.heads[g.r].lock
            && !CacheRuns.Cached(mid.heads, dev, block) && g.st == CacheRuns.Renamed(mid, g.r, dev, block)
    decreases |env|
  {
    var l := CacheRuns.Looked(st, dev, block, env);
    var b := CacheRuns.Victim(l.st);
    if b == BufferLists.NULL {
      mid := GotIsRename(CacheRuns.Slept(l.st, l.rest[0], BufferLists.NULL), dev, block, l.rest[1..]);
    } else {
      var (u, ok, rest) := CacheRuns.Waited(l.st, b, l.rest, BufferLists.NULL);
      if u.heads[b].count > 0 || CacheRuns.Cached(u.heads, dev, block) {
        mid := GotIsRename(u, dev, block, rest);
      } else {
        mid := u;
      }
    }
  }
}
