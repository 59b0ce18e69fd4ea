/** What the routines of mm/memory.c do to the frames, as functions of the whole state, with the exact outcome of each:
    how far a fork gets, when a store, a demand load or a sharing takes effect, and how many frames it uses. */
module PageSteps {
  import opened PageWords
  import opened EagerSpace
  import opened PhysMemory

  // ---------- free frames ----------

  ghost function FreeFrames(p: Phys): set<nat> {
    set n: nat | n < |p.refs| && p.refs[n] == 0
  }

  /** The highest index counted 0, or -1. */
  ghost function TopFree(refs: seq<int>): (n: int)
    ensures -1 <= n < |refs|
    ensures n >= 0 ==> refs[n] == 0
    ensures forall m :: n < m < |refs| ==> refs[m] != 0
  {
    if refs == [] then -1
    else if refs[|refs| - 1] == 0 then |refs| - 1
    else TopFree(refs[..|refs| - 1])
  }

  /** The frame get_free_page returns; 0 when none is free. */
  ghost function TopFrame(p: Phys): nat {
    if TopFree(p.refs) < 0 then 0 else TopFree(p.refs) + LOW_FRAMES
  }

  lemma TopFrameIff(p: Phys)
    requires Shape(p)
    ensures TopFrame(p) == 0 <==> FreeFrames(p) == {}
    ensures FreeFrames(p) == {} <==> |FreeFrames(p)| == 0
    ensures TopFrame(p) != 0 ==>
        LOW_FRAMES <= TopFrame(p) < FRAMES && p.refs[TopFrame(p) - LOW_FRAMES] == 0
        && TopFrame(p) - LOW_FRAMES in FreeFrames(p)
  {
    if TopFree(p.refs) >= 0 {
      assert TopFree(p.refs) in FreeFrames(p);
    }
  }

  ghost predicate SomeFree(p: Phys) {
    TopFrame(p) != 0
  }

  ghost function Taken(p: Phys): (q: Phys)
    requires Shape(p) && SomeFree(p)
  {
    Take(p, TopFrame(p))
  }

  lemma TakenKeeps(p: Phys)
    requires Inv(p) && SomeFree(p)
    ensures Inv(Taken(p)) && View(Taken(p)) == View(p) && Fresh(Taken(p), TopFrame(p))
    ensures LOW_FRAMES <= TopFrame(p) < FRAMES && TopFrame(p) !in p.tables && TopFrame(p) !in p.reserved
    ensures Taken(p).mem[TopFrame(p)] == ZeroFrame()
    ensures FreeFrames(Taken(p)) == FreeFrames(p) - {TopFrame(p) - LOW_FRAMES}
    ensures |FreeFrames(Taken(p))| == |FreeFrames(p)| - 1
  {
    TopFrameIff(p);
    TakeKeeps(p, TopFrame(p));
    assert FreeFrames(Taken(p)) == FreeFrames(p) - {TopFrame(p) - LOW_FRAMES};
  }

  /** Nothing outside the reach of the directory is touched, and tables stay tables. */
  ghost predicate LostStays(p: Phys, q: Phys, t: nat) {
    t in p.tables && t !in Reachable(p) ==>
      t in q.tables && t !in Reachable(q) && t < |p.mem| && t < |q.mem| && q.mem[t] == p.mem[t]
  }

  /** A step that keeps the invariant, takes `used` frames and gives none back, and leaves lost tables alone. */
  ghost predicate Kept(p: Phys, q: Phys, used: nat) {
    && Inv(p) && Inv(q) && q.reserved == p.reserved
    && FreeFrames(q) <= FreeFrames(p) && |FreeFrames(q)| + used == |FreeFrames(p)|
    && (forall t :: LostStays(p, q, t))
  }

  lemma KeptTrans(p: Phys, q: Phys, r: Phys, a: nat, b: nat)
    requires Kept(p, q, a) && Kept(q, r, b)
    ensures Kept(p, r, a + b)
  {
    hide Inv, FreeFrames, Reachable;
    forall t
      ensures LostStays(p, r, t)
    {
      assert LostStays(p, q, t) && LostStays(q, r, t);
    }
  }

  // ---------- a new page table ----------

  /** A free frame, cleared, becomes the page table of directory slot d. */
  ghost function NewTable(p: Phys, d: nat): Phys
    requires Shape(p) && SomeFree(p) && d < ENTRIES
  {
    MakeTable(Taken(p), d, TopFrame(p))
  }

  lemma NewTableKeeps(p: Phys, d: nat)
    requires Inv(p) && SomeFree(p) && d < ENTRIES
    ensures var q := NewTable(p, d);
            && Inv(q) && q.dir == p.dir[d := Uwp(TopFrame(p))] && q.reserved == p.reserved
            && View(q) == View(p).(dirs := View(p).dirs[d := Table(seq(ENTRIES, i => Absent))])
            && FreeFrames(q) <= FreeFrames(p) && |FreeFrames(q)| == |FreeFrames(p)| - 1
            && q.mem[TopFrame(p)] == ZeroFrame()
            && (forall t :: t in p.tables ==> t < |p.mem| && t != TopFrame(p) && q.mem[t] == p.mem[t])
  {
    TakenKeeps(p);
    MakeTableKeeps(Taken(p), d, TopFrame(p));
    assert NewTable(p, d).reserved == p.reserved;
    assert FreeFrames(NewTable(p, d)) == FreeFrames(Taken(p));
  }

  // ---------- copying page tables ----------

  /** Entry j of table s copied to table t, if present. */
  ghost function CopyEntry(p: Phys, s: nat, t: nat, j: nat): (q: Phys)
    requires Shape(p) && s < FRAMES && t < FRAMES && j < ENTRIES
    ensures Shape(q) && q.dir == p.dir && q.tables == p.tables && q.reserved == p.reserved
  {
    if p.mem[s][j].present then ShareEntry(p, s, j, t, j) else p
  }

  /** The first n entries. */
  ghost function CopyEntries(p: Phys, s: nat, t: nat, n: nat): (q: Phys)
    requires Shape(p) && s < FRAMES && t < FRAMES && n <= ENTRIES
    ensures Shape(q) && q.dir == p.dir && q.tables == p.tables && q.reserved == p.reserved
  {
    if n == 0 then p else CopyEntry(CopyEntries(p, s, t, n - 1), s, t, n - 1)
  }

  lemma CopyEntryKeeps(p: Phys, from: nat, to: nat, j: nat, e: Eager)
    requires Inv(p) && from < ENTRIES && to < ENTRIES && from != to && p.dir[from].present && p.dir[to].present
    requires Shaped(e) && e.dirs[from].Table? && j < ENTRIES && View(p) == CopyPages(e, from, to, j)
    ensures p.dir[from].page < FRAMES && p.dir[to].page < FRAMES
    ensures var q := CopyEntry(p, p.dir[from].page, p.dir[to].page, j);
            && Inv(q) && View(q) == CopyPages(e, from, to, j + 1) && FreeFrames(q) == FreeFrames(p)
            && (forall t :: t in p.tables && t != p.dir[from].page && t != p.dir[to].page ==> q.mem[t] == p.mem[t])
    ensures p.mem[p.dir[from].page][j].present ==> !p.mem[p.dir[to].page][j].present
  {
    var s, t := p.dir[from].page, p.dir[to].page;
    var entry := p.mem[s][j];
    assert Page(View(p), from, j) == See(p.mem, entry) == e.dirs[from].pages[j];
    assert Page(View(p), to, j) == See(p.mem, p.mem[t][j]) == Absent;
    assert EntryOk(p, p.mem[t][j]) && EntryOk(p, entry);
    CopyPagesStep(e, from, to, j);
    if entry.present {
      ShareEntryKeeps(p, s, j, to, j);
      if entry.page >= LOW_FRAMES {
        NamedIsCounted(p, s, j);
      }
      assert FreeFrames(CopyEntry(p, s, t, j)) == FreeFrames(p);
    }
  }

  lemma {:induction false} CopyEntriesKeeps(p: Phys, from: nat, to: nat, n: nat, e: Eager)
    requires Inv(p) && from < ENTRIES && to < ENTRIES && from != to && p.dir[from].present && p.dir[to].present
    requires Shaped(e) && e.dirs[from].Table? && n <= ENTRIES && View(p) == CopyPages(e, from, to, 0)
    ensures p.dir[from].page < FRAMES && p.dir[to].page < FRAMES
    ensures var q := CopyEntries(p, p.dir[from].page, p.dir[to].page, n);
            && Inv(q) && View(q) == CopyPages(e, from, to, n) && FreeFrames(q) == FreeFrames(p)
            && (forall t :: t in p.tables && t != p.dir[from].page && t != p.dir[to].page ==> q.mem[t] == p.mem[t])
  {
    if n > 0 {
      CopyEntriesKeeps(p, from, to, n - 1, e);
      var q := CopyEntries(p, p.dir[from].page, p.dir[to].page, n - 1);
      hide Inv, View, FreeFrames, CopyEntry, CopyPages;
      CopyEntryKeeps(q, from, to, n - 1, e);
    }
  }

  /** One turn of the outer loop of copy_page_tables, with a frame at hand if one is needed. */
  ghost function CopySlot(p: Phys, from: nat, to: nat): (q: Phys)
    requires Inv(p) && from < ENTRIES && to < ENTRIES && from != to && (p.dir[from].present ==> SomeFree(p))
    ensures Shape(q)
  {
    if !p.dir[from].present then p
    else
      NewTableKeeps(p, to);
      CopyEntries(NewTable(p, to), p.dir[from].page, TopFrame(p), ENTRIES)
  }

  lemma CopySlotKeeps(p: Phys, from: nat, to: nat)
    requires Inv(p) && from < ENTRIES && to < ENTRIES && from != to && (p.dir[from].present ==> SomeFree(p))
    ensures var q := CopySlot(p, from, to);
            && Kept(p, q, if p.dir[from].present then 1 else 0) && View(q) == CopyDir(View(p), from, to)
            && (forall d :: 0 <= d < ENTRIES && d != to ==> q.dir[d] == p.dir[d])
  {
    if p.dir[from].present {
      var e := View(p);
      ViewShaped(p);
      NewTableKeeps(p, to);
      CopyPagesEnds(e, from, to);
      CopyEntriesKeeps(NewTable(p, to), from, to, ENTRIES, e);
    }
  }

  /** Page tables a fork of n slots needs: one for each slot the parent has. */
  function TablesNeeded(dir: seq<Word>, from: nat, n: nat): nat
    requires from + n <= |dir|
  {
    if n == 0 then 0 else TablesNeeded(dir, from, n - 1) + if dir[from + n - 1].present then 1 else 0
  }

  /** How far a fork of n slots gets with `free` frames: to the first slot the parent has and no frame is left for. */
  function SlotsCopied(dir: seq<Word>, from: nat, n: nat, free: nat): (k: nat)
    requires from + n <= |dir|
    ensures k <= n && TablesNeeded(dir, from, k) <= free
    ensures k < n ==> dir[from + k].present && TablesNeeded(dir, from, k) == free
  {
    if n == 0 then 0
    else
      var k := SlotsCopied(dir, from, n - 1, free);
      if k == n - 1 && (dir[from + k].present ==> TablesNeeded(dir, from, k) < free) then n else k
  }

  lemma {:induction false} NeedGrows(dir: seq<Word>, from: nat, k: nat, n: nat)
    requires from + n <= |dir|
    ensures k <= n ==> TablesNeeded(dir, from, k) <= TablesNeeded(dir, from, n)
    ensures k < n && dir[from + k].present ==> TablesNeeded(dir, from, k) < TablesNeeded(dir, from, n)
  {
    if k < n {
      NeedGrows(dir, from, k, n - 1);
    }
  }

  /** A fork gets to the end exactly when there is a frame for every table it needs. */
  lemma CopiesAllIff(dir: seq<Word>, from: nat, n: nat, free: nat)
    requires from + n <= |dir|
    ensures SlotsCopied(dir, from, n, free) == n <==> TablesNeeded(dir, from, n) <= free
  {
    NeedGrows(dir, from, SlotsCopied(dir, from, n, free), n);
  }

  /** Any place with these properties is how far the fork gets. */
  lemma StopsHere(dir: seq<Word>, from: nat, k: nat, n: nat, free: nat)
    requires k <= n && from + n <= |dir| && TablesNeeded(dir, from, k) <= free
    requires k < n ==> dir[from + k].present && TablesNeeded(dir, from, k) == free
    ensures SlotsCopied(dir, from, n, free) == k
  {
    var c := SlotsCopied(dir, from, n, free);
    NeedGrows(dir, from, c, k);
    NeedGrows(dir, from, k, c);
  }

  ghost predicate CanCopy(p: Phys, from: nat, to: nat, n: nat) {
    && Inv(p) && from + n <= ENTRIES && to + n <= ENTRIES && (from + n <= to || to + n <= from)
    && TablesNeeded(p.dir, from, n) <= |FreeFrames(p)|
  }

  /** One more slot. */
  lemma SlotsStep(p: Phys, from: nat, to: nat, n: nat, q: Phys)
    requires n > 0 && CanCopy(p, from, to, n) && Copied(p, from, to, n - 1, q)
    ensures q.dir[from + n - 1].present ==> SomeFree(q)
    ensures Copied(p, from, to, n, CopySlot(q, from + n - 1, to + n - 1))
  {
    hide DirOk, EntriesOk, Exact, FreeFrames, View, CopySlot, CopyDir, TopFrame;
    assert q.dir[from + n - 1] == p.dir[from + n - 1];
    TopFrameIff(q);
    CopySlotKeeps(q, from + n - 1, to + n - 1);
    hide Kept;
    KeptTrans(p, q, CopySlot(q, from + n - 1, to + n - 1), TablesNeeded(p.dir, from, n - 1),
        if p.dir[from + n - 1].present then 1 else 0);
  }

  /** q is p with n slots copied. */
  ghost predicate Copied(p: Phys, from: nat, to: nat, n: nat, q: Phys)
    requires Shape(p) && from + n <= ENTRIES && to + n <= ENTRIES
  {
    && Kept(p, q, TablesNeeded(p.dir, from, n)) && View(q) == CopyDirs(View(p), from, to, n)
    && (forall d :: 0 <= d < ENTRIES && !(to <= d < to + n) ==> q.dir[d] == p.dir[d])
  }

  ghost function CopySlots(p: Phys, from: nat, to: nat, n: nat): (q: Phys)
    requires CanCopy(p, from, to, n)
    ensures Copied(p, from, to, n, q)
  {
    if n == 0 then p
    else
      var q := CopySlots(p, from, to, n - 1);
      SlotsStep(p, from, to, n, q);
      CopySlot(q, from + n - 1, to + n - 1)
  }

  /** Slot d needs no page table in a copy, or there is a frame for it. */
  ghost predicate HasFrame(p: Phys, d: nat) {
    d < |p.dir| && p.dir[d].present ==> FreeFrames(p) != {}
  }

  /** q is where a fork of n slots is after k of them. */
  ghost predicate Reached(p: Phys, from: nat, to: nat, n: nat, k: nat, q: Phys) {
    && from + n <= ENTRIES && to + n <= ENTRIES && (from + n <= to || to + n <= from) && k <= n
    && CanCopy(p, from, to, k) && q == CopySlots(p, from, to, k)
  }

  /** With a frame for slot k, or none needed, it is copied too; otherwise the fork stops here. */
  lemma ReachedNext(p: Phys, from: nat, to: nat, n: nat, k: nat, q: Phys)
    requires Reached(p, from, to, n, k, q)
    ensures Inv(q) && (k == 0 ==> q == p) && View(q) == CopyDirs(View(p), from, to, k)
    ensures |FreeFrames(q)| + TablesNeeded(p.dir, from, k) == |FreeFrames(p)|
    ensures k == n ==> SlotsCopied(p.dir, from, n, |FreeFrames(p)|) == k
    ensures k < n && HasFrame(q, from + k) ==>
        (q.dir[from + k].present ==> SomeFree(q)) && Reached(p, from, to, n, k + 1, CopySlot(q, from + k, to + k))
    ensures k < n && !HasFrame(q, from + k) ==> SlotsCopied(p.dir, from, n, |FreeFrames(p)|) == k
  {
    hide DirOk, EntriesOk, Exact, FreeFrames, View, CopyDirs, CopySlot, LostStays, TopFrame;
    assert Copied(p, from, to, k, q);
    TopFrameIff(q);
    if k == n || (q.dir[from + k].present && FreeFrames(q) == {}) {
      StopsHere(p.dir, from, k, n, |FreeFrames(p)|);
    }
  }

  lemma ReachedStart(p: Phys, from: nat, to: nat, n: nat)
    requires Inv(p) && from + n <= ENTRIES && to + n <= ENTRIES && (from + n <= to || to + n <= from)
    ensures Reached(p, from, to, n, 0, p)
  {
  }

  // ---------- a frame just taken stays the kernel's while page tables are copied ----------

  lemma CopyEntryFresh(p: Phys, s: nat, t: nat, j: nat, f: nat)
    requires Inv(p) && s in p.tables && t in p.tables && j < ENTRIES && Fresh(p, f)
    ensures Fresh(CopyEntry(p, s, t, j), f)
  {
    var e := p.mem[s][j];
    assert EntryOk(p, e);
    if e.present {
      assert e.page != f by {
        assert Slot(s, j) !in Refs(p.mem, p.tables, f);
      }
      var c := e.(write := false);
      RefsAfterStore(p.mem, p.tables, t, j, c, f);
      RefsAfterStore(SetEntry(p.mem, t, j, c), p.tables, s, j, c, f);
    }
  }

  lemma {:induction false} CopyEntriesFresh(p: Phys, from: nat, to: nat, n: nat, e: Eager, f: nat)
    requires Inv(p) && from < ENTRIES && to < ENTRIES && from != to && p.dir[from].present && p.dir[to].present
    requires Shaped(e) && e.dirs[from].Table? && n <= ENTRIES && View(p) == CopyPages(e, from, to, 0) && Fresh(p, f)
    ensures p.dir[from].page < FRAMES && p.dir[to].page < FRAMES
    ensures Fresh(CopyEntries(p, p.dir[from].page, p.dir[to].page, n), f)
  {
    hide EntriesOk, Exact, View, FreeFrames, CopyEntry, CopyPages, Fresh, Shaped;
    if n > 0 {
      CopyEntriesKeeps(p, from, to, n - 1, e);
      CopyEntriesFresh(p, from, to, n - 1, e, f);
      var q := CopyEntries(p, p.dir[from].page, p.dir[to].page, n - 1);
      CopyEntryFresh(q, p.dir[from].page, p.dir[to].page, n - 1, f);
    }
  }

  lemma CopySlotFresh(p: Phys, from: nat, to: nat, f: nat)
    requires Inv(p) && from < ENTRIES && to < ENTRIES && from != to && (p.dir[from].present ==> SomeFree(p))
        && Fresh(p, f)
    ensures Fresh(CopySlot(p, from, to), f)
  {
    if p.dir[from].present {
      var e := View(p);
      ViewShaped(p);
      NewTableKeeps(p, to);
      FreshStays(p, to, f);
      CopyPagesEnds(e, from, to);
      CopyEntriesFresh(NewTable(p, to), from, to, ENTRIES, e, f);
    }
  }

  lemma {:induction false} CopySlotsFresh(p: Phys, from: nat, to: nat, n: nat, f: nat)
    requires CanCopy(p, from, to, n) && Fresh(p, f)
    ensures Fresh(CopySlots(p, from, to, n), f)
  {
    hide DirOk, EntriesOk, Exact, FreeFrames, CopySlot, Fresh, SomeFree, View, CopyDirs, Kept, Copied;
    if n > 0 {
      CopySlotsFresh(p, from, to, n - 1, f);
      ReachedNext(p, from, to, n, n - 1, CopySlots(p, from, to, n - 1));
      CopySlotFresh(CopySlots(p, from, to, n - 1), from + n - 1, to + n - 1, f);
    }
  }

  /** A frame just taken is free again when it is released. */
  lemma FreeAgain(p: Phys, f: nat)
    requires Inv(p) && Fresh(p, f)
    ensures LOW_FRAMES <= f < FRAMES && |FreeFrames(Release(p, f))| == |FreeFrames(p)| + 1
  {
    assert p.refs[f - LOW_FRAMES] == 1;
    assert FreeFrames(Release(p, f)) == FreeFrames(p) + {f - LOW_FRAMES};
  }

  /** fork, with its task page taken first: what it has used when k slots are copied, and what giving the task
      page back restores. */
  lemma AfterFork(p: Phys, from: nat, to: nat, n: nat, k: nat, q: Phys)
    requires Inv(p) && SomeFree(p) && Reached(Taken(p), from, to, n, k, q)
    requires k == SlotsCopied(p.dir, from, n, |FreeFrames(Taken(p))|)
    ensures |FreeFrames(Taken(p))| == |FreeFrames(p)| - 1
    ensures k == n <==> TablesNeeded(p.dir, from, n) < |FreeFrames(p)|
    ensures && Inv(q) && Fresh(q, TopFrame(p)) && q.reserved == p.reserved + {TopFrame(p)} && TopFrame(p) !in p.reserved
            && |FreeFrames(q)| + TablesNeeded(p.dir, from, k) + 1 == |FreeFrames(p)|
            && LOW_FRAMES <= TopFrame(p) < FRAMES
            && |FreeFrames(Release(q, TopFrame(p)))| + TablesNeeded(p.dir, from, k) == |FreeFrames(p)|
  {
    TakenKeeps(p);
    hide DirOk, EntriesOk, Exact, FreeFrames, View, CopyDirs, CopySlots, TopFrame, Refs;
    CopiesAllIff(p.dir, from, n, |FreeFrames(p)| - 1);
    CopySlotsFresh(Taken(p), from, to, k, TopFrame(p));
    assert Copied(Taken(p), from, to, k, q);
    FreeAgain(q, TopFrame(p));
  }

  // ---------- one page: demand loading, stores, sharing ----------

  /** The walk of pte() finds an entry for linear page (d, i). */
  ghost predicate PresentAt(p: Phys, d: nat, i: nat) {
    d < |p.dir| && p.dir[d].present && p.dir[d].page < |p.mem| && i < |p.mem[p.dir[d].page]|
    && p.mem[p.dir[d].page][i].present
  }

  /** A page of its own, and a page table where there is none. */
  ghost function FramesToLoad(p: Phys, d: nat): nat {
    if d < |p.dir| && p.dir[d].present then 1 else 2
  }

  /** The loaded words in a frame just taken. */
  ghost function Filled(p: Phys, words: Frame): Phys
    requires Shape(p) && SomeFree(p)
  {
    TopFrameIff(p);
    Fill(Taken(p), TopFrame(p), words)
  }

  lemma FilledKeeps(p: Phys, words: Frame)
    requires Inv(p) && SomeFree(p) && |words| == ENTRIES
    ensures var q, f := Filled(p, words), TopFrame(p);
            && Inv(q) && View(q) == View(p) && Fresh(q, f) && q.mem[f] == words && q.dir == p.dir
                && q.tables == p.tables
            && q.reserved == p.reserved + {f} && f !in p.reserved && f !in p.tables && LOW_FRAMES <= f < FRAMES
            && q.refs[f - LOW_FRAMES] == 1
            && FreeFrames(q) <= FreeFrames(p) && |FreeFrames(q)| == |FreeFrames(p)| - 1
            && (forall t :: t in p.tables ==> q.mem[t] == p.mem[t])
  {
    TakenKeeps(p);
    FillKeeps(Taken(p), TopFrame(p), words);
    assert FreeFrames(Filled(p, words)) == FreeFrames(Taken(p));
    TopFrameIff(p);
  }

  /** Demand loading with enough frames. */
  ghost function Loaded(p: Phys, d: nat, i: nat, words: Frame): Phys
    requires Inv(p) && d < ENTRIES && i < ENTRIES && |words| == ENTRIES && |FreeFrames(p)| >= FramesToLoad(p, d)
  {
    TopFrameIff(p);
    FilledKeeps(p, words);
    var q := Filled(p, words);
    TopFrameIff(q);
    if p.dir[d].present then Map(q, d, i, TopFrame(p))
    else
      NewTableKeeps(q, d);
      Map(NewTable(q, d), d, i, TopFrame(p))
  }

  lemma MapFrees(p: Phys, d: nat, i: nat, n: nat)
    requires Inv(p) && d < ENTRIES && p.dir[d].present && i < ENTRIES && Fresh(p, n) && !PresentAt(p, d, i)
    ensures var q := Map(p, d, i, n);
            && Inv(q) && View(q) == SetPage(View(p), d, i, Private(p.mem[n]))
            && q.dir == p.dir && q.tables == p.tables && q.reserved == p.reserved - {n}
                && FreeFrames(q) == FreeFrames(p)
            && (forall t :: t in p.tables && t != p.dir[d].page ==> q.mem[t] == p.mem[t])
  {
    MapKeeps(p, d, i, n);
  }

  lemma LoadKeeps(p: Phys, d: nat, i: nat, words: Frame)
    requires Inv(p) && d < ENTRIES && i < ENTRIES && |words| == ENTRIES && |FreeFrames(p)| >= FramesToLoad(p, d)
    requires !PresentAt(p, d, i) && Shaped(View(p))
    ensures var q := Loaded(p, d, i, words);
            Kept(p, q, FramesToLoad(p, d)) && View(q) == Install(View(p), d, i, Private(words))
  {
    TopFrameIff(p);
    FilledKeeps(p, words);
    var q, f := Filled(p, words), TopFrame(p);
    TopFrameIff(q);
    if p.dir[d].present {
      MapFrees(q, d, i, f);
    } else {
      NewTableKeeps(q, d);
      FreshStays(q, d, f);
      MapFrees(NewTable(q, d), d, i, f);
    }
    assert Loaded(p, d, i, words).reserved == p.reserved;
  }

  lemma FreshStays(p: Phys, d: nat, f: nat)
    requires Inv(p) && SomeFree(p) && d < ENTRIES && Fresh(p, f)
    ensures TopFrame(p) != f && Fresh(NewTable(p, d), f) && NewTable(p, d).mem[f] == p.mem[f]
    ensures forall i: nat :: i < ENTRIES ==> !PresentAt(NewTable(p, d), d, i)
  {
    TakenKeeps(p);
    RefsAfterData(p.mem, p.tables, TopFrame(p), ZeroFrame(), f);
    RefsNewTable(Taken(p).mem, p.tables, TopFrame(p), f);
  }

  /** Without a frame for the page table the loaded page is given back. */
  ghost function GivenBack(p: Phys, words: Frame): Phys
    requires Inv(p) && SomeFree(p) && |words| == ENTRIES
  {
    FilledKeeps(p, words);
    Release(Filled(p, words), TopFrame(p))
  }

  lemma GivenBackKeeps(p: Phys, words: Frame)
    requires Inv(p) && SomeFree(p) && |words| == ENTRIES
    ensures Kept(p, GivenBack(p, words), 0) && View(GivenBack(p, words)) == View(p)
    ensures GivenBack(p, words).refs == p.refs
  {
    FilledKeeps(p, words);
    TopFrameIff(p);
    ReleaseKeeps(Filled(p, words), TopFrame(p));
    assert GivenBack(p, words).refs == p.refs;
    assert GivenBack(p, words).reserved == p.reserved;
  }

  /** The entry is the only name of a counted frame. */
  ghost predicate OwnsPage(p: Phys, e: Word) {
    LOW_FRAMES <= e.page < LOW_FRAMES + |p.refs| && p.refs[e.page - LOW_FRAMES] == 1
  }

  /** un_wp_page with a frame at hand if one is needed. */
  ghost function Owned(p: Phys, d: nat, i: nat): Phys
    requires Inv(p) && d < ENTRIES && i < ENTRIES && PresentAt(p, d, i)
    requires OwnsPage(p, p.mem[p.dir[d].page][i]) || SomeFree(p)
  {
    var t := p.dir[d].page;
    assert EntryOk(p, p.mem[t][i]);
    if OwnsPage(p, p.mem[t][i]) then Allow(p, t, i)
    else
      TakenKeeps(p);
      Unshare(Taken(p), t, i, TopFrame(p))
  }

  ghost function FramesToOwn(p: Phys, e: Word): nat {
    if OwnsPage(p, e) then 0 else 1
  }

  lemma AllowIs(p: Phys, d: nat, i: nat)
    requires Inv(p) && d < ENTRIES && i < ENTRIES && PresentAt(p, d, i) && OwnsPage(p, p.mem[p.dir[d].page][i])
    ensures var t, q := p.dir[d].page, Owned(p, d, i);
            && Kept(p, q, 0) && q.dir == p.dir && q.mem[t][i].present && q.mem[t][i].write
            && p.mem[t][i].page < FRAMES && View(q) == SetPage(View(p), d, i, Private(p.mem[p.mem[t][i].page]))
  {
    var t := p.dir[d].page;
    var e := p.mem[t][i];
    assert EntryOk(p, e);
    AllowKeeps(p, d, i);
    assert Page(View(p), d, i) == See(p.mem, e);
    assert View(p).dirs[d].pages[i := Private(p.mem[e.page])] == View(p).dirs[d].pages;
    assert FreeFrames(Owned(p, d, i)) == FreeFrames(p);
  }

  lemma UnshareIs(p: Phys, d: nat, i: nat)
    requires Inv(p) && d < ENTRIES && i < ENTRIES && PresentAt(p, d, i) && !OwnsPage(p, p.mem[p.dir[d].page][i])
    requires SomeFree(p)
    ensures var t, q := p.dir[d].page, Owned(p, d, i);
            && Kept(p, q, 1) && q.dir == p.dir && q.mem[t][i].present && q.mem[t][i].write
            && p.mem[t][i].page < FRAMES && View(q) == SetPage(View(p), d, i, Private(p.mem[p.mem[t][i].page]))
  {
    var t := p.dir[d].page;
    var e, m := p.mem[t][i], Taken(p);
    assert EntryOk(p, e);
    TakenKeeps(p);
    assert Slot(t, i) !in Refs(m.mem, m.tables, TopFrame(p));
    assert e.page != TopFrame(p);
    UnshareKeeps(m, d, i, TopFrame(p));
    if e.page >= LOW_FRAMES {
      NamedIsCounted(p, t, i);
    }
    assert FreeFrames(Owned(p, d, i)) == FreeFrames(m);
    assert Owned(p, d, i).reserved == p.reserved;
  }

  /** Either way the entry becomes writable, the page shows the same words, and they are the task's own. */
  lemma OwnedKeeps(p: Phys, d: nat, i: nat)
    requires Inv(p) && d < ENTRIES && i < ENTRIES && PresentAt(p, d, i)
    requires OwnsPage(p, p.mem[p.dir[d].page][i]) || SomeFree(p)
    ensures var t, q := p.dir[d].page, Owned(p, d, i);
            && Kept(p, q, FramesToOwn(p, p.mem[t][i])) && q.dir == p.dir && q.mem[t][i].present && q.mem[t][i].write
            && p.mem[t][i].page < FRAMES && View(q) == SetPage(View(p), d, i, Private(p.mem[p.mem[t][i].page]))
  {
    hide Inv, Owned, Kept, View;
    if OwnsPage(p, p.mem[p.dir[d].page][i]) {
      AllowIs(p, d, i);
    } else {
      UnshareIs(p, d, i);
    }
  }

  // ---------- no frame is free ----------

  /** The frame get_free_page returns when every bit of the bitmap is set: the search stops at word 2^32 - 1, its test
      for a negative result never succeeds, and idx is the highest clear bit of the word before the bitmap, or -1. */
  function FullFrame(idx: int): nat
    requires -1 <= idx < 32
  {
    ((0xffff_ffff * 32 + idx) * 4096 + 0x10_0000) % 0x1_0000_0000 / 4096
  }

  /** It lies just below 1 MB, where nothing is counted. */
  lemma FullFrameIsLow(idx: int)
    requires -1 <= idx < 32
    ensures FullFrame(idx) == 0xe0 + idx < LOW_FRAMES
  {
  }

  predicate Shows(e: Eager, d: nat, i: nat, z: nat) {
    Page(e, d, i).Low? && Page(e, d, i).frame == z
  }

  /** un_wp_page with such a frame z: get_free_page clears it, the page moves there, and its words are copied. */
  ghost function Misplaced(p: Phys, d: nat, i: nat, z: nat): Phys
    requires Shape(p) && d < ENTRIES && i < ENTRIES && p.dir[d].page < FRAMES && z < LOW_FRAMES
    requires p.mem[p.dir[d].page][i].page < FRAMES && z != p.dir[d].page
  {
    Unshare(p.(mem := p.mem[z := ZeroFrame()]), p.dir[d].page, i, z)
  }

  /** What page (d, i) shows then: what it showed, unless it was in frame z already. */
  function MovedWords(p: Phys, page: nat, z: nat): Frame
    requires page < |p.mem|
  {
    if page == z then ZeroFrame() else p.mem[page]
  }

  lemma MisplacedView(p: Phys, d: nat, i: nat, z: nat)
    requires Inv(p) && d < ENTRIES && i < ENTRIES && PresentAt(p, d, i) && z < LOW_FRAMES && z !in p.tables
    ensures p.dir[d].page < FRAMES && p.mem[p.dir[d].page][i].page < FRAMES && z != p.dir[d].page
    ensures var words, q := MovedWords(p, p.mem[p.dir[d].page][i].page, z), Misplaced(p, d, i, z);
            Shape(q) && View(q) == SetPage(View(p), d, i, Low(z, true)).(low := View(p).low[z := words])
  {
    var t := p.dir[d].page;
    assert EntryOk(p, p.mem[t][i]);
    var q := Misplaced(p, d, i, z);
    forall u, j | u in p.tables && 0 <= j < ENTRIES && (u, j) != (t, i)
      ensures See(q.mem, q.mem[u][j]) == See(p.mem, p.mem[u][j])
    {
      assert EntryOk(p, p.mem[u][j]);
    }
    DirsAfterEntry(p, q, d, i);
    assert View(q).low == View(p).low[z := MovedWords(p, p.mem[t][i].page, z)];
  }

  /** Page (d, i) of e reads `was`; r shows `words` in frame z instead. */
  lemma MovedIsSeenIff(e: Eager, d: nat, i: nat, was: Frame, words: Frame, z: nat)
    requires Shaped(e) && d < ENTRIES && i < ENTRIES && |words| == |was| == ENTRIES && z < LOW_FRAMES
    requires Page(e, d, i) == Private(was) || (Page(e, d, i).Low? && e.low[Page(e, d, i).frame] == was)
    ensures var r := SetPage(e, d, i, Low(z, true)).(low := e.low[z := words]);
            (forall d': nat, i': nat, off: nat :: Read(r, d', i', off) == Read(e, d', i', off)) <==>
            words == was && (e.low[z] == words || forall d': nat, i': nat :: (d', i') != (d, i) ==>
                !Shows(e, d', i', z))
  {
    var r := SetPage(e, d, i, Low(z, true)).(low := e.low[z := words]);
    forall d': nat, i': nat
      ensures Page(r, d', i') == if (d', i') == (d, i) then Low(z, true) else Page(e, d', i')
    {
    }
    if forall d': nat, i': nat, off: nat :: Read(r, d', i', off) == Read(e, d', i', off) {
      forall off | 0 <= off < ENTRIES
        ensures words[off] == was[off]
      {
        assert Read(r, d, i, off) == Read(e, d, i, off);
      }
      assert words == was;
      if d': nat, i': nat :| (d', i') != (d, i) && Shows(e, d', i', z) {
        forall off | 0 <= off < ENTRIES
          ensures e.low[z][off] == words[off]
        {
          assert Read(r, d', i', off) == Read(e, d', i', off);
        }
        assert e.low[z] == words;
      }
    }
  }

  /** The promise of un_wp_page, that nobody sees a difference, then holds if and only if the page was not in frame z
      with something in it, and frame z held the same words before or no other page shows it. */
  lemma MisplacedIsSeenIff(p: Phys, d: nat, i: nat, z: nat)
    requires Inv(p) && d < ENTRIES && i < ENTRIES && PresentAt(p, d, i) && z < LOW_FRAMES && z !in p.tables
    ensures p.dir[d].page < FRAMES && p.mem[p.dir[d].page][i].page < FRAMES && z != p.dir[d].page
    ensures Shape(Misplaced(p, d, i, z))
    ensures var e, r, page := View(p), View(Misplaced(p, d, i, z)), p.mem[p.dir[d].page][i].page;
            (forall d': nat, i': nat, off: nat :: Read(r, d', i', off) == Read(e, d', i', off)) <==>
            (page == z ==> p.mem[z] == ZeroFrame())
            && (e.low[z] == p.mem[page] || forall d': nat, i': nat :: (d', i') != (d, i) ==> !Shows(e, d', i', z))
  {
    MisplacedView(p, d, i, z);
    ViewShaped(p);
    var entry := p.mem[p.dir[d].page][i];
    assert EntryOk(p, entry);
    assert Page(View(p), d, i) == See(p.mem, entry);
    assert entry.page < LOW_FRAMES ==> View(p).low[entry.page] == p.mem[entry.page];
    hide View, Inv;
    MovedIsSeenIff(View(p), d, i, p.mem[entry.page], MovedWords(p, entry.page, z), z);
  }

  /** A user store takes effect exactly when this holds: a page is there, and it is writable or can become so. */
  ghost predicate CanStore(p: Phys, d: nat, i: nat) {
    PresentAt(p, d, i)
    && (p.mem[p.dir[d].page][i].write || OwnsPage(p, p.mem[p.dir[d].page][i]) || SomeFree(p))
  }

  ghost function FramesToStore(p: Phys, d: nat, i: nat): nat
    requires PresentAt(p, d, i)
  {
    if p.mem[p.dir[d].page][i].write then 0 else FramesToOwn(p, p.mem[p.dir[d].page][i])
  }

  ghost function Stored(p: Phys, d: nat, i: nat, off: nat, w: Word): Phys
    requires Inv(p) && d < ENTRIES && i < ENTRIES && off < ENTRIES && CanStore(p, d, i)
  {
    var t := p.dir[d].page;
    if p.mem[t][i].write then
      assert EntryOk(p, p.mem[t][i]);
      StoreWord(p, t, i, off, w)
    else
      OwnedKeeps(p, d, i);
      var q := Owned(p, d, i);
      assert EntryOk(q, q.mem[t][i]);
      StoreWord(q, t, i, off, w)
  }

  lemma StoreWordStep(p: Phys, d: nat, i: nat, off: nat, w: Word)
    requires Inv(p) && d < ENTRIES && i < ENTRIES && off < ENTRIES && p.dir[d].present
    requires p.mem[p.dir[d].page][i].present && p.mem[p.dir[d].page][i].write
    ensures Shaped(View(p)) && p.mem[p.dir[d].page][i].page < FRAMES
    ensures var q := StoreWord(p, p.dir[d].page, i, off, w); Kept(p, q, 0) && View(q) == Write(View(p), d, i, off, w)
  {
    ViewShaped(p);
    assert EntryOk(p, p.mem[p.dir[d].page][i]);
    StoreWordKeeps(p, d, i, off, w);
    StoreWordView(p, d, i, off, w);
  }

  lemma StoredKeeps(p: Phys, d: nat, i: nat, off: nat, w: Word)
    requires Inv(p) && d < ENTRIES && i < ENTRIES && off < ENTRIES && CanStore(p, d, i)
    ensures Shaped(View(p)) && Kept(p, Stored(p, d, i, off, w), FramesToStore(p, d, i))
    ensures View(Stored(p, d, i, off, w)) == Write(View(p), d, i, off, w)
  {
    var t := p.dir[d].page;
    ViewShaped(p);
    var e := p.mem[t][i];
    assert EntryOk(p, e);
    assert Page(View(p), d, i) == See(p.mem, e);
    if e.write {
      StoreWordStep(p, d, i, off, w);
    } else {
      OwnedKeeps(p, d, i);
      assert e.page < LOW_FRAMES ==> View(p).low[e.page] == p.mem[e.page];
      hide DirOk, EntriesOk, Exact, Owned, Kept, View, FreeFrames;
      WriteAfterUnshare(View(p), d, i, off, w);
      StoreWordStep(Owned(p, d, i), d, i, off, w);
      KeptTrans(p, Owned(p, d, i), Stored(p, d, i, off, w), FramesToOwn(p, e), 0);
    }
  }

  /** A clean page above 1 MB and within memory. */
  ghost predicate Sharable(p: Phys, high: nat, fd: nat, fi: nat) {
    PresentAt(p, fd, fi) && !p.mem[p.dir[fd].page][fi].dirty && LOW_FRAMES <= p.mem[p.dir[fd].page][fi].page < high
  }

  /** try_to_share takes effect exactly when this holds. */
  ghost predicate CanShare(p: Phys, high: nat, fd: nat, fi: nat, d: nat, i: nat) {
    Sharable(p, high, fd, fi) && !PresentAt(p, d, i) && d < |p.dir| && (p.dir[d].present || SomeFree(p))
  }

  ghost function FramesToShare(p: Phys, d: nat): nat {
    if d < |p.dir| && p.dir[d].present then 0 else 1
  }

  ghost function SharedPage(p: Phys, fd: nat, fi: nat, d: nat, i: nat): Phys
    requires Inv(p) && fd < ENTRIES && fi < ENTRIES && d < ENTRIES && i < ENTRIES && PresentAt(p, fd, fi)
    requires p.dir[d].present || SomeFree(p)
  {
    if p.dir[d].present then ShareEntry(p, p.dir[fd].page, fi, p.dir[d].page, i)
    else
      NewTableKeeps(p, d);
      ShareEntry(NewTable(p, d), p.dir[fd].page, fi, NewTable(p, d).dir[d].page, i)
  }

  lemma ShareStep(p: Phys, s: nat, fi: nat, d: nat, i: nat)
    requires Inv(p) && s in p.tables && s in Reachable(p) && fi < ENTRIES && d < ENTRIES && p.dir[d].present
        && i < ENTRIES
    requires p.mem[s][fi].present && p.mem[s][fi].page >= LOW_FRAMES && !p.mem[p.dir[d].page][i].present
    ensures var q := ShareEntry(p, s, fi, p.dir[d].page, i);
            Kept(p, q, 0) && View(q) == SetPage(View(p), d, i, See(p.mem, p.mem[s][fi]))
    ensures See(p.mem, p.mem[s][fi]).Private?
  {
    assert EntryOk(p, p.mem[s][fi]);
    ShareEntryKeeps(p, s, fi, d, i);
    NamedIsCounted(p, s, fi);
    assert FreeFrames(ShareEntry(p, s, fi, p.dir[d].page, i)) == FreeFrames(p);
  }

  lemma SharedKeeps(p: Phys, high: nat, fd: nat, fi: nat, d: nat, i: nat)
    requires Inv(p) && fd < ENTRIES && fi < ENTRIES && d < ENTRIES && i < ENTRIES && CanShare(p, high, fd, fi, d, i)
    ensures Shaped(View(p)) && Page(View(p), fd, fi).Private? && PageOk(Page(View(p), fd, fi))
    ensures Kept(p, SharedPage(p, fd, fi, d, i), FramesToShare(p, d))
    ensures View(SharedPage(p, fd, fi, d, i)) == Install(View(p), d, i, Page(View(p), fd, fi))
  {
    ViewShaped(p);
    var s := p.dir[fd].page;
    assert s in Reachable(p);
    assert EntryOk(p, p.mem[s][fi]);
    assert Page(View(p), fd, fi) == See(p.mem, p.mem[s][fi]);
    if p.dir[d].present {
      ShareStep(p, s, fi, d, i);
    } else {
      NewTableKeeps(p, d);
      var q := NewTable(p, d);
      assert q.dir[fd].page == s && s in Reachable(q);
      TakenKeeps(p);
      assert Slot(s, fi) !in Refs(Taken(p).mem, Taken(p).tables, TopFrame(p));
      assert See(q.mem, q.mem[s][fi]) == See(p.mem, p.mem[s][fi]);
      assert forall j: nat :: j < ENTRIES ==> !PresentAt(q, d, j);
      ShareStep(q, s, fi, d, i);
      assert Kept(p, q, 1);
      hide Inv, Kept, View;
      KeptTrans(p, q, SharedPage(p, fd, fi, d, i), 1, 0);
    }
  }

  // ---------- whole runs ----------

  /** How far an event gets: slots copied for a fork, otherwise 1 if it takes effect. */
  ghost function Outcome(p: Phys, high: nat, ev: Event): (k: nat)
    requires Inv(p) && EventOk(ev)
    ensures OutcomeOk(ev, k)
  {
    match ev
    case Fork(from, to, n) => SlotsCopied(p.dir, from, n, |FreeFrames(p)|)
    case Store(d, i, off, w) => if CanStore(p, d, i) then 1 else 0
    case Load(d, i, words) => if !PresentAt(p, d, i) && |FreeFrames(p)| >= FramesToLoad(p, d) then 1 else 0
    case Share(fd, fi, d, i) => if CanShare(p, high, fd, fi, d, i) then 1 else 0
  }

  /** The frames it uses: new page tables, loaded pages and private copies. */
  ghost function FramesUsed(p: Phys, high: nat, ev: Event): nat
    requires Inv(p) && EventOk(ev)
  {
    if Outcome(p, high, ev) == 0 then 0
    else
      match ev
      case Fork(from, to, n) => TablesNeeded(p.dir, from, Outcome(p, high, ev))
      case Store(d, i, off, w) => FramesToStore(p, d, i)
      case Load(d, i, words) => FramesToLoad(p, d)
      case Share(fd, fi, d, i) => FramesToShare(p, d)
  }

  /** The state after an event; a load that fails for want of a page table still cleared and filled a frame. */
  ghost function Next(p: Phys, high: nat, ev: Event): Phys
    requires Inv(p) && EventOk(ev)
  {
    var k := Outcome(p, high, ev);
    match ev
    case Fork(from, to, n) => CopySlots(p, from, to, k)
    case Store(d, i, off, w) => if k == 1 then Stored(p, d, i, off, w) else p
    case Load(d, i, words) =>
      if k == 1 then Loaded(p, d, i, words)
      else if !PresentAt(p, d, i) && SomeFree(p) then GivenBack(p, words)
      else p
    case Share(fd, fi, d, i) => if k == 1 then SharedPage(p, fd, fi, d, i) else p
  }

  /** Every event is the eager step of its outcome, and uses exactly its frames. */
  lemma NextRefines(p: Phys, high: nat, ev: Event)
    requires Inv(p) && EventOk(ev)
    ensures Shaped(View(p)) && Kept(p, Next(p, high, ev), FramesUsed(p, high, ev))
    ensures View(Next(p, high, ev)) == Step(View(p), ev, Outcome(p, high, ev))
  {
    ViewShaped(p);
    hide DirOk, EntriesOk, Exact, Kept, FreeFrames, View, Stored, Loaded, GivenBack, SharedPage, CopySlots;
    var k := Outcome(p, high, ev);
    KeptSame(p);
    match ev
    case Fork(from, to, n) =>
      assert CanCopy(p, from, to, k);
      assert Copied(p, from, to, k, CopySlots(p, from, to, k));
    case Store(d, i, off, w) =>
      if k == 1 {
        StoredKeeps(p, d, i, off, w);
      }
    case Load(d, i, words) =>
      if k == 1 {
        LoadKeeps(p, d, i, words);
      } else if !PresentAt(p, d, i) && SomeFree(p) {
        GivenBackKeeps(p, words);
      }
    case Share(fd, fi, d, i) =>
      if k == 1 {
        SharedKeeps(p, high, fd, fi, d, i);
      }
  }

  lemma KeptSame(p: Phys)
    requires Inv(p)
    ensures Kept(p, p, 0)
  {
  }

  /** A whole run: the state after it and how far each event got. */
  ghost function NextAll(p: Phys, high: nat, evs: seq<Event>): (r: (Phys, seq<nat>))
    requires Inv(p) && forall j :: 0 <= j < |evs| ==> EventOk(evs[j])
    ensures Inv(r.0) && RunOk(evs, r.1)
    decreases |evs|
  {
    if evs == [] then (p, [])
    else
      var (q, ks) := NextAll(p, high, evs[..|evs| - 1]);
      NextRefines(q, high, evs[|evs| - 1]);
      (Next(q, high, evs[|evs| - 1]), ks + [Outcome(q, high, evs[|evs| - 1])])
  }

  /** All frames a run uses. */
  ghost function FramesUsedBy(p: Phys, high: nat, evs: seq<Event>): nat
    requires Inv(p) && forall j :: 0 <= j < |evs| ==> EventOk(evs[j])
    decreases |evs|
  {
    if evs == [] then 0
    else
      var before := evs[..|evs| - 1];
      FramesUsedBy(p, high, before) + FramesUsed(NextAll(p, high, before).0, high, evs[|evs| - 1])
  }

  /** Refinement and conservation over whole runs: what every task sees is what eager copying would have shown it, and
      the free frames go down by exactly the frames the events used; none is lost and none comes back. */
  lemma {:induction false} RunRefines(p: Phys, high: nat, evs: seq<Event>)
    requires Inv(p) && forall j :: 0 <= j < |evs| ==> EventOk(evs[j])
    ensures Shaped(View(p)) && Kept(p, NextAll(p, high, evs).0, FramesUsedBy(p, high, evs))
    ensures View(NextAll(p, high, evs).0) == Replay(View(p), evs, NextAll(p, high, evs).1)
    decreases |evs|
  {
    ViewShaped(p);
    KeptSame(p);
    if evs != [] {
      var n := |evs| - 1;
      RunRefines(p, high, evs[..n]);
      var (q, ks) := NextAll(p, high, evs[..n]);
      hide DirOk, EntriesOk, Exact, Kept, FreeFrames, View, Next, Outcome, Step;
      NextRefines(q, high, evs[n]);
      KeptTrans(p, q, Next(q, high, evs[n]), FramesUsedBy(p, high, evs[..n]), FramesUsed(q, high, evs[n]));
      assert (ks + [Outcome(q, high, evs[n])])[..n] == ks;
    }
  }

  /** A page table that a second fork into the same range replaced is lost for good: whatever happens later it stays
      counted, and so does every frame its entries name. */
  lemma LostForever(p: Phys, high: nat, evs: seq<Event>, t: nat)
    requires Inv(p) && (forall j :: 0 <= j < |evs| ==> EventOk(evs[j])) && t in p.tables && t !in Reachable(p)
    ensures var q := NextAll(p, high, evs).0;
            && t in q.tables && t !in Reachable(q) && t < FRAMES && q.mem[t] == p.mem[t]
            && (t >= LOW_FRAMES ==> q.refs[t - LOW_FRAMES] >= 1)
            && (forall i :: 0 <= i < ENTRIES && p.mem[t][i].present && p.mem[t][i].page >= LOW_FRAMES ==>
                  p.mem[t][i].page < FRAMES && q.refs[p.mem[t][i].page - LOW_FRAMES] >= 1)
  {
    var q := NextAll(p, high, evs).0;
    RunRefines(p, high, evs);
    assert LostStays(p, q, t);
    assert t >= LOW_FRAMES ==> q.refs[t - LOW_FRAMES] == |Refs(q.mem, q.tables, t)| + Held(q, t);
    forall i | 0 <= i < ENTRIES && p.mem[t][i].present && p.mem[t][i].page >= LOW_FRAMES
      ensures p.mem[t][i].page < FRAMES && q.refs[p.mem[t][i].page - LOW_FRAMES] >= 1
    {
      assert EntryOk(p, p.mem[t][i]);
      NamedIsCounted(q, t, i);
    }
  }

  lemma OneMore(p: Phys, high: nat, evs: seq<Event>, ev: Event)
    requires Inv(p) && EventOk(ev) && (forall j :: 0 <= j < |evs| ==> EventOk(evs[j]))
    ensures forall j :: 0 <= j < |evs + [ev]| ==> EventOk((evs + [ev])[j])
    ensures var (q, ks) := NextAll(p, high, evs);
            NextAll(p, high, evs + [ev]) == (Next(q, high, ev), ks + [Outcome(q, high, ev)])
  {
    hide Inv, Next, Outcome;
    assert (evs + [ev])[..|evs|] == evs;
  }

  lemma TwoEvents(p: Phys, high: nat, x: Event, y: Event)
    requires Inv(p) && EventOk(x) && EventOk(y)
    ensures Inv(Next(p, high, x)) && forall j :: 0 <= j < 2 ==> EventOk([x, y][j])
    ensures var q := Next(p, high, x);
            NextAll(p, high, [x, y]) == (Next(q, high, y), [Outcome(p, high, x), Outcome(q, high, y)])
  {
    hide Inv, Next, Outcome;
    NextInv(p, high, x);
    var q, k := Next(p, high, x), Outcome(p, high, x);
    assert NextAll(p, high, [x]) == (q, [k]) by {
      var evs, ks: seq<nat> := [], [];
      assert NextAll(p, high, evs) == (p, ks);
      OneMore(p, high, evs, x);
      assert evs + [x] == [x] && ks + [k] == [k];
    }
    OneMore(p, high, [x], y);
    assert [x] + [y] == [x, y];
    assert NextAll(p, high, [x, y]) == (Next(q, high, y), [k] + [Outcome(q, high, y)]);
    assert [k] + [Outcome(q, high, y)] == [k, Outcome(q, high, y)];
  }

  lemma NextInv(p: Phys, high: nat, ev: Event)
    requires Inv(p) && EventOk(ev)
    ensures Inv(Next(p, high, ev))
  {
    NextRefines(p, high, ev);
  }

  lemma NoTableAt(p: Phys, d: nat)
    requires Inv(p) && d < ENTRIES && !p.dir[d].present
    ensures View(p).dirs[d].NoTable?
  {
  }

  /** A fork cut short. */
  lemma CutShort(p: Phys, high: nat, a: nat, to: nat, n: nat)
    requires Inv(p) && EventOk(Fork(a, to, n)) && n > 0 && p.dir[a].present
    requires 0 < |FreeFrames(p)| < TablesNeeded(p.dir, a, n)
    ensures var k, q := Outcome(p, high, Fork(a, to, n)), Next(p, high, Fork(a, to, n));
            && 0 < k < n && Inv(q) && Shaped(View(p)) && SlotReads(View(p), a, View(q), to, to)
            && (forall d :: 0 <= d < ENTRIES && !(to <= d < to + n) ==> q.dir[d] == p.dir[d])
  {
    ViewShaped(p);
    CopiesAllIff(p.dir, a, n, |FreeFrames(p)|);
    var k, q := Outcome(p, high, Fork(a, to, n)), Next(p, high, Fork(a, to, n));
    hide DirOk, EntriesOk, Exact, FreeFrames, Kept, CopySlots;
    assert Copied(p, a, to, k, q);
    NextRefines(p, high, Fork(a, to, n));
    assert Kept(p, q, FramesUsed(p, high, Fork(a, to, n)));
    CopyDirsCopies(View(p), a, to, k);
    assert View(p).dirs[a].Table?;
  }

  /** A fork of a parent without its first slot leaves the child's first slot as it was. */
  lemma FirstSlotKept(p: Phys, high: nat, b: nat, to: nat, m: nat)
    requires Inv(p) && EventOk(Fork(b, to, m)) && m > 0 && !p.dir[b].present
    ensures Outcome(p, high, Fork(b, to, m)) > 0 && View(Next(p, high, Fork(b, to, m))).dirs[to] == View(p).dirs[to]
    ensures View(Next(p, high, Fork(b, to, m))).low == View(p).low
    ensures TablesNeeded(p.dir, b, m) == 0 ==> Outcome(p, high, Fork(b, to, m)) == m
  {
    ViewShaped(p);
    var k := Outcome(p, high, Fork(b, to, m));
    CopiesAllIff(p.dir, b, m, |FreeFrames(p)|);
    NextRefines(p, high, Fork(b, to, m));
    hide DirOk, EntriesOk, Exact, FreeFrames, Kept, CopySlots, Next;
    CopyDirsCopies(View(p), b, to, k);
  }

  lemma {:induction false} SameNeed(a: seq<Word>, b: seq<Word>, from: nat, n: nat)
    requires from + n <= |a| && from + n <= |b| && forall d :: from <= d < from + n ==> b[d] == a[d]
    ensures TablesNeeded(b, from, n) == TablesNeeded(a, from, n)
  {
    if n > 0 {
      SameNeed(a, b, from, n - 1);
    }
  }

  lemma SameSlotReads(e: Eager, from: nat, q: Eager, r: Eager, to: nat)
    requires SlotReads(e, from, q, to, to) && to < |q.dirs| && to < |r.dirs| && r.dirs[to] == q.dirs[to]
        && r.low == q.low
    ensures SlotReads(e, from, r, to, to)
  {
    forall i, off: nat | 0 <= i < ENTRIES
      ensures Read(r, to, i, off) == Read(e, from + (to - to), i, off)
    {
      assert Read(q, to, i, off) == Read(e, from + (to - to), i, off);
    }
  }

  /** Two calls of copy_page_tables that leave a child with another task's pages: that for a child of parent a is cut
      short by memory, so the child never comes to be; the next into the same range is for a parent b that lacks the
      first slot, and gets to its end if b has none of the others either. Its child reads there what parent a read. */
  lemma StaleSlotReached(p: Phys, high: nat, a: nat, b: nat, to: nat, n: nat, m: nat)
    requires Inv(p) && EventOk(Fork(a, to, n)) && EventOk(Fork(b, to, m)) && n > 0 && m > 0 && !(to <= b < to + n)
    requires p.dir[a].present && !p.dir[b].present
    requires 0 < |FreeFrames(p)| < TablesNeeded(p.dir, a, n)
    ensures Shaped(View(p)) && forall j :: 0 <= j < 2 ==> EventOk([Fork(a, to, n), Fork(b, to, m)][j])
    ensures var (r, ks) := NextAll(p, high, [Fork(a, to, n), Fork(b, to, m)]);
            && ks[0] < n && ks[1] > 0 && View(p).dirs[b].NoTable? && SlotReads(View(p), a, View(r), to, to)
            && (TablesNeeded(p.dir, b, m) == 0 && (b + m <= to || to + n <= b) ==> ks[1] == m)
  {
    hide DirOk, EntriesOk, Exact, FreeFrames, Next, Outcome, View, NextAll;
    var x, y := Fork(a, to, n), Fork(b, to, m);
    TwoEvents(p, high, x, y);
    CutShort(p, high, a, to, n);
    NoTableAt(p, b);
    if b + m <= to || to + n <= b {
      SameNeed(p.dir, Next(p, high, x).dir, b, m);
    }
    FirstSlotKept(Next(p, high, x), high, b, to, m);
    SameSlotReads(View(p), a, View(Next(p, high, x)), View(Next(Next(p, high, x), high, y)), to);
  }
}
