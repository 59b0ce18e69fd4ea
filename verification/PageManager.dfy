/** The page manager of mm/memory.c, updating its bitmap, counts, frames and directory in place. Addresses of frames are
    frame numbers; 0 stands for "no page". */
module PageManager {
  import opened PageWords
  import opened EagerSpace
  import opened PhysMemory
  import opened PageSteps
  import opened UserAccess

  class Manager {
    /** mem_map: one row per 32-bit word, one column per bit. */
    const memMap: array2<bool>
    /** mm_pages[]._refcount. */
    const refcount: array<int>
    const mem: array<Frame>
    const pgDir: array<Word>
    /** HIGH_MEMORY, in frames. */
    const high: nat
    ghost var tables: set<nat>
    ghost var reserved: set<nat>

    ghost function Abs(): Phys
      reads this, refcount, mem, pgDir
    {
      Phys(mem[..], pgDir[..], refcount[..], tables, reserved)
    }

    /** A bitmap bit is set exactly when the frame is counted. */
    ghost predicate BitsOk()
      reads memMap, refcount
    {
      && memMap.Length0 == MM_BITMAPS && memMap.Length1 == 32 && refcount.Length == MM_PAGES
      && (forall n :: 0 <= n < MM_PAGES ==> refcount[n] >= 0)
      && (forall pos, idx :: 0 <= pos < MM_BITMAPS && 0 <= idx < 32 ==>
          (memMap[pos, idx] <==> refcount[pos * 32 + idx] > 0))
    }

    ghost predicate Distinct() {
      && mem as object != pgDir && mem as object != refcount && mem as object != memMap
      && pgDir as object != refcount && pgDir as object != memMap && refcount as object != memMap
    }

    ghost predicate Valid()
      reads this, memMap, refcount, mem, pgDir
    {
      Distinct() && BitsOk() && FreeBelowHigh() && Inv(Abs())
    }

    /** Only frames below the end of memory are ever free. */
    ghost predicate FreeBelowHigh()
      reads refcount
    {
      forall n :: 0 <= n < refcount.Length && refcount[n] == 0 ==> n + LOW_FRAMES < high
    }

    ghost function Spaces(): Eager
      reads this, memMap, refcount, mem, pgDir
      requires Valid()
      ensures Shaped(Spaces())
    {
      ViewShaped(Abs());
      View(Abs())
    }

    /** A frame the bitmap describes but mm_init does not free. */
    static predicate Unavailable(f: nat, start: nat, end: nat) {
      LOW_FRAMES <= f && !(start <= f < end)
    }

    /** mm_init: everything is marked used once, then the frames from `start` up to `end` that the bitmap can describe
        are freed. The boot directory maps low memory only. */
    constructor MmInit(start: nat, end: nat, boot: seq<Frame>, dir: seq<Word>, ghost bootTables: set<nat>)
      requires |boot| == FRAMES && |dir| == ENTRIES && forall f :: 0 <= f < FRAMES ==> |boot[f]| == ENTRIES
      requires forall d :: 0 <= d < ENTRIES && dir[d].present ==> dir[d].page in bootTables
      requires forall d, d' :: 0 <= d < d' < ENTRIES && dir[d].present && dir[d'].present ==>
          dir[d].page != dir[d'].page
      requires forall t :: t in bootTables ==> t < LOW_FRAMES
      requires forall t, i :: t in bootTables && 0 <= i < ENTRIES && boot[t][i].present ==>
                 boot[t][i].page < LOW_FRAMES && boot[t][i].page !in bootTables
      ensures Valid() && high == end && fresh(memMap) && fresh(refcount) && fresh(mem) && fresh(pgDir)
      ensures mem[..] == boot && pgDir[..] == dir && tables == bootTables
      ensures forall n :: 0 <= n < MM_PAGES ==> (refcount[n] == 0 <==> start <= n + LOW_FRAMES < end)
    {
      high := end;
      memMap := new bool[MM_BITMAPS, 32]((p, i) => true);
      refcount := new int[MM_PAGES](i => 1);
      mem := new Frame[FRAMES](i requires 0 <= i < |boot| => boot[i]);
      pgDir := new Word[ENTRIES](i requires 0 <= i < |dir| => dir[i]);
      tables := bootTables;
      reserved := {};
      new;
      assert mem[..] == boot && pgDir[..] == dir;
      var addr := start;
      while addr < end
        invariant BitsOk() && Distinct() && mem[..] == boot && pgDir[..] == dir && tables == bootTables
        invariant start <= addr && (addr <= end || addr == start)
        invariant forall n :: 0 <= n < MM_PAGES ==> refcount[n] == if start <= n + LOW_FRAMES < addr then 0 else 1
      {
        var panic := ClearMemMap(addr);
        addr := addr + 1;
      }
      reserved := set f: nat | f < FRAMES && Unavailable(f, start, end);
      assert Start(Abs());
      StartIsInv(Abs());
    }

    /** get_bitpos: addresses outside the bitmap are refused. */
    predicate InBitmap(f: nat) {
      LOW_FRAMES <= f < FRAMES
    }

    method SetMemMap(f: nat)
      requires BitsOk() && Distinct()
      modifies memMap, refcount
      ensures BitsOk()
      ensures InBitmap(f) ==> refcount[..] == old(refcount[..])[f - LOW_FRAMES := old(refcount[f - LOW_FRAMES]) + 1]
      ensures !InBitmap(f) ==> refcount[..] == old(refcount[..])
    {
      if InBitmap(f) {
        var n := f - LOW_FRAMES;
        memMap[n / 32, n % 32] := true;
        refcount[n] := refcount[n] + 1;
      }
    }

    /** Drops one count; the bit is cleared when the count reaches 0, and a count below 0 is a panic. */
    method ClearMemMap(f: nat) returns (panic: bool)
      requires BitsOk() && Distinct()
      modifies memMap, refcount
      ensures panic <==> InBitmap(f) && old(refcount[f - LOW_FRAMES]) == 0
      ensures InBitmap(f) ==> refcount[..] == old(refcount[..])[f - LOW_FRAMES := old(refcount[f - LOW_FRAMES]) - 1]
      ensures !InBitmap(f) ==> refcount[..] == old(refcount[..])
      ensures !panic ==> BitsOk()
    {
      panic := false;
      if InBitmap(f) {
        var n := f - LOW_FRAMES;
        refcount[n] := refcount[n] - 1;
        if refcount[n] == 0 {
          memMap[n / 32, n % 32] := false;
        } else if refcount[n] < 0 {
          panic := true;
        }
      }
    }

    predicate WordFull(pos: nat)
      reads memMap
      requires memMap.Length1 == 32 && pos < memMap.Length0
    {
      forall idx :: 0 <= idx < 32 ==> memMap[pos, idx]
    }

    /** The highest-numbered free frame, cleared and counted once; 0 exactly if every frame is in use. */
    method GetFreePage() returns (f: nat)
      requires Valid()
      modifies this`reserved, memMap, refcount, mem
      ensures Valid() && f == TopFrame(old(Abs())) && (f == 0 <==> FreeFrames(old(Abs())) == {})
      ensures Abs() == if f == 0 then old(Abs()) else Taken(old(Abs()))
      ensures Spaces() == old(Spaces())
    {
      hide DirOk, EntriesOk, Exact, View, Refs, FreeFrames;
      ghost var p := Abs();
      TopFrameIff(p);
      var pos := MM_BITMAPS - 1;
      while pos >= 0 && WordFull(pos)
        invariant -1 <= pos < MM_BITMAPS
        invariant forall p, i :: pos < p < MM_BITMAPS && 0 <= i < 32 ==> memMap[p, i]
      {
        pos := pos - 1;
      }
      if pos < 0 {
        forall n | 0 <= n < MM_PAGES
          ensures refcount[n] > 0
        {
          assert memMap[n / 32, n % 32];
        }
        return 0;
      }
      var idx := 31;
      while idx >= 0 && memMap[pos, idx]
        invariant -1 <= idx < 32
        invariant forall i :: idx < i < 32 ==> memMap[pos, i]
      {
        idx := idx - 1;
      }
      f := pos * 32 + idx + LOW_FRAMES;
      forall n | f - LOW_FRAMES < n < MM_PAGES
        ensures refcount[n] > 0
      {
        assert memMap[n / 32, n % 32];
      }
      assert !memMap[pos, idx];
      assert TopFree(p.refs) == f - LOW_FRAMES;
      TakeFrame(f);
    }

    /** The frame found is cleared and counted once. */
    method TakeFrame(f: nat)
      requires Valid() && f == TopFrame(Abs()) && f != 0
      modifies this`reserved, memMap, refcount, mem
      ensures Valid() && Abs() == old(Taken(Abs())) && Spaces() == old(Spaces())
    {
      hide DirOk, EntriesOk, Exact, View, Refs, FreeFrames;
      ghost var p := Abs();
      TopFrameIff(p);
      TakenKeeps(p);
      mem[f] := ZeroFrame();
      SetMemMap(f);
      reserved := reserved + {f};
      assert Abs() == Taken(p);
    }

    /** Drops a frame the kernel holds; frames below 1 MB are ignored. A frame past the end of memory, or one that is
        free already, is a panic. */
    method FreePage(f: nat) returns (panic: bool)
      requires Valid() && (InBitmap(f) && f < high && refcount[f - LOW_FRAMES] > 0 ==> f in reserved)
      modifies this`reserved, memMap, refcount
      ensures panic <==> f >= LOW_FRAMES && (f >= high || (f < FRAMES && old(refcount[f - LOW_FRAMES]) == 0))
      ensures !panic ==> Valid() && Spaces() == old(Spaces())
      ensures !panic ==> Abs() == if InBitmap(f) then Release(old(Abs()), f) else old(Abs())
    {
      if f < LOW_FRAMES {
        return false;
      }
      if f >= high {
        return true;
      }
      if InBitmap(f) && refcount[f - LOW_FRAMES] > 0 {
        ReleaseKeeps(Abs(), f);
        assert refcount[f - LOW_FRAMES] == |Refs(Abs().mem, tables, f)| + Held(Abs(), f);
      }
      panic := ClearMemMap(f);
      reserved := reserved - {f};
      assert !panic ==> Abs() == if InBitmap(f) then Release(old(Abs()), f) else old(Abs());
    }

    /** An entry for linear page (d, i), as the page-table walk of pte() finds it. */
    predicate Present(d: nat, i: nat)
      reads mem, pgDir
    {
      d < pgDir.Length && pgDir[d].present && pgDir[d].page < mem.Length && i < |mem[pgDir[d].page]|
      && mem[pgDir[d].page][i].present
    }

    /** The bitmap shows a free frame. */
    predicate FreeExists()
      reads memMap
    {
      exists pos, idx :: 0 <= pos < memMap.Length0 && 0 <= idx < memMap.Length1 && !memMap[pos, idx]
    }

    lemma FreeExistsIff()
      requires Valid()
      ensures FreeExists() <==> SomeFree(Abs())
    {
      TopFrameIff(Abs());
      if SomeFree(Abs()) {
        var n := TopFree(Abs().refs);
        assert !memMap[n / 32, n % 32];
      }
    }

    /** A cleared page just taken becomes the page table of directory slot d. */
    method AttachTable(d: nat, table: nat)
      requires Valid() && d < ENTRIES && Fresh(Abs(), table) && mem[table] == ZeroFrame()
      modifies this, pgDir
      ensures Valid() && pgDir[..] == old(pgDir[..])[d := Uwp(table)] && reserved == old(reserved) - {table}
      ensures tables == old(tables) + {table} && Encode(pgDir[d]) == table * 4096 + 7
      ensures Spaces() == old(Spaces()).(dirs := old(Spaces()).dirs[d := Table(seq(ENTRIES, i => Absent))])
    {
      MakeTableKeeps(Abs(), d, table);
      pgDir[d] := Uwp(table);
      tables, reserved := tables + {table}, reserved - {table};
      assert Abs() == MakeTable(old(Abs()), d, table);
    }

    /** One turn of the inner loop of copy_page_tables. */
    method CopyOne(source: nat, table: nat, j: nat)
      requires Distinct() && BitsOk() && Inv(Abs()) && source in tables && table in tables && j < ENTRIES
      modifies refcount, mem
      ensures BitsOk() && Abs() == PageSteps.CopyEntry(old(Abs()), source, table, j)
    {
      ghost var p := Abs();
      var entry := mem[source][j];
      assert EntryOk(p, entry);
      if entry.present {
        if entry.page >= LOW_FRAMES {
          NamedIsCounted(p, source, j);
        }
        entry := entry.(write := false);
        mem[table] := mem[table][j := entry];
        if entry.page >= LOW_FRAMES {
          mem[source] := mem[source][j := entry];
          refcount[entry.page - LOW_FRAMES] := refcount[entry.page - LOW_FRAMES] + 1;
        }
        assert Abs() == ShareEntry(p, source, j, table, j);
      }
    }

    /** The inner loop of copy_page_tables: 1024 entries, into a table that is still empty. */
    method CopyTable(from: nat, to: nat, ghost e: Eager)
      requires Valid() && from < ENTRIES && to < ENTRIES && from != to && pgDir[from].present && pgDir[to].present
      requires Shaped(e) && e.dirs[from].Table? && Spaces() == CopyPages(e, from, to, 0)
      modifies refcount, mem
      ensures Valid() && old(pgDir[from].page) < FRAMES && old(pgDir[to].page) < FRAMES
      ensures Abs() == CopyEntries(old(Abs()), old(pgDir[from].page), old(pgDir[to].page), ENTRIES)
    {
      ghost var p := Abs();
      var source, table := pgDir[from].page, pgDir[to].page;
      var j := 0;
      while j < ENTRIES
        invariant 0 <= j <= ENTRIES && Distinct() && BitsOk() && source < FRAMES && table < FRAMES
        invariant Abs() == CopyEntries(p, source, table, j)
      {
        CopyEntriesKeeps(p, from, to, j, e);
        CopyOne(source, table, j);
        j := j + 1;
      }
      CopyEntriesKeeps(p, from, to, ENTRIES, e);
      StillBelowHigh(p);
    }

    /** No step frees a frame, so free frames stay below the end of memory. */
    twostate lemma StillBelowHigh(p: Phys)
      requires old(FreeBelowHigh()) && p == old(Abs()) && FreeFrames(Abs()) <= FreeFrames(p)
      ensures FreeBelowHigh()
    {
      forall n | 0 <= n < refcount.Length && refcount[n] == 0
        ensures n + LOW_FRAMES < high
      {
        assert n in FreeFrames(Abs());
        assert old(refcount[n]) == 0;
      }
    }

    /** One turn of the outer loop: a present source slot gets a new table and a full copy, unless it needs a frame and
        none is free. */
    method CopySlot(from: nat, to: nat) returns (ok: bool)
      requires Valid() && from < ENTRIES && to < ENTRIES && from != to
      modifies this, memMap, refcount, mem, pgDir
      ensures Valid() && (ok <==> HasFrame(old(Abs()), from))
      ensures ok ==> old(pgDir[from].present) ==>
          SomeFree(old(Abs())) && Encode(pgDir[to]) == TopFrame(old(Abs())) * 4096 + 7
      ensures Abs() == if ok then PageSteps.CopySlot(old(Abs()), from, to) else old(Abs())
    {
      ghost var p := Abs();
      if !pgDir[from].present {
        return true;
      }
      var table := GetFreePage();
      if table == 0 {
        return false;
      }
      TakenKeeps(p);
      NewTableKeeps(p, to);
      AttachTable(to, table);
      CopyPagesEnds(View(p), from, to);
      CopyTable(from, to, View(p));
      ok := true;
    }

    /** Copies n directory slots for a fork. Returns 0, or -1 when a page table could not be allocated; `done` slots
        were copied, up to the first one the parent has and no frame was free for. */
    method CopyPageTables(from: nat, to: nat, n: nat) returns (r: int, done: nat)
      requires Valid() && from + n <= ENTRIES && to + n <= ENTRIES && (from + n <= to || to + n <= from)
      modifies this, memMap, refcount, mem, pgDir
      ensures Valid() && r == (if done == n then 0 else -1)
      ensures done == SlotsCopied(old(pgDir[..]), from, n, |FreeFrames(old(Abs()))|)
      ensures Reached(old(Abs()), from, to, n, done, Abs())
      ensures Spaces() == CopyDirs(old(Spaces()), from, to, done)
      ensures ChildWords(old(pgDir[..]), pgDir[..], from, to, done)
    {
      hide ChildWords, Inv, View, FreeFrames, CopyDirs, CopySlots, BitsOk, FreeBelowHigh, PageSteps.CopySlot, SomeFree,
          SlotsCopied,
          HasFrame, Reached, TablesNeeded;
      ghost var p := Abs();
      ReachedStart(p, from, to, n);
      done := 0;
      while done < n
        invariant Valid() && done <= n && Reached(p, from, to, n, done, Abs())
      {
        ReachedNext(p, from, to, n, done, Abs());
        var ok := CopySlot(from + done, to + done);
        if !ok {
          ReachedWords(p, from, to, n, done, Abs());
          return -1, done;
        }
        done := done + 1;
      }
      ReachedNext(p, from, to, n, n, Abs());
      ReachedWords(p, from, to, n, n, Abs());
      r := 0;
    }

    /** fork: the child's task page is taken, then the parent's 64 MB range is copied to the child's; -EAGAIN, with the
        task page given back, exactly when there are too few frames for it and the child's page tables. Slots are
        numbered as in copy_mem: task nr owns directory slots 16 nr and up. */
    method CopyProcess(parent: nat, child: nat, n: nat) returns (r: int, taskPage: nat, done: nat)
      requires Valid() && parent != child && parent < 8 && child < 8 && n <= 16
      modifies this, memMap, refcount, mem, pgDir
      ensures var free := |FreeFrames(old(Abs()))|;
              && r == (if TablesNeeded(old(pgDir[..]), 16 * parent, n) < free then 0 else -11)
              && done == (if free == 0 then 0 else SlotsCopied(old(pgDir[..]), 16 * parent, n, free - 1))
      ensures Valid() && Spaces() == CopyDirs(old(Spaces()), 16 * parent, 16 * child, done)
      ensures r == 0 ==> done == n && taskPage == TopFrame(old(Abs())) != 0 && Fresh(Abs(), taskPage)
      ensures reserved == old(reserved) + if r == 0 then {taskPage} else {}
      ensures |FreeFrames(Abs())| + TablesNeeded(old(pgDir[..]), 16 * parent, done) + (if r == 0 then 1 else 0)
           == |FreeFrames(old(Abs()))|
    {
      hide ChildWords, DirOk, EntriesOk, Exact, View, Reached, SlotsCopied, CopySlots, Refs, BitsOk;
      ghost var p := Abs();
      TopFrameIff(p);
      done := 0;
      taskPage := GetFreePage();
      if taskPage == 0 {
        return -11, 0, 0;
      }
      TakenKeeps(p);
      hide FreeFrames, CopyDirs;
      r, done := CopyPageTables(16 * parent, 16 * child, n);
      AfterFork(p, 16 * parent, 16 * child, n, done, Abs());
      if r != 0 {
        var panic := FreePage(taskPage);
        r := -11;
      }
    }

    /** Loading words into a frame just taken. */
    method FillFresh(page: nat, words: Frame)
      requires Valid() && Fresh(Abs(), page) && |words| == ENTRIES
      modifies mem
      ensures Valid() && Fresh(Abs(), page) && mem[..] == old(mem[..])[page := words] && Spaces() == old(Spaces())
    {
      FillKeeps(Abs(), page, words);
      mem[page] := words;
      assert Abs() == Fill(old(Abs()), page, words);
    }

    /** put_page: gives a page just taken its place in the linear space, allocating the page table if needed; 0 exactly
        if no frame is free for it. */
    method PutPage(page: nat, d: nat, i: nat) returns (r: nat)
      requires Valid() && d < ENTRIES && i < ENTRIES && Fresh(Abs(), page) && !Present(d, i)
      modifies this, memMap, refcount, mem, pgDir
      ensures Valid() && r == (if old(pgDir[d].present) || FreeFrames(old(Abs())) != {} then page else 0)
      ensures r == 0 ==> Abs() == old(Abs()) && !SomeFree(old(Abs()))
      ensures r != 0 ==> (old(pgDir[d].present) || SomeFree(old(Abs())))
      ensures r != 0 ==> Encode(pgDir[d]) == if old(pgDir[d].present) then old(Encode(pgDir[d]))
                                             else TopFrame(old(Abs())) * 4096 + 7
      ensures r != 0 ==> pgDir[d].page < FRAMES && Encode(mem[pgDir[d].page][i]) == page * 4096 + 7
      ensures r != 0 ==> Abs() == Map(if old(pgDir[d].present) then old(Abs()) else NewTable(old(Abs()), d), d, i, page)
    {
      ghost var p := Abs();
      if !pgDir[d].present {
        var table := GetFreePage();
        if table == 0 {
          return 0;
        }
        TakenKeeps(p);
        NewTableKeeps(p, d);
        FreshStays(p, d, page);
        AttachTable(d, table);
      }
      ghost var q := Abs();
      MapFrees(q, d, i, page);
      var t := pgDir[d].page;
      mem[t] := mem[t][i := Uwp(page)];
      reserved := reserved - {page};
      assert Abs() == Map(q, d, i, page);
      r := page;
    }

    /** Demand loading: a free page receives the loaded words and is put at (d, i); given back if that fails. It fails
        exactly when no frame is free, or one only and a page table is missing too. */
    method LoadPage(d: nat, i: nat, words: Frame) returns (ok: bool)
      requires Valid() && d < ENTRIES && i < ENTRIES && |words| == ENTRIES && !Present(d, i)
      modifies this, memMap, refcount, mem, pgDir
      ensures Valid() && (ok <==> |FreeFrames(old(Abs()))| >= FramesToLoad(old(Abs()), d))
      ensures Abs() == if ok then Loaded(old(Abs()), d, i, words)
                       else if SomeFree(old(Abs())) then GivenBack(old(Abs()), words) else old(Abs())
    {
      ghost var p := Abs();
      TopFrameIff(p);
      var page := GetFreePage();
      if page == 0 {
        return false;
      }
      FilledKeeps(p, words);
      TakenKeeps(p);
      FillFresh(page, words);
      ghost var q := Abs();
      assert q == Filled(p, words);
      TopFrameIff(q);
      var r := PutPage(page, d, i);
      if r == 0 {
        GivenBackKeeps(p, words);
        var panic := FreePage(page);
        return false;
      }
      ok := true;
    }

    /** The store can be done: the entry is writable, or is its frame's only name, or a frame is free for a copy. The
        code goes on with frame 0 when it needs a copy and no frame is free, so that case is excluded. */
    predicate CanOwn(d: nat, i: nat)
      requires refcount.Length == MM_PAGES && Present(d, i)
      reads memMap, refcount, mem, pgDir
    {
      var page := mem[pgDir[d].page][i].page;
      (LOW_FRAMES <= page < FRAMES && refcount[page - LOW_FRAMES] == 1) || FreeExists()
    }

    /** un_wp_page on the entry for linear page (d, i): write permission if it is the frame's only name, otherwise a
        private copy in a new frame. What every task sees stays the same, and the entry is writable. */
    method UnWpPage(d: nat, i: nat)
      requires Valid() && d < ENTRIES && i < ENTRIES && Present(d, i) && CanOwn(d, i)
      modifies this, memMap, refcount, mem
      ensures Valid() && Present(d, i) && mem[pgDir[d].page][i].write && mem[pgDir[d].page][i].page >= LOW_FRAMES
      ensures OwnsPage(old(Abs()), old(mem[pgDir[d].page][i])) || SomeFree(old(Abs()))
      ensures Abs() == Owned(old(Abs()), d, i)
      ensures Encode(mem[pgDir[d].page][i])
           == if OwnsPage(old(Abs()), old(mem[pgDir[d].page][i]))
              then old(Encode(mem[pgDir[d].page][i]) - Encode(mem[pgDir[d].page][i]) % 4 / 2 * 2) + 2
              else TopFrame(old(Abs())) * 4096 + 7
      ensures Spaces() == SetPage(old(Spaces()), d, i, Private(old(mem[mem[pgDir[d].page][i].page])))
    {
      hide Exact, LostStays, Shaped, View, FreeFrames, Refs;
      var t := pgDir[d].page;
      var e := mem[t][i];
      ghost var p := Abs();
      assert EntryOk(p, e);
      FreeExistsIff();
      OwnedKeeps(p, d, i);
      WriteBit(e);
      if e.page >= LOW_FRAMES && refcount[e.page - LOW_FRAMES] == 1 {
        mem[t] := mem[t][i := e.(write := true)];
        assert Abs() == Allow(p, t, i);
        return;
      }
      if e.page >= LOW_FRAMES {
        NamedIsCounted(p, t, i);
      }
      TakenKeeps(p);
      var n := GetFreePage();
      assert mem[t] == p.mem[t];
      assert Slot(t, i) !in Refs(mem[..], tables, n);
      CopyToOwn(d, i, n);
    }

    /** The copying half of un_wp_page, with the new frame in hand. */
    method CopyToOwn(d: nat, i: nat, n: nat)
      requires Valid() && d < ENTRIES && i < ENTRIES && Present(d, i) && Fresh(Abs(), n)
      requires var e := mem[pgDir[d].page][i];
               e.page < FRAMES && (e.page >= LOW_FRAMES ==> refcount[e.page - LOW_FRAMES] != 1)
      modifies this`reserved, refcount, mem
      ensures Valid() && Present(d, i) && mem[pgDir[d].page][i].write && mem[pgDir[d].page][i].page == n
      ensures Encode(mem[pgDir[d].page][i]) == n * 4096 + 7
      ensures Abs() == Unshare(old(Abs()), pgDir[d].page, i, n)
    {
      ghost var p := Abs();
      var t := pgDir[d].page;
      var oldPage := mem[t][i].page;
      UnshareKeeps(p, d, i, n);
      if oldPage >= LOW_FRAMES {
        NamedIsCounted(p, t, i);
        refcount[oldPage - LOW_FRAMES] := refcount[oldPage - LOW_FRAMES] - 1;
      }
      mem[t] := mem[t][i := Uwp(n)];
      mem[n] := mem[oldPage];
      reserved := reserved - {n};
      assert Abs() == Unshare(p, t, i, n);
    }

    /** A user store: a read-only page is unshared first, as the write fault does, then the word is stored and the
        entry becomes dirty. */
    method UserStore(d: nat, i: nat, off: nat, w: Word)
      requires Valid() && d < ENTRIES && i < ENTRIES && off < ENTRIES && Present(d, i)
      requires mem[pgDir[d].page][i].write || CanOwn(d, i)
      modifies this, memMap, refcount, mem
      ensures Valid() && CanStore(old(Abs()), d, i) && Abs() == Stored(old(Abs()), d, i, off, w)
      ensures Spaces() == Write(old(Spaces()), d, i, off, w)
    {
      hide Exact, LostStays;
      ghost var p := Abs();
      FreeExistsIff();
      StoredKeeps(p, d, i, off, w);
      var t := pgDir[d].page;
      if !mem[t][i].write {
        UnWpPage(d, i);
      }
      StoreThrough(d, i, off, w);
    }

    /** The store itself, as the processor does it. */
    method StoreThrough(d: nat, i: nat, off: nat, w: Word)
      requires Valid() && d < ENTRIES && i < ENTRIES && off < ENTRIES && Present(d, i) && mem[pgDir[d].page][i].write
      modifies mem
      ensures Valid() && old(mem[pgDir[d].page][i].page) < FRAMES
      ensures Abs() == StoreWord(old(Abs()), pgDir[d].page, i, off, w)
    {
      ghost var p := Abs();
      StoreWordStep(p, d, i, off, w);
      var t := pgDir[d].page;
      var f := mem[t][i].page;
      mem[t] := mem[t][i := mem[t][i].(dirty := true)];
      mem[f] := mem[f][off := w];
      assert Abs() == StoreWord(p, t, i, off, w);
    }

    /** try_to_share: the clean page another task has at (fd, fi) is shared, write-protected in both, with the faulting
        task's page (d, i); a page already there is a panic. */
    method TryToShare(fd: nat, fi: nat, d: nat, i: nat) returns (r: int, panic: bool)
      requires Valid() && fd < ENTRIES && fi < ENTRIES && d < ENTRIES && i < ENTRIES
      requires pgDir[d].present || FreeExists()
      modifies this, memMap, refcount, mem, pgDir
      ensures panic <==> old(Sharable(Abs(), high, fd, fi)) && old(Present(d, i))
      ensures Valid() && r == (if CanShare(old(Abs()), high, fd, fi, d, i) then 1 else 0)
      ensures Abs() == if r == 0 then old(Abs()) else SharedPage(old(Abs()), fd, fi, d, i)
    {
      ghost var p := Abs();
      FreeExistsIff();
      panic := false;
      if !pgDir[fd].present {
        return 0, false;
      }
      var source := pgDir[fd].page;
      var e := mem[source][fi];
      if !(e.present && !e.dirty) {
        return 0, false;
      }
      if e.page >= high || e.page < LOW_FRAMES {
        return 0, false;
      }
      if !pgDir[d].present {
        TakenKeeps(p);
        NewTableKeeps(p, d);
        SharedKeeps(p, high, fd, fi, d, i);
        var table := GetFreePage();
        AttachTable(d, table);
      } else if mem[pgDir[d].page][i].present {
        return 0, true;
      } else {
        SharedKeeps(p, high, fd, fi, d, i);
      }
      assert mem[source] == p.mem[source];
      ShareInto(source, fi, d, i);
      r := 1;
    }

    /** The last lines of try_to_share, once the target has a page table. */
    method ShareInto(source: nat, fi: nat, d: nat, i: nat)
      requires Valid() && source in tables && fi < ENTRIES && d < ENTRIES && i < ENTRIES
      requires pgDir[d].present && !Present(d, i) && mem[source][fi].present && mem[source][fi].page >= LOW_FRAMES
      modifies memMap, refcount, mem
      ensures Valid() && Abs() == ShareEntry(old(Abs()), source, fi, pgDir[d].page, i)
    {
      ghost var p := Abs();
      var t := pgDir[d].page;
      var e := mem[source][fi].(write := false);
      assert EntryOk(p, mem[source][fi]);
      ShareEntryKeeps(p, source, fi, d, i);
      mem[source] := mem[source][fi := e];
      mem[t] := mem[t][i := e];
      SetMemMap(e.page);
      ghost var q := ShareEntry(p, source, fi, t, i);
      assert mem[source] == q.mem[source] && mem[t] == q.mem[t];
      assert Abs().mem == q.mem;
      assert Abs() == ShareEntry(p, source, fi, t, i);
    }

    /** One event; k says how far memory let it get. */
    method Handle(ev: Event) returns (k: nat)
      requires Valid() && EventOk(ev)
      modifies this, memMap, refcount, mem, pgDir
      ensures Valid() && k == Outcome(old(Abs()), high, ev) && Abs() == Next(old(Abs()), high, ev)
    {
      ghost var p := Abs();
      FreeExistsIff();
      k := 0;
      match ev
      case Fork(from, to, n) =>
        var r;
        r, k := CopyPageTables(from, to, n);
      case Store(d, i, off, w) =>
        if Present(d, i) && (mem[pgDir[d].page][i].write || CanOwn(d, i)) {
          UserStore(d, i, off, w);
          k := 1;
        }
      case Load(d, i, words) =>
        if !Present(d, i) {
          var ok := LoadPage(d, i, words);
          k := if ok then 1 else 0;
        }
      case Share(fd, fi, d, i) =>
        if !Present(d, i) && (pgDir[d].present || FreeExists()) {
          var r, panic := TryToShare(fd, fi, d, i);
          k := if r == 1 then 1 else 0;
        }
    }

    /** Refinement over whole runs: whatever forks, stores, demand loads and page sharing happen, in any order and also
        when memory runs out, the arrays hold the state and ks the outcomes of the run on values, every task sees what
        eager copying would have shown it, the counts stay exact and the bitmap agrees with them. */
    method Run(evs: seq<Event>) returns (ks: seq<nat>)
      requires Valid() && forall j :: 0 <= j < |evs| ==> EventOk(evs[j])
      modifies this, memMap, refcount, mem, pgDir
      ensures Valid() && (Abs(), ks) == NextAll(old(Abs()), high, evs)
      ensures RunOk(evs, ks) && Spaces() == Replay(old(Spaces()), evs, ks)
      ensures Open(old(Abs())) ==> Open(Abs())
      ensures |FreeFrames(Abs())| + FramesUsedBy(old(Abs()), high, evs) == |FreeFrames(old(Abs()))|
    {
      ghost var p := Abs();
      ks := [];
      for j := 0 to |evs|
        invariant Valid() && (Abs(), ks) == NextAll(p, high, evs[..j])
      {
        hide Inv, Next, Outcome;
        var k := Handle(evs[j]);
        assert evs[..j + 1][..j] == evs[..j];
        ks := ks + [k];
      }
      assert evs[..|evs|] == evs;
      RunRefines(p, high, evs);
      if Open(p) {
        StaysOpen(p, high, evs);
      }
    }
  }
}
