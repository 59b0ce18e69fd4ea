/** What the processor lets user code do with a page: the low three bits of the two words on the walk decide. Bit 0 says
    present, bit 1 writable, bit 2 user (include/mm/mm.h:22-33). */
module UserAccess {
  import opened PageWords
  import opened EagerSpace
  import opened PhysMemory
  import opened PageSteps

  /** The low three bits of the value of a word. */
  lemma LowBits(w: Word)
    ensures Encode(w) % 8 == Bit(w.present) + 2 * Bit(w.write) + 4 * Bit(w.user)
  {
    var rest := w.page * 512 + w.high * 16 + Bit(w.dirty) * 8 + w.mid;
    assert Encode(w) == rest * 8 + (Bit(w.user) * 4 + Bit(w.write) * 2 + Bit(w.present));
    Low8(rest, Bit(w.user) * 4 + Bit(w.write) * 2 + Bit(w.present));
  }

  /** Values of the words found on the walk to page (d, i). */
  ghost function DirWord(p: Phys, d: nat): nat
    requires d < |p.dir|
  {
    Encode(p.dir[d])
  }

  ghost function EntryWord(p: Phys, t: nat, i: nat): nat
    requires t < |p.mem| && i < |p.mem[t]|
  {
    Encode(p.mem[t][i])
  }

  /** User code may read page (d, i): both words have the present and the user bit. */
  ghost predicate MayRead(p: Phys, d: nat, i: nat) {
    && d < |p.dir| && DirWord(p, d) % 8 in {5, 7}
    && p.dir[d].page < |p.mem| && i < |p.mem[p.dir[d].page]| && EntryWord(p, p.dir[d].page, i) % 8 in {5, 7}
  }

  /** It may store there without a fault: both words have the write bit too. */
  ghost predicate MayWrite(p: Phys, d: nat, i: nat) {
    && d < |p.dir| && DirWord(p, d) % 8 == 7
    && p.dir[d].page < |p.mem| && i < |p.mem[p.dir[d].page]| && EntryWord(p, p.dir[d].page, i) % 8 == 7
  }

  /** No word keeps user code out: every directory word that has bit 0 has bits 1 and 2, and every entry that has bit 0
      has bit 2. */
  ghost predicate Open(p: Phys) {
    && (forall d :: 0 <= d < |p.dir| && DirWord(p, d) % 2 == 1 ==> DirWord(p, d) % 8 == 7)
    && (forall t, i :: t in p.tables && t < |p.mem| && 0 <= i < |p.mem[t]| && EntryWord(p, t, i) % 2 == 1 ==>
          EntryWord(p, t, i) % 8 in {5, 7})
  }

  /** The same on the fields. */
  ghost predicate OpenWords(p: Phys) {
    && (forall d :: 0 <= d < |p.dir| && p.dir[d].present ==> p.dir[d].write && p.dir[d].user)
    && (forall t, i :: t in p.tables && t < |p.mem| && 0 <= i < |p.mem[t]| && p.mem[t][i].present ==>
          p.mem[t][i].user)
  }

  lemma WordMeans(w: Word)
    ensures Encode(w) % 2 == 1 <==> w.present
    ensures w.present ==> (Encode(w) % 8 == 7 <==> w.write && w.user) && (Encode(w) % 8 in {5, 7} <==> w.user)
  {
    hide Encode;
    LowBits(w);
  }

  lemma OpenIsOpenWords(p: Phys)
    ensures Open(p) <==> OpenWords(p)
  {
    hide Encode;
    forall d | 0 <= d < |p.dir|
      ensures DirWord(p, d) % 2 == 1 <==> p.dir[d].present
      ensures p.dir[d].present ==> (DirWord(p, d) % 8 == 7 <==> p.dir[d].write && p.dir[d].user)
    {
      WordMeans(p.dir[d]);
    }
    forall t: nat, i | t < |p.mem| && 0 <= i < |p.mem[t]|
      ensures EntryWord(p, t, i) % 2 == 1 <==> p.mem[t][i].present
      ensures p.mem[t][i].present ==> (EntryWord(p, t, i) % 8 in {5, 7} <==> p.mem[t][i].user)
    {
      WordMeans(p.mem[t][i]);
    }
    hide DirWord, EntryWord;
  }

  // ---------- the words an event leaves, bit for bit ----------

  /** A loaded page is entered as frame | 7, and so is a page table made for it. */
  lemma LoadedWords(p: Phys, d: nat, i: nat, words: Frame)
    requires Inv(p) && d < ENTRIES && i < ENTRIES && |words| == ENTRIES && |FreeFrames(p)| >= FramesToLoad(p, d)
    ensures var q := Loaded(p, d, i, words);
            && |q.dir| == ENTRIES && (p.dir[d].present ==> q.dir[d] == p.dir[d])
            && (!p.dir[d].present ==> DirWord(q, d) % 4096 == 7)
            && q.dir[d].page < |q.mem| && i < |q.mem[q.dir[d].page]|
            && EntryWord(q, q.dir[d].page, i) == TopFrame(p) * 4096 + 7
  {
    TopFrameIff(p);
    FilledKeeps(p, words);
    var q := Filled(p, words);
    TopFrameIff(q);
    if !p.dir[d].present {
      NewTableKeeps(q, d);
    }
  }

  /** Each page table of the child is entered as frame | 7 where the parent has one. */
  ghost predicate ChildWords(was: seq<Word>, now: seq<Word>, from: nat, to: nat, n: nat) {
    && from + n <= |was| && to + n <= |now|
    && (forall d :: to <= d < to + n && was[from + (d - to)].present ==> Encode(now[d]) % 4096 == 7)
  }

  lemma NoWords(dir: seq<Word>, from: nat, to: nat)
    requires from <= |dir| && to <= |dir|
    ensures ChildWords(dir, dir, from, to, 0)
  {
  }

  lemma OneMoreWord(was: seq<Word>, now: seq<Word>, next: seq<Word>, from: nat, to: nat, n: nat)
    requires n > 0 && ChildWords(was, now, from, to, n - 1) && from + n <= |was| && to + n <= |now| == |next|
    requires forall d :: 0 <= d < |now| && d != to + n - 1 ==> next[d] == now[d]
    requires was[from + n - 1].present ==> Encode(next[to + n - 1]) % 4096 == 7
    ensures ChildWords(was, next, from, to, n)
  {
  }

  lemma ForkWordsStep(p: Phys, from: nat, to: nat, n: nat, q: Phys)
    requires n > 0 && CanCopy(p, from, to, n) && Copied(p, from, to, n - 1, q)
    requires ChildWords(p.dir, q.dir, from, to, n - 1)
    ensures Inv(q) && (q.dir[from + n - 1].present ==> SomeFree(q))
    ensures ChildWords(p.dir, PageSteps.CopySlot(q, from + n - 1, to + n - 1).dir, from, to, n)
  {
    hide DirOk, EntriesOk, Exact, FreeFrames, View, CopyDirs, PageSteps.CopySlot, Encode, ChildWords;
    SlotsStep(p, from, to, n, q);
    assert q.dir[from + n - 1] == p.dir[from + n - 1];
    SlotWords(q, from + n - 1, to + n - 1);
    OneMoreWord(p.dir, q.dir, PageSteps.CopySlot(q, from + n - 1, to + n - 1).dir, from, to, n);
  }

  lemma {:induction false} ForkWords(p: Phys, from: nat, to: nat, n: nat)
    requires CanCopy(p, from, to, n)
    ensures ChildWords(p.dir, CopySlots(p, from, to, n).dir, from, to, n)
  {
    hide DirOk, EntriesOk, Exact, FreeFrames, PageSteps.CopySlot, SomeFree, View, CopyDirs, Kept, Copied, ChildWords;
    if n > 0 {
      ForkWords(p, from, to, n - 1);
      ForkWordsStep(p, from, to, n, CopySlots(p, from, to, n - 1));
    } else {
      NoWords(p.dir, from, to);
    }
  }

  lemma ReachedWords(p: Phys, from: nat, to: nat, n: nat, k: nat, q: Phys)
    requires Reached(p, from, to, n, k, q)
    ensures ChildWords(p.dir, q.dir, from, to, k)
  {
    ForkWords(p, from, to, k);
  }

  lemma SlotWords(p: Phys, from: nat, to: nat)
    requires Inv(p) && from < ENTRIES && to < ENTRIES && from != to && (p.dir[from].present ==> SomeFree(p))
    ensures var q := PageSteps.CopySlot(p, from, to);
            && |q.dir| == ENTRIES && |p.dir| == ENTRIES
            && (forall d :: 0 <= d < ENTRIES && d != to ==> q.dir[d] == p.dir[d])
            && (p.dir[from].present ==> Encode(q.dir[to]) == TopFrame(p) * 4096 + 7)
  {
    if p.dir[from].present {
      NewTableKeeps(p, to);
    }
  }

  /** Fork and page sharing enter the source's word without bit 1; above 1 MB the source's own entry gets it too. */
  lemma SharedWords(p: Phys, s: nat, i: nat, t: nat, i': nat)
    requires Shape(p) && s in p.tables && i < ENTRIES && t in p.tables && i' < ENTRIES && (s, i) != (t, i')
    requires p.mem[s][i].page < FRAMES
    ensures var q, was := ShareEntry(p, s, i, t, i'), EntryWord(p, s, i);
            && Shape(q) && EntryWord(q, t, i') == was - was % 4 / 2 * 2
            && EntryWord(q, s, i) == if p.mem[s][i].page < LOW_FRAMES then was else was - was % 4 / 2 * 2
  {
    WriteBit(p.mem[s][i]);
  }

  /** A store leaves bits 1 and 6 set. */
  lemma StoredWords(p: Phys, d: nat, i: nat, off: nat, w: Word)
    requires Inv(p) && d < ENTRIES && i < ENTRIES && off < ENTRIES && CanStore(p, d, i)
    requires InRange(p.mem[p.dir[d].page][i]) && TopFrame(p) < FRAMES
    ensures var t, q := p.dir[d].page, Stored(p, d, i, off, w);
            && t < |q.mem| && |q.mem[t]| == ENTRIES
            && EntryWord(q, t, i) / 2 % 2 == 1 && EntryWord(q, t, i) / 64 % 2 == 1
  {
    var t := p.dir[d].page;
    assert EntryOk(p, p.mem[t][i]);
    if p.mem[t][i].write {
      Bits(p.mem[t][i].(dirty := true));
    } else {
      OwnedKeeps(p, d, i);
      var q := Owned(p, d, i);
      assert EntryOk(q, q.mem[t][i]);
      if OwnsPage(p, p.mem[t][i]) {
        assert q.mem[t][i] == p.mem[t][i].(write := true);
      } else {
        TakenKeeps(p);
        assert q.mem[t][i] == Uwp(TopFrame(p));
      }
      assert Stored(p, d, i, off, w).mem[t][i] == q.mem[t][i].(dirty := true);
      Bits(q.mem[t][i].(dirty := true));
    }
  }

  // ---------- one step ----------

  lemma NewTableOpen(p: Phys, d: nat)
    requires Inv(p) && SomeFree(p) && d < ENTRIES && OpenWords(p)
    ensures OpenWords(NewTable(p, d))
  {
    NewTableKeeps(p, d);
  }

  lemma CopyEntryOpen(p: Phys, s: nat, t: nat, j: nat)
    requires Shape(p) && s in p.tables && t in p.tables && j < ENTRIES && OpenWords(p)
    ensures OpenWords(CopyEntry(p, s, t, j))
  {
  }

  lemma {:induction false} CopyEntriesOpen(p: Phys, s: nat, t: nat, n: nat)
    requires Shape(p) && s in p.tables && t in p.tables && n <= ENTRIES && OpenWords(p)
    ensures OpenWords(CopyEntries(p, s, t, n))
  {
    hide Shape, OpenWords, CopyEntry;
    if n > 0 {
      TablesFit(p, s);
      TablesFit(p, t);
      CopyEntriesOpen(p, s, t, n - 1);
      CopyEntryOpen(CopyEntries(p, s, t, n - 1), s, t, n - 1);
    }
  }

  lemma TablesFit(p: Phys, t: nat)
    requires Shape(p) && t in p.tables
    ensures t < FRAMES
  {
  }

  lemma CopySlotOpen(p: Phys, from: nat, to: nat)
    requires Inv(p) && from < ENTRIES && to < ENTRIES && from != to && (p.dir[from].present ==> SomeFree(p))
    requires OpenWords(p)
    ensures OpenWords(PageSteps.CopySlot(p, from, to))
  {
    if p.dir[from].present {
      NewTableKeeps(p, to);
      NewTableOpen(p, to);
      CopyEntriesOpen(NewTable(p, to), p.dir[from].page, TopFrame(p), ENTRIES);
    }
  }

  lemma SlotsStepOpen(p: Phys, from: nat, to: nat, n: nat, q: Phys)
    requires n > 0 && CanCopy(p, from, to, n) && Copied(p, from, to, n - 1, q) && OpenWords(q)
    ensures Inv(q) && (q.dir[from + n - 1].present ==> SomeFree(q))
    ensures OpenWords(PageSteps.CopySlot(q, from + n - 1, to + n - 1))
  {
    hide DirOk, EntriesOk, Exact, FreeFrames, View, CopyDirs, PageSteps.CopySlot, OpenWords;
    SlotsStep(p, from, to, n, q);
    CopySlotOpen(q, from + n - 1, to + n - 1);
  }

  lemma {:induction false} CopySlotsOpen(p: Phys, from: nat, to: nat, n: nat)
    requires CanCopy(p, from, to, n) && OpenWords(p)
    ensures OpenWords(CopySlots(p, from, to, n))
  {
    hide DirOk, EntriesOk, Exact, FreeFrames, PageSteps.CopySlot, SomeFree, View, CopyDirs, Kept, Copied, OpenWords;
    if n > 0 {
      CopySlotsOpen(p, from, to, n - 1);
      SlotsStepOpen(p, from, to, n, CopySlots(p, from, to, n - 1));
    }
  }

  lemma FilledOpen(p: Phys, words: Frame)
    requires Inv(p) && SomeFree(p) && |words| == ENTRIES && OpenWords(p)
    ensures OpenWords(Filled(p, words))
  {
    FilledKeeps(p, words);
  }

  lemma MapOpen(p: Phys, d: nat, i: nat, n: nat)
    requires Shape(p) && d < ENTRIES && p.dir[d].page < FRAMES && i < ENTRIES && OpenWords(p)
    ensures OpenWords(Map(p, d, i, n))
  {
  }

  lemma LoadedOpen(p: Phys, d: nat, i: nat, words: Frame)
    requires Inv(p) && d < ENTRIES && i < ENTRIES && |words| == ENTRIES && |FreeFrames(p)| >= FramesToLoad(p, d)
    requires OpenWords(p)
    ensures OpenWords(Loaded(p, d, i, words))
  {
    TopFrameIff(p);
    FilledKeeps(p, words);
    FilledOpen(p, words);
    var q := Filled(p, words);
    TopFrameIff(q);
    if p.dir[d].present {
      MapOpen(q, d, i, TopFrame(p));
    } else {
      NewTableKeeps(q, d);
      NewTableOpen(q, d);
      MapOpen(NewTable(q, d), d, i, TopFrame(p));
    }
  }

  lemma OwnedOpen(p: Phys, d: nat, i: nat)
    requires Inv(p) && d < ENTRIES && i < ENTRIES && PresentAt(p, d, i) && OpenWords(p)
    requires OwnsPage(p, p.mem[p.dir[d].page][i]) || SomeFree(p)
    ensures OpenWords(Owned(p, d, i))
  {
    var t := p.dir[d].page;
    assert EntryOk(p, p.mem[t][i]);
    if !OwnsPage(p, p.mem[t][i]) {
      TakenKeeps(p);
    }
  }

  lemma StoreWordOpen(p: Phys, t: nat, i: nat, off: nat, w: Word)
    requires Shape(p) && t in p.tables && i < ENTRIES && off < ENTRIES && OpenWords(p)
    requires p.mem[t][i].page < FRAMES && p.mem[t][i].page !in p.tables
    ensures OpenWords(StoreWord(p, t, i, off, w))
  {
  }

  lemma StoredOpen(p: Phys, d: nat, i: nat, off: nat, w: Word)
    requires Inv(p) && d < ENTRIES && i < ENTRIES && off < ENTRIES && CanStore(p, d, i) && OpenWords(p)
    ensures OpenWords(Stored(p, d, i, off, w))
  {
    var t := p.dir[d].page;
    assert EntryOk(p, p.mem[t][i]);
    if p.mem[t][i].write {
      StoreWordOpen(p, t, i, off, w);
    } else {
      OwnedKeeps(p, d, i);
      OwnedOpen(p, d, i);
      var q := Owned(p, d, i);
      assert EntryOk(q, q.mem[t][i]);
      StoreWordOpen(q, t, i, off, w);
    }
  }

  lemma ShareEntryOpen(p: Phys, s: nat, i: nat, t: nat, i': nat)
    requires Shape(p) && s in p.tables && i < ENTRIES && t in p.tables && i' < ENTRIES && p.mem[s][i].present
    requires OpenWords(p)
    ensures OpenWords(ShareEntry(p, s, i, t, i'))
  {
  }

  lemma SharedOpen(p: Phys, fd: nat, fi: nat, d: nat, i: nat)
    requires Inv(p) && fd < ENTRIES && fi < ENTRIES && d < ENTRIES && i < ENTRIES && PresentAt(p, fd, fi)
    requires (p.dir[d].present || SomeFree(p)) && OpenWords(p)
    ensures OpenWords(SharedPage(p, fd, fi, d, i))
  {
    if p.dir[d].present {
      ShareEntryOpen(p, p.dir[fd].page, fi, p.dir[d].page, i);
    } else {
      NewTableKeeps(p, d);
      NewTableOpen(p, d);
      ShareEntryOpen(NewTable(p, d), p.dir[fd].page, fi, NewTable(p, d).dir[d].page, i);
    }
  }

  lemma NextOpen(p: Phys, high: nat, ev: Event)
    requires Inv(p) && EventOk(ev) && OpenWords(p)
    ensures OpenWords(Next(p, high, ev))
  {
    hide DirOk, EntriesOk, Exact, FreeFrames, View, Stored, Loaded, GivenBack, SharedPage, CopySlots, OpenWords;
    var k := Outcome(p, high, ev);
    match ev
    case Fork(from, to, n) =>
      CopySlotsOpen(p, from, to, k);
    case Store(d, i, off, w) =>
      if k == 1 {
        StoredOpen(p, d, i, off, w);
      }
    case Load(d, i, words) =>
      if k == 1 {
        LoadedOpen(p, d, i, words);
      } else if !PresentAt(p, d, i) && SomeFree(p) {
        GivenBackOpen(p, words);
      }
    case Share(fd, fi, d, i) =>
      if k == 1 {
        SharedOpen(p, fd, fi, d, i);
      }
  }

  lemma GivenBackOpen(p: Phys, words: Frame)
    requires Inv(p) && SomeFree(p) && |words| == ENTRIES && OpenWords(p)
    ensures OpenWords(GivenBack(p, words))
  {
    FilledKeeps(p, words);
    FilledOpen(p, words);
  }

  // ---------- whole runs ----------

  lemma {:induction false} StaysOpenWords(p: Phys, high: nat, evs: seq<Event>)
    requires Inv(p) && (forall j :: 0 <= j < |evs| ==> EventOk(evs[j])) && OpenWords(p)
    ensures OpenWords(NextAll(p, high, evs).0)
    decreases |evs|
  {
    hide Inv, Next, Outcome, OpenWords;
    if evs != [] {
      var n := |evs| - 1;
      StaysOpenWords(p, high, evs[..n]);
      NextOpen(NextAll(p, high, evs[..n]).0, high, evs[n]);
    }
  }

  /** Page tables a run allocates, and entries it makes, copies or moves, never lock user code out. */
  lemma StaysOpen(p: Phys, high: nat, evs: seq<Event>)
    requires Inv(p) && (forall j :: 0 <= j < |evs| ==> EventOk(evs[j])) && Open(p)
    ensures Open(NextAll(p, high, evs).0)
  {
    hide Inv, NextAll, Open, OpenWords;
    OpenIsOpenWords(p);
    StaysOpenWords(p, high, evs);
    OpenIsOpenWords(NextAll(p, high, evs).0);
  }

  /** Where no word keeps user code out, it may read exactly the pages that show something, and store without a fault
      through exactly the entries with bit 1. */
  lemma ReadsWhatIsShown(p: Phys, d: nat, i: nat)
    requires Inv(p) && Open(p) && d < ENTRIES && i < ENTRIES
    ensures MayRead(p, d, i) <==> Page(View(p), d, i) != Absent
    ensures MayWrite(p, d, i) <==> PresentAt(p, d, i) && p.mem[p.dir[d].page][i].write
  {
    hide Exact, Encode;
    LowBits(p.dir[d]);
    if p.dir[d].present {
      var e := p.mem[p.dir[d].page][i];
      LowBits(e);
      assert EntryOk(p, e);
      assert Page(View(p), d, i) == See(p.mem, e);
      assert DirWord(p, d) % 2 == 1;
    }
  }

  /** Over whole runs: user code may read exactly the pages that eager copying would have shown it. */
  lemma RunReadsWhatIsShown(p: Phys, high: nat, evs: seq<Event>, d: nat, i: nat)
    requires Inv(p) && (forall j :: 0 <= j < |evs| ==> EventOk(evs[j])) && Open(p) && d < ENTRIES && i < ENTRIES
    ensures Shaped(View(p))
    ensures var (q, ks) := NextAll(p, high, evs);
            MayRead(q, d, i) <==> Page(Replay(View(p), evs, ks), d, i) != Absent
  {
    hide Open, Inv, View, NextAll, Replay, Page, Kept;
    StaysOpen(p, high, evs);
    RunRefines(p, high, evs);
    ReadsWhatIsShown(NextAll(p, high, evs).0, d, i);
  }
}
