/** Page sharing hands out clean pages only (try_to_share, mm/memory.c:171-177). Over any run the words of a clean page
    are words a demand load put there, whatever stores, forks and private copies come in between. */
module CleanPages {
  import opened PageWords
  import opened EagerSpace
  import opened PhysMemory
  import opened PageSteps

  ghost predicate CleanEntry(p: Phys, e: Word) {
    e.present && LOW_FRAMES <= e.page < |p.mem| && !e.dirty
  }

  /** Every clean entry names a frame that holds some of the words ws. */
  ghost predicate Genuine(p: Phys, ws: set<Frame>) {
    forall t, i :: t in p.tables && t < |p.mem| && 0 <= i < |p.mem[t]| && CleanEntry(p, p.mem[t][i]) ==>
        p.mem[p.mem[t][i].page] in ws
  }

  lemma StartIsGenuine(p: Phys)
    requires Start(p)
    ensures Genuine(p, {})
  {
  }

  lemma GenuineGrows(p: Phys, ws: set<Frame>, xs: set<Frame>)
    requires Genuine(p, ws) && ws <= xs
    ensures Genuine(p, xs)
  {
  }

  // ---------- one step ----------

  lemma TakenGenuine(p: Phys, ws: set<Frame>)
    requires Inv(p) && SomeFree(p) && Genuine(p, ws)
    ensures Genuine(Taken(p), ws)
  {
    TakenKeeps(p);
    var q, f := Taken(p), TopFrame(p);
    forall t, i | t in q.tables && t < |q.mem| && 0 <= i < |q.mem[t]| && CleanEntry(q, q.mem[t][i])
      ensures q.mem[q.mem[t][i].page] in ws
    {
      assert Slot(t, i) !in Refs(q.mem, q.tables, f);
    }
  }

  lemma NewTableGenuine(p: Phys, d: nat, ws: set<Frame>)
    requires Inv(p) && SomeFree(p) && d < ENTRIES && Genuine(p, ws)
    ensures Genuine(NewTable(p, d), ws)
  {
    TakenKeeps(p);
    TakenGenuine(p, ws);
  }

  lemma ShareEntryGenuine(p: Phys, s: nat, i: nat, t: nat, i': nat, ws: set<Frame>)
    requires Inv(p) && s in p.tables && i < ENTRIES && t in p.tables && i' < ENTRIES && p.mem[s][i].present
    requires Genuine(p, ws)
    ensures Genuine(ShareEntry(p, s, i, t, i'), ws)
  {
    var q := ShareEntry(p, s, i, t, i');
    assert EntryOk(p, p.mem[s][i]);
    forall u, j | u in q.tables && u < |q.mem| && 0 <= j < |q.mem[u]| && CleanEntry(q, q.mem[u][j])
      ensures q.mem[q.mem[u][j].page] in ws
    {
      assert EntryOk(p, p.mem[u][j]);
      assert (u, j) == (t, i') ==> CleanEntry(p, p.mem[s][i]);
    }
  }

  lemma CopyEntryGenuine(p: Phys, s: nat, t: nat, j: nat, ws: set<Frame>)
    requires Inv(p) && s in p.tables && t in p.tables && j < ENTRIES && Genuine(p, ws)
    ensures Genuine(CopyEntry(p, s, t, j), ws)
  {
    if p.mem[s][j].present {
      ShareEntryGenuine(p, s, j, t, j, ws);
    }
  }

  lemma {:induction false} CopyEntriesGenuine(p: Phys, from: nat, to: nat, n: nat, e: Eager, ws: set<Frame>)
    requires Inv(p) && from < ENTRIES && to < ENTRIES && from != to && p.dir[from].present && p.dir[to].present
    requires Shaped(e) && e.dirs[from].Table? && n <= ENTRIES && View(p) == CopyPages(e, from, to, 0) && Genuine(p, ws)
    ensures p.dir[from].page < FRAMES && p.dir[to].page < FRAMES
    ensures Genuine(CopyEntries(p, p.dir[from].page, p.dir[to].page, n), ws)
  {
    hide EntriesOk, Exact, View, FreeFrames, CopyEntry, CopyPages, Genuine, Shaped;
    if n > 0 {
      CopyEntriesKeeps(p, from, to, n - 1, e);
      CopyEntriesGenuine(p, from, to, n - 1, e, ws);
      var q := CopyEntries(p, p.dir[from].page, p.dir[to].page, n - 1);
      CopyEntryGenuine(q, p.dir[from].page, p.dir[to].page, n - 1, ws);
    }
  }

  lemma CopySlotGenuine(p: Phys, from: nat, to: nat, ws: set<Frame>)
    requires Inv(p) && from < ENTRIES && to < ENTRIES && from != to && (p.dir[from].present ==> SomeFree(p))
        && Genuine(p, ws)
    ensures Genuine(CopySlot(p, from, to), ws)
  {
    if p.dir[from].present {
      var e := View(p);
      ViewShaped(p);
      NewTableKeeps(p, to);
      NewTableGenuine(p, to, ws);
      CopyPagesEnds(e, from, to);
      CopyEntriesGenuine(NewTable(p, to), from, to, ENTRIES, e, ws);
    }
  }

  lemma {:induction false} CopySlotsGenuine(p: Phys, from: nat, to: nat, n: nat, ws: set<Frame>)
    requires CanCopy(p, from, to, n) && Genuine(p, ws)
    ensures Genuine(CopySlots(p, from, to, n), ws)
  {
    hide DirOk, EntriesOk, Exact, FreeFrames, CopySlot, Genuine, SomeFree, View, CopyDirs, Kept, Copied;
    if n > 0 {
      CopySlotsGenuine(p, from, to, n - 1, ws);
      ReachedNext(p, from, to, n, n - 1, CopySlots(p, from, to, n - 1));
      CopySlotGenuine(CopySlots(p, from, to, n - 1), from + n - 1, to + n - 1, ws);
    }
  }

  lemma FilledGenuine(p: Phys, words: Frame, ws: set<Frame>)
    requires Inv(p) && SomeFree(p) && |words| == ENTRIES && Genuine(p, ws)
    ensures Genuine(Filled(p, words), ws)
  {
    FilledKeeps(p, words);
    var q, f := Filled(p, words), TopFrame(p);
    TakenGenuine(p, ws);
    TakenKeeps(p);
    forall t, i | t in q.tables && t < |q.mem| && 0 <= i < |q.mem[t]| && CleanEntry(q, q.mem[t][i])
      ensures q.mem[q.mem[t][i].page] in ws
    {
      assert Slot(t, i) !in Refs(q.mem, q.tables, f);
    }
  }

  lemma MapGenuine(p: Phys, d: nat, i: nat, n: nat, ws: set<Frame>)
    requires Inv(p) && d < ENTRIES && p.dir[d].present && i < ENTRIES && Fresh(p, n) && p.mem[n] in ws
    requires Genuine(p, ws)
    ensures Genuine(Map(p, d, i, n), ws)
  {
    var q, t := Map(p, d, i, n), p.dir[d].page;
    forall u, j | u in q.tables && u < |q.mem| && 0 <= j < |q.mem[u]| && CleanEntry(q, q.mem[u][j])
      ensures q.mem[q.mem[u][j].page] in ws
    {
      assert EntryOk(p, p.mem[u][j]);
    }
  }

  lemma LoadedGenuine(p: Phys, d: nat, i: nat, words: Frame, ws: set<Frame>)
    requires Inv(p) && d < ENTRIES && i < ENTRIES && |words| == ENTRIES && |FreeFrames(p)| >= FramesToLoad(p, d)
    requires Genuine(p, ws)
    ensures Genuine(Loaded(p, d, i, words), ws + {words})
  {
    hide Exact, EntriesOk, View, Genuine, FreeFrames, CleanEntry;
    TopFrameIff(p);
    FilledKeeps(p, words);
    FilledGenuine(p, words, ws);
    var q, xs := Filled(p, words), ws + {words};
    GenuineGrows(q, ws, xs);
    TopFrameIff(q);
    if p.dir[d].present {
      MapGenuine(q, d, i, TopFrame(p), xs);
    } else {
      NewTableKeeps(q, d);
      NewTableGenuine(q, d, xs);
      FreshStays(q, d, TopFrame(p));
      MapGenuine(NewTable(q, d), d, i, TopFrame(p), xs);
    }
  }

  /** Every clean entry but that at (t, i). */
  ghost predicate GenuineBut(p: Phys, t: nat, i: nat, ws: set<Frame>) {
    forall u, j ::
      u in p.tables && u < |p.mem| && 0 <= j < |p.mem[u]| && (u, j) != (t, i) && CleanEntry(p, p.mem[u][j]) ==>
        p.mem[p.mem[u][j].page] in ws
  }

  lemma OwnedGenuine(p: Phys, d: nat, i: nat, ws: set<Frame>)
    requires Inv(p) && d < ENTRIES && i < ENTRIES && PresentAt(p, d, i) && Genuine(p, ws)
    requires OwnsPage(p, p.mem[p.dir[d].page][i]) || SomeFree(p)
    ensures GenuineBut(Owned(p, d, i), p.dir[d].page, i, ws)
  {
    var t, q := p.dir[d].page, Owned(p, d, i);
    assert EntryOk(p, p.mem[t][i]);
    if !OwnsPage(p, p.mem[t][i]) {
      TakenKeeps(p);
      TakenGenuine(p, ws);
      var m, n := Taken(p), TopFrame(p);
      forall u, j | u in q.tables && u < |q.mem| && 0 <= j < |q.mem[u]| && (u, j) != (t, i)
          && CleanEntry(q, q.mem[u][j])
        ensures q.mem[q.mem[u][j].page] in ws
      {
        assert Slot(u, j) !in Refs(m.mem, m.tables, n);
        assert m.mem[u][j] == q.mem[u][j];
        assert CleanEntry(m, m.mem[u][j]);
      }
    }
  }

  /** The store dirties the only entry that names its frame. */
  lemma StoreWordGenuine(p: Phys, t: nat, i: nat, off: nat, w: Word, ws: set<Frame>)
    requires Inv(p) && t in p.tables && i < ENTRIES && off < ENTRIES && GenuineBut(p, t, i, ws)
    requires p.mem[t][i].present && p.mem[t][i].write && p.mem[t][i].page < FRAMES
    ensures Genuine(StoreWord(p, t, i, off, w), ws)
  {
    var q, e := StoreWord(p, t, i, off, w), p.mem[t][i];
    assert EntryOk(p, e);
    forall u, j | u in q.tables && u < |q.mem| && 0 <= j < |q.mem[u]| && CleanEntry(q, q.mem[u][j])
      ensures q.mem[q.mem[u][j].page] in ws
    {
      assert EntryOk(p, p.mem[u][j]);
      if e.page >= LOW_FRAMES && Names(p.mem[u][j], e.page) {
        OnlyName(p, t, i, u, j);
      }
    }
  }

  lemma StoredGenuine(p: Phys, d: nat, i: nat, off: nat, w: Word, ws: set<Frame>)
    requires Inv(p) && d < ENTRIES && i < ENTRIES && off < ENTRIES && CanStore(p, d, i) && Genuine(p, ws)
    ensures Genuine(Stored(p, d, i, off, w), ws)
  {
    hide Exact, View, Genuine, FreeFrames, CleanEntry, GenuineBut, Owned, StoreWord;
    var t := p.dir[d].page;
    assert EntryOk(p, p.mem[t][i]);
    if p.mem[t][i].write {
      NotEvenThat(p, t, i, ws);
      StoreWordGenuine(p, t, i, off, w, ws);
    } else {
      OwnedKeeps(p, d, i);
      OwnedGenuine(p, d, i, ws);
      var q := Owned(p, d, i);
      assert EntryOk(q, q.mem[t][i]);
      StoreWordGenuine(q, t, i, off, w, ws);
    }
  }

  lemma NotEvenThat(p: Phys, t: nat, i: nat, ws: set<Frame>)
    requires Genuine(p, ws)
    ensures GenuineBut(p, t, i, ws)
  {
  }

  lemma SharedGenuine(p: Phys, fd: nat, fi: nat, d: nat, i: nat, ws: set<Frame>)
    requires Inv(p) && fd < ENTRIES && fi < ENTRIES && d < ENTRIES && i < ENTRIES && PresentAt(p, fd, fi)
    requires (p.dir[d].present || SomeFree(p)) && Genuine(p, ws)
    ensures Genuine(SharedPage(p, fd, fi, d, i), ws)
  {
    hide Exact, EntriesOk, View, Genuine, FreeFrames, CleanEntry;
    if p.dir[d].present {
      ShareEntryGenuine(p, p.dir[fd].page, fi, p.dir[d].page, i, ws);
    } else {
      NewTableKeeps(p, d);
      NewTableGenuine(p, d, ws);
      ShareEntryGenuine(NewTable(p, d), p.dir[fd].page, fi, NewTable(p, d).dir[d].page, i, ws);
    }
  }

  lemma GivenBackGenuine(p: Phys, words: Frame, ws: set<Frame>)
    requires Inv(p) && SomeFree(p) && |words| == ENTRIES && Genuine(p, ws)
    ensures Genuine(GivenBack(p, words), ws)
  {
    FilledKeeps(p, words);
    FilledGenuine(p, words, ws);
  }

  // ---------- whole runs ----------

  /** The words an event brings in. */
  function LoadedBy(ev: Event): set<Frame> {
    if ev.Load? then {ev.words} else {}
  }

  lemma NextGenuine(p: Phys, high: nat, ev: Event, ws: set<Frame>)
    requires Inv(p) && EventOk(ev) && Genuine(p, ws)
    ensures Genuine(Next(p, high, ev), ws + LoadedBy(ev))
  {
    hide DirOk, EntriesOk, Exact, FreeFrames, View, Stored, Loaded, GivenBack, SharedPage, CopySlots, Genuine;
    var k := Outcome(p, high, ev);
    assert !ev.Load? ==> ws + LoadedBy(ev) == ws;
    match ev
    case Fork(from, to, n) =>
      CopySlotsGenuine(p, from, to, k, ws);
    case Store(d, i, off, w) =>
      if k == 1 {
        StoredGenuine(p, d, i, off, w, ws);
      }
    case Load(d, i, words) =>
      GenuineGrows(p, ws, ws + {words});
      if k == 1 {
        LoadedGenuine(p, d, i, words, ws);
      } else if !PresentAt(p, d, i) && SomeFree(p) {
        GivenBackGenuine(p, words, ws + {words});
      }
    case Share(fd, fi, d, i) =>
      if k == 1 {
        SharedGenuine(p, fd, fi, d, i, ws);
      }
  }

  function AllLoaded(evs: seq<Event>): set<Frame>
    decreases |evs|
  {
    if evs == [] then {} else AllLoaded(evs[..|evs| - 1]) + LoadedBy(evs[|evs| - 1])
  }

  lemma {:induction false} StaysGenuine(p: Phys, high: nat, evs: seq<Event>, ws: set<Frame>)
    requires Inv(p) && (forall j :: 0 <= j < |evs| ==> EventOk(evs[j])) && Genuine(p, ws)
    ensures Genuine(NextAll(p, high, evs).0, ws + AllLoaded(evs))
    decreases |evs|
  {
    hide Inv, Next, Outcome, Genuine;
    assert evs == [] ==> ws + AllLoaded(evs) == ws;
    if evs != [] {
      var n := |evs| - 1;
      StaysGenuine(p, high, evs[..n], ws);
      NextGenuine(NextAll(p, high, evs[..n]).0, high, evs[n], ws + AllLoaded(evs[..n]));
      assert ws + AllLoaded(evs[..n]) + LoadedBy(evs[n]) == ws + AllLoaded(evs);
    }
  }

  /** From start-up on, a page that can be shared shows exactly the words some demand load brought in: no store has
      reached it, not through this entry and not through any it was copied from. */
  lemma SharedIsLoaded(p: Phys, high: nat, evs: seq<Event>, fd: nat, fi: nat)
    requires Inv(p) && Start(p) && forall j :: 0 <= j < |evs| ==> EventOk(evs[j])
    ensures var q := NextAll(p, high, evs).0;
            Sharable(q, high, fd, fi) ==>
              exists j :: 0 <= j < |evs| && evs[j].Load? && Page(View(q), fd, fi) == Private(evs[j].words)
  {
    StartIsGenuine(p);
    StaysGenuine(p, high, evs, {});
    var q := NextAll(p, high, evs).0;
    if Sharable(q, high, fd, fi) {
      var e := q.mem[q.dir[fd].page][fi];
      assert EntryOk(q, e);
      assert CleanEntry(q, e);
      assert Page(View(q), fd, fi) == See(q.mem, e);
      LoadedWhen(evs, q.mem[e.page]);
    }
  }

  lemma {:induction false} LoadedWhen(evs: seq<Event>, words: Frame)
    requires words in AllLoaded(evs)
    ensures exists j :: 0 <= j < |evs| && evs[j].Load? && evs[j].words == words
    decreases |evs|
  {
    if evs != [] {
      var n := |evs| - 1;
      if words in AllLoaded(evs[..n]) {
        LoadedWhen(evs[..n], words);
        var j :| 0 <= j < n && evs[..n][j].Load? && evs[..n][j].words == words;
        assert evs[j].Load? && evs[j].words == words;
      } else {
        assert evs[n].Load? && evs[n].words == words;
      }
    }
  }
}
