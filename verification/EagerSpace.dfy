/** The reference meaning of the paged address spaces: every fork copies every frame at or above 1 MB at once. All tasks
    live in one linear space of 1024 directory slots of 1024 pages each (kernel/fork.c:39). */
module EagerSpace {
  import opened PageWords

  /** What one page of linear space shows: nothing, a deliberately shared frame below 1 MB, or words of its own. */
  datatype PageView = Absent | Low(frame: nat, write: bool) | Private(words: Frame)

  datatype Dir = NoTable | Table(pages: seq<PageView>)

  datatype Eager = Eager(low: seq<Frame>, dirs: seq<Dir>)

  ghost predicate Shaped(e: Eager) {
    && |e.low| == LOW_FRAMES
    && (forall f :: 0 <= f < LOW_FRAMES ==> |e.low[f]| == ENTRIES)
    && |e.dirs| == ENTRIES
    && (forall d :: 0 <= d < ENTRIES && e.dirs[d].Table? ==> |e.dirs[d].pages| == ENTRIES)
    && (forall d, i :: 0 <= d < ENTRIES && e.dirs[d].Table? && 0 <= i < ENTRIES ==> PageOk(e.dirs[d].pages[i]))
  }

  ghost predicate PageOk(v: PageView) {
    match v
    case Absent => true
    case Low(f, _) => f < LOW_FRAMES
    case Private(ws) => |ws| == ENTRIES
  }

  /** The page seen at directory slot d, table index i. */
  function Page(e: Eager, d: nat, i: nat): PageView {
    if d < |e.dirs| && e.dirs[d].Table? && i < |e.dirs[d].pages| then e.dirs[d].pages[i] else Absent
  }

  datatype Option<T> = None | Some(value: T)

  /** What a load from word `off` of that page returns. */
  function Read(e: Eager, d: nat, i: nat, off: nat): Option<Word> {
    match Page(e, d, i)
    case Absent => None
    case Low(f, _) => if f < |e.low| && off < |e.low[f]| then Some(e.low[f][off]) else None
    case Private(ws) => if off < |ws| then Some(ws[off]) else None
  }

  function SetPage(e: Eager, d: nat, i: nat, v: PageView): (r: Eager)
    requires d < |e.dirs| && e.dirs[d].Table? && i < |e.dirs[d].pages|
  {
    e.(dirs := e.dirs[d := Table(e.dirs[d].pages[i := v])])
  }

  /** A child gets its own words at once; a frame below 1 MB stays shared and becomes read-only for the child. */
  function Inherit(v: PageView): PageView {
    match v
    case Low(f, _) => Low(f, false)
    case _ => v
  }

  /** Directory slot `to` receives a full copy of slot `from`; a missing source table copies nothing. */
  function CopyDir(e: Eager, from: nat, to: nat): (r: Eager)
    requires from < |e.dirs| && to < |e.dirs|
    ensures |r.dirs| == |e.dirs| && r.low == e.low
  {
    if e.dirs[from].NoTable? then e
    else
      var pages := e.dirs[from].pages;
      e.(dirs := e.dirs[to := Table(seq(|pages|, i requires 0 <= i < |pages| => Inherit(pages[i])))])
  }

  function CopyDirs(e: Eager, from: nat, to: nat, n: nat): (r: Eager)
    requires from + n <= |e.dirs| && to + n <= |e.dirs|
    ensures |r.dirs| == |e.dirs| && r.low == e.low
  {
    if n == 0 then e else CopyDir(CopyDirs(e, from, to, n - 1), from + n - 1, to + n - 1)
  }

  /** The first k entries of a table copied into an empty one. */
  function CopyPages(e: Eager, from: nat, to: nat, k: nat): (r: Eager)
    requires from < |e.dirs| && to < |e.dirs| && e.dirs[from].Table? && k <= |e.dirs[from].pages|
  {
    var pages := e.dirs[from].pages;
    e.(dirs := e.dirs[to := Table(seq(|pages|, i requires 0 <= i < |pages| => if i < k then Inherit(pages[i])
        else Absent))])
  }

  /** One more entry copied. */
  lemma CopyPagesStep(e: Eager, from: nat, to: nat, k: nat)
    requires from < |e.dirs| && to < |e.dirs| && e.dirs[from].Table? && k < |e.dirs[from].pages| && from != to
    ensures CopyPages(e, from, to, k).dirs[from] == e.dirs[from]
    ensures CopyPages(e, from, to, k + 1) == SetPage(CopyPages(e, from, to, k), to, k, Inherit(e.dirs[from].pages[k]))
    ensures e.dirs[from].pages[k] == Absent ==> CopyPages(e, from, to, k + 1) == CopyPages(e, from, to, k)
  {
    var pages := e.dirs[from].pages;
    var was, now := CopyPages(e, from, to, k), CopyPages(e, from, to, k + 1);
    assert now.dirs[to].pages == was.dirs[to].pages[k := Inherit(pages[k])];
    assert now.dirs == SetPage(was, to, k, Inherit(pages[k])).dirs;
    if pages[k] == Absent {
      assert now.dirs[to].pages == was.dirs[to].pages;
      assert now.dirs == was.dirs;
    }
  }

  /** Copying starts from an empty table and ends with the whole table copied. */
  lemma CopyPagesEnds(e: Eager, from: nat, to: nat)
    requires Shaped(e) && from < ENTRIES && to < ENTRIES && e.dirs[from].Table?
    ensures CopyPages(e, from, to, 0) == e.(dirs := e.dirs[to := Table(seq(ENTRIES, i => Absent))])
    ensures CopyPages(e, from, to, ENTRIES) == CopyDir(e, from, to)
  {
    assert CopyPages(e, from, to, 0).dirs[to].pages == seq(ENTRIES, i => Absent);
    assert CopyPages(e, from, to, ENTRIES).dirs[to].pages == CopyDir(e, from, to).dirs[to].pages;
  }

  /** A user store: the first store to a read-only frame below 1 MB gives the task its own copy. */
  function Write(e: Eager, d: nat, i: nat, off: nat, w: Word): (r: Eager)
    requires Shaped(e) && off < ENTRIES
    ensures Shaped(r)
  {
    match Page(e, d, i)
    case Absent => e
    case Private(ws) => SetPage(e, d, i, Private(ws[off := w]))
    case Low(f, true) => e.(low := e.low[f := e.low[f][off := w]])
    case Low(f, false) => SetPage(e, d, i, Private(e.low[f][off := w]))
  }

  /** Giving a read-only page its own words first does not change what a store does. */
  lemma WriteAfterUnshare(e: Eager, d: nat, i: nat, off: nat, w: Word)
    requires Shaped(e) && off < ENTRIES
    requires Page(e, d, i).Private? || (Page(e, d, i).Low? && !Page(e, d, i).write)
    ensures var v := Page(e, d, i);
            PageOk(v) && Write(SetPage(e, d, i, Private(if v.Low? then e.low[v.frame] else v.words)), d, i, off, w)
                      == Write(e, d, i, off, w)
  {
    var v := Page(e, d, i);
    assert PageOk(e.dirs[d].pages[i]);
    var words := if v.Low? then e.low[v.frame] else v.words;
    var m := SetPage(e, d, i, Private(words));
    assert Shaped(m);
    assert Page(m, d, i) == Private(words);
    assert m.dirs[d].pages[i := Private(words[off := w])] == e.dirs[d].pages[i := Private(words[off := w])];
  }

  /** A new table with no present entry, if the slot has none. */
  function EnsureTable(e: Eager, d: nat): (r: Eager)
    requires Shaped(e) && d < ENTRIES
    ensures Shaped(r) && r.dirs[d].Table?
  {
    if e.dirs[d].Table? then e else e.(dirs := e.dirs[d := Table(seq(ENTRIES, i => Absent))])
  }

  /** An absent page receives words of its own (demand loading), or a copy of another task's page (sharing). */
  function Install(e: Eager, d: nat, i: nat, v: PageView): (r: Eager)
    requires Shaped(e) && d < ENTRIES && i < ENTRIES && PageOk(v)
    ensures Shaped(r)
  {
    SetPage(EnsureTable(e, d), d, i, v)
  }

  // ---------- what forking and storing mean to the tasks ----------

  lemma {:induction false} CopyDirsShape(e: Eager, from: nat, to: nat, n: nat)
    requires Shaped(e) && from + n <= ENTRIES && to + n <= ENTRIES
    ensures Shaped(CopyDirs(e, from, to, n))
  {
    if n > 0 {
      CopyDirsShape(e, from, to, n - 1);
    }
  }

  /** In r, slot t of the range starting at `to` reads as the matching slot of the range at `from` reads in e. */
  ghost predicate SlotReads(e: Eager, from: nat, r: Eager, to: nat, t: nat)
    requires to <= t
  {
    forall i, off: nat | 0 <= i < ENTRIES :: Read(r, t, i, off) == Read(e, from + (t - to), i, off)
  }

  /** A fork over disjoint slots: the parent and everyone else keep what they had, every copied slot of the child reads
      what the parent reads, and a slot the parent lacks keeps what the child's slot held. */
  lemma {:induction false} CopyDirsCopies(e: Eager, from: nat, to: nat, n: nat)
    requires Shaped(e) && from + n <= ENTRIES && to + n <= ENTRIES
    requires from + n <= to || to + n <= from
    ensures forall d :: 0 <= d < ENTRIES && !(to <= d < to + n) ==> CopyDirs(e, from, to, n).dirs[d] == e.dirs[d]
    ensures forall t :: to <= t < to + n && e.dirs[from + (t - to)].NoTable? ==>
        CopyDirs(e, from, to, n).dirs[t] == e.dirs[t]
    ensures forall t :: to <= t < to + n && e.dirs[from + (t - to)].Table? ==>
        SlotReads(e, from, CopyDirs(e, from, to, n), to, t)
  {
    if n > 0 {
      CopyDirsCopies(e, from, to, n - 1);
      CopyDirsShape(e, from, to, n - 1);
      var m := CopyDirs(e, from, to, n - 1);
      var r := CopyDirs(e, from, to, n);
      assert m.dirs[from + n - 1] == e.dirs[from + n - 1];
      forall t | to <= t < to + n && e.dirs[from + (t - to)].Table?
        ensures SlotReads(e, from, r, to, t)
      {
        if t < to + n - 1 {
          assert SlotReads(e, from, m, to, t);
          forall i, off: nat | 0 <= i < ENTRIES
            ensures Read(r, t, i, off) == Read(m, t, i, off)
          {
            assert r.dirs[t] == m.dirs[t];
          }
        }
      }
    }
  }

  ghost predicate SameReads(e: Eager, from: nat, r: Eager, to: nat, n: nat)
  {
    forall t: nat :: to <= t < to + n ==> SlotReads(e, from, r, to, t)
  }

  /** A slot that shows no page at all. */
  ghost predicate Blank(e: Eager, d: nat) {
    forall i: nat :: i < ENTRIES ==> Page(e, d, i) == Absent
  }

  /** No slot the source range lacks is filled in the target range. */
  ghost predicate NothingStale(e: Eager, from: nat, to: nat, n: nat)
    requires from + n <= |e.dirs|
  {
    forall t: nat :: to <= t < to + n && e.dirs[from + (t - to)].NoTable? ==> Blank(e, t)
  }

  /** The child reads exactly the parent's space if and only if no slot the parent lacks was left filled in the child's
      range, as an earlier fork that failed half way leaves it. */
  lemma ForkIsExactIff(e: Eager, from: nat, to: nat, n: nat)
    requires Shaped(e) && from + n <= ENTRIES && to + n <= ENTRIES
    requires from + n <= to || to + n <= from
    ensures SameReads(e, from, CopyDirs(e, from, to, n), to, n) <==> NothingStale(e, from, to, n)
  {
    CopyDirsCopies(e, from, to, n);
    var r := CopyDirs(e, from, to, n);
    forall t: nat | to <= t < to + n && e.dirs[from + (t - to)].NoTable?
      ensures SlotReads(e, from, r, to, t) <==> Blank(e, t)
    {
      UnfilledSlot(e, from, r, to, t);
    }
  }

  lemma UnfilledSlot(e: Eager, from: nat, r: Eager, to: nat, t: nat)
    requires Shaped(e) && to <= t < ENTRIES && from + (t - to) < ENTRIES && |r.dirs| == ENTRIES
    requires e.dirs[from + (t - to)].NoTable? && r.dirs[t] == e.dirs[t] && r.low == e.low
    ensures SlotReads(e, from, r, to, t) <==> Blank(e, t)
  {
    if SlotReads(e, from, r, to, t) {
      forall i: nat | i < ENTRIES
        ensures Page(e, t, i) == Absent
      {
        assert Read(r, t, i, 0) == Read(e, from + (t - to), i, 0);
        if e.dirs[t].Table? {
          assert PageOk(e.dirs[t].pages[i]);
        }
      }
    }
    if Blank(e, t) {
      forall i, off: nat | 0 <= i < ENTRIES
        ensures Read(r, t, i, off) == Read(e, from + (t - to), i, off)
      {
        assert Page(e, t, i) == Absent;
      }
    }
  }

  /** A store lands in the page stored to; any other page changes only if both show the same frame below 1 MB and the
      storing task may write it. */
  lemma WriteIsLocal(e: Eager, d: nat, i: nat, off: nat, w: Word, d': nat, i': nat, off': nat)
    requires Shaped(e) && off < ENTRIES
    requires Page(e, d, i) != Absent
    ensures Read(Write(e, d, i, off, w), d, i, off) == Some(w)
    ensures (d', i') != (d, i) || off' != off ==>
              (Read(Write(e, d, i, off, w), d', i', off') != Read(e, d', i', off') ==>
                 Page(e, d, i).Low? && Page(e, d, i).write && off' == off
                 && Page(e, d', i').Low? && Page(e, d', i').frame == Page(e, d, i).frame)
  {
  }

  // ---------- whole runs ----------

  /** What tasks and the kernel do to the linear space: fork a range of slots, store a word, load a page on demand, or
      share the clean page of another task. */
  datatype Event =
    | Fork(from: nat, to: nat, n: nat)
    | Store(d: nat, i: nat, off: nat, w: Word)
    | Load(d: nat, i: nat, words: Frame)
    | Share(fd: nat, fi: nat, d: nat, i: nat)

  predicate EventOk(ev: Event) {
    match ev
    case Fork(from, to, n) => from + n <= ENTRIES && to + n <= ENTRIES && (from + n <= to || to + n <= from)
    case Store(d, i, off, w) => d < ENTRIES && i < ENTRIES && off < ENTRIES
    case Load(d, i, words) => d < ENTRIES && i < ENTRIES && |words| == ENTRIES
    case Share(fd, fi, d, i) => fd < ENTRIES && fi < ENTRIES && d < ENTRIES && i < ENTRIES
  }

  /** How far an event got: slots copied for a fork (all n unless memory ran out), otherwise 1 for done and 0
      for nothing done. */
  predicate OutcomeOk(ev: Event, k: nat) {
    if ev.Fork? then k <= ev.n else k <= 1
  }

  ghost function Step(e: Eager, ev: Event, k: nat): (r: Eager)
    requires Shaped(e) && EventOk(ev) && OutcomeOk(ev, k)
    ensures Shaped(r)
  {
    match ev
    case Fork(from, to, n) => CopyDirsShape(e, from, to, k); CopyDirs(e, from, to, k)
    case Store(d, i, off, w) => if k == 0 then e else Write(e, d, i, off, w)
    case Load(d, i, words) => if k == 0 then e else Install(e, d, i, Private(words))
    case Share(fd, fi, d, i) =>
      if k == 0 || !Page(e, fd, fi).Private? then e
      else
        assert PageOk(e.dirs[fd].pages[fi]);
        Install(e, d, i, Page(e, fd, fi))
  }

  ghost predicate RunOk(evs: seq<Event>, ks: seq<nat>) {
    |evs| == |ks| && forall j :: 0 <= j < |evs| ==> EventOk(evs[j]) && OutcomeOk(evs[j], ks[j])
  }

  ghost function Replay(e: Eager, evs: seq<Event>, ks: seq<nat>): (r: Eager)
    requires Shaped(e) && RunOk(evs, ks)
    ensures Shaped(r)
    decreases |evs|
  {
    if evs == [] then e
    else
      var n := |evs| - 1;
      Step(Replay(e, evs[..n], ks[..n]), evs[n], ks[n])
  }

  /** The directory slots an event can fill or change. */
  predicate Touches(ev: Event, d: nat) {
    match ev
    case Fork(from, to, n) => to <= d < to + n
    case Store(t, i, off, w) => t == d
    case Load(t, i, words) => t == d
    case Share(fd, fi, t, i) => t == d
  }

  /** Isolation over whole runs: whatever the other tasks fork, store, load or share, a slot none of the events acts on
      keeps every page, so all words of its own read the same for ever. */
  lemma {:induction false} UntouchedSlotKeepsItsPages(e: Eager, evs: seq<Event>, ks: seq<nat>, d: nat)
    requires Shaped(e) && RunOk(evs, ks) && d < ENTRIES
    requires forall j :: 0 <= j < |evs| ==> !Touches(evs[j], d)
    ensures Replay(e, evs, ks).dirs[d] == e.dirs[d]
    ensures forall i, off: nat | 0 <= i < ENTRIES && Page(e, d, i).Private? ::
              Read(Replay(e, evs, ks), d, i, off) == Read(e, d, i, off)
    decreases |evs|
  {
    if evs != [] {
      var n := |evs| - 1;
      UntouchedSlotKeepsItsPages(e, evs[..n], ks[..n], d);
      var m := Replay(e, evs[..n], ks[..n]);
      assert !Touches(evs[n], d);
      if evs[n].Fork? {
        CopyDirsCopies(m, evs[n].from, evs[n].to, ks[n]);
      }
      assert Step(m, evs[n], ks[n]).dirs[d] == m.dirs[d];
    }
  }
}
