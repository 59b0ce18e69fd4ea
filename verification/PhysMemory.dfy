/** Physical frames, the page directory and the reference counts as one value; the invariant that makes the counts
    exact, the view tasks have of it, and one lemma per elementary step of mm/memory.c. */
module PhysMemory {
  import opened PageWords
  import opened EagerSpace

  /** `tables`: frames serving as page tables; `reserved`: frames counted once without being mapped. */
  datatype Phys = Phys(mem: seq<Frame>, dir: seq<Word>, refs: seq<int>, tables: set<nat>, reserved: set<nat>)

  /** One table entry: table frame and index. */
  datatype Slot = Slot(table: nat, index: nat)

  predicate Names(e: Word, f: nat) {
    e.present && e.page == f
  }

  /** The table entries that name frame f. */
  ghost function Refs(mem: seq<Frame>, tables: set<nat>, f: nat): (r: set<Slot>) {
    set t, i | t in tables && 0 <= i < ENTRIES && t < |mem| && i < |mem[t]| && Names(mem[t][i], f) :: Slot(t, i)
  }

  /** One for a frame that is a page table or reserved. */
  ghost function Held(p: Phys, f: nat): nat {
    if f in p.tables || f in p.reserved then 1 else 0
  }

  ghost predicate Shape(p: Phys) {
    && |p.mem| == FRAMES && |p.dir| == ENTRIES && |p.refs| == MM_PAGES
    && (forall f :: 0 <= f < FRAMES ==> |p.mem[f]| == ENTRIES)
    && (forall t :: t in p.tables ==> t < FRAMES)
    && (forall f :: f in p.reserved ==> LOW_FRAMES <= f < FRAMES && f !in p.tables)
  }

  /** Present directory entries name different page tables. */
  ghost predicate DirOk(p: Phys) {
    && (forall d :: 0 <= d < |p.dir| && p.dir[d].present ==> p.dir[d].page in p.tables)
    && (forall d, d' :: 0 <= d < d' < |p.dir| && p.dir[d].present && p.dir[d'].present ==>
        p.dir[d].page != p.dir[d'].page)
  }

  /** A present entry names a frame that is no page table; a writable one above 1 MB is the frame's only name. */
  ghost predicate EntryOk(p: Phys, e: Word) {
    e.present ==>
      && e.page < FRAMES && e.page !in p.tables
      && (e.page >= LOW_FRAMES && e.write ==> e.page - LOW_FRAMES < |p.refs| && p.refs[e.page - LOW_FRAMES] == 1)
  }

  ghost predicate EntriesOk(p: Phys)
    requires Shape(p)
  {
    forall t, i :: t in p.tables && 0 <= i < ENTRIES ==> EntryOk(p, p.mem[t][i])
  }

  /** Counts are exact: table entries naming the frame, plus one if it is a table or reserved. */
  ghost predicate Exact(p: Phys)
    requires Shape(p)
  {
    forall f :: LOW_FRAMES <= f < FRAMES ==> p.refs[f - LOW_FRAMES] == |Refs(p.mem, p.tables, f)| + Held(p, f)
  }

  ghost predicate Inv(p: Phys) {
    Shape(p) && DirOk(p) && EntriesOk(p) && Exact(p)
  }

  // ---------- the view ----------

  function See(mem: seq<Frame>, e: Word): PageView {
    if !e.present then Absent
    else if e.page < LOW_FRAMES then Low(e.page, e.write)
    else if e.page < |mem| then Private(mem[e.page])
    else Absent
  }

  ghost function SeeTable(mem: seq<Frame>, table: Frame): (r: seq<PageView>)
    ensures |r| == |table|
    ensures forall i :: 0 <= i < |table| ==> r[i] == See(mem, table[i])
  {
    seq(|table|, i requires 0 <= i < |table| => See(mem, table[i]))
  }

  ghost function SeeDir(mem: seq<Frame>, w: Word): Dir {
    if w.present && w.page < |mem| then Table(SeeTable(mem, mem[w.page])) else NoTable
  }

  /** A page table below 1 MB (the boot tables) is no data any task can name. */
  ghost function LowFrame(p: Phys, f: nat): Frame
    requires f < |p.mem|
  {
    if f in p.tables then ZeroFrame() else p.mem[f]
  }

  ghost function View(p: Phys): (e: Eager)
    requires Shape(p)
    ensures |e.low| == LOW_FRAMES && |e.dirs| == ENTRIES
    ensures forall f :: 0 <= f < LOW_FRAMES ==> e.low[f] == LowFrame(p, f)
    ensures forall d :: 0 <= d < ENTRIES ==> e.dirs[d] == SeeDir(p.mem, p.dir[d])
  {
    Eager(seq(LOW_FRAMES, f requires 0 <= f < |p.mem| => LowFrame(p, f)),
        seq(ENTRIES, d requires 0 <= d < |p.dir| => SeeDir(p.mem, p.dir[d])))
  }

  lemma ViewShaped(p: Phys)
    requires Inv(p)
    ensures Shaped(View(p))
  {
  }

  // ---------- counting names ----------

  /** Changing one table entry takes its slot from the names of the old frame and gives it to the new one. */
  lemma RefsAfterStore(mem: seq<Frame>, tables: set<nat>, t: nat, i: nat, e: Word, f: nat)
    requires t in tables && t < |mem| && i < ENTRIES && i < |mem[t]|
    ensures Refs(SetEntry(mem, t, i, e), tables, f)
         == Refs(mem, tables, f) - {Slot(t, i)} + if Names(e, f) then {Slot(t, i)} else {}
  {
  }

  /** One name less for the old frame and one more for the new one. */
  lemma CountAfterStore(mem: seq<Frame>, tables: set<nat>, t: nat, i: nat, e: Word, f: nat)
    requires t in tables && t < |mem| && i < ENTRIES && i < |mem[t]|
    ensures |Refs(SetEntry(mem, t, i, e), tables, f)|
         == |Refs(mem, tables, f)| - (if Names(mem[t][i], f) then 1 else 0) + (if Names(e, f) then 1 else 0)
  {
    var was := Refs(mem, tables, f);
    RefsAfterStore(mem, tables, t, i, e, f);
    assert Slot(t, i) in was <==> Names(mem[t][i], f);
    if Names(mem[t][i], f) {
      assert |was - {Slot(t, i)}| == |was| - 1;
    } else {
      assert was - {Slot(t, i)} == was;
    }
  }

  /** Rewriting a frame that is no page table changes no names. */
  lemma RefsAfterData(mem: seq<Frame>, tables: set<nat>, g: nat, words: Frame, f: nat)
    requires g !in tables && g < |mem|
    ensures Refs(mem[g := words], tables, f) == Refs(mem, tables, f)
  {
  }

  /** A cleared frame becoming a page table adds no names. */
  lemma RefsNewTable(mem: seq<Frame>, tables: set<nat>, g: nat, f: nat)
    requires g < |mem| && mem[g] == ZeroFrame()
    ensures Refs(mem, tables + {g}, f) == Refs(mem, tables, f)
  {
  }

  /** A frame with a name has a positive count, so a frame counted 0, or held and counted 1, has no name. */
  lemma NamedIsCounted(p: Phys, t: nat, i: nat)
    requires Inv(p) && t in p.tables && i < ENTRIES && p.mem[t][i].present && p.mem[t][i].page >= LOW_FRAMES
    ensures p.refs[p.mem[t][i].page - LOW_FRAMES] >= 1 + Held(p, p.mem[t][i].page)
  {
    var f := p.mem[t][i].page;
    assert EntryOk(p, p.mem[t][i]);
    assert Slot(t, i) in Refs(p.mem, p.tables, f);
  }

  /** The frame of a writable entry has no second name. */
  lemma OnlyName(p: Phys, t: nat, i: nat, t': nat, i': nat)
    requires Inv(p) && t in p.tables && i < ENTRIES && t' in p.tables && i' < ENTRIES
    requires p.mem[t][i].present && p.mem[t][i].page >= LOW_FRAMES && p.refs[p.mem[t][i].page - LOW_FRAMES] == 1
    requires Names(p.mem[t'][i'], p.mem[t][i].page)
    ensures t == t' && i == i'
  {
    var f := p.mem[t][i].page;
    var r := Refs(p.mem, p.tables, f);
    assert EntryOk(p, p.mem[t][i]);
    assert Slot(t, i) in r && Slot(t', i') in r;
    if Slot(t, i) != Slot(t', i') {
      assert {Slot(t, i), Slot(t', i')} <= r;
      CardinalityMonotone({Slot(t, i), Slot(t', i')}, r);
    }
  }

  lemma {:induction false} CardinalityMonotone<T>(a: set<T>, b: set<T>)
    requires a <= b
    ensures |a| <= |b|
  {
    if a != {} {
      var x :| x in a;
      CardinalityMonotone(a - {x}, b - {x});
    }
  }

  // ---------- elementary steps ----------

  /** get_free_page: a frame counted 0 is cleared, counted 1 and held by the kernel. */
  ghost function Take(p: Phys, f: nat): Phys
    requires Shape(p) && LOW_FRAMES <= f < FRAMES
  {
    p.(mem := p.mem[f := ZeroFrame()], refs := p.refs[f - LOW_FRAMES := p.refs[f - LOW_FRAMES] + 1],
        reserved := p.reserved + {f})
  }

  lemma TakeKeeps(p: Phys, f: nat)
    requires Inv(p) && LOW_FRAMES <= f < FRAMES && p.refs[f - LOW_FRAMES] == 0
    ensures Inv(Take(p, f)) && View(Take(p, f)) == View(p)
    ensures Refs(Take(p, f).mem, Take(p, f).tables, f) == {} && f !in p.tables && f !in p.reserved
  {
    var q := Take(p, f);
    assert |Refs(p.mem, p.tables, f)| + Held(p, f) == 0;
    assert f !in p.tables && f !in p.reserved;
    forall g | LOW_FRAMES <= g < FRAMES
      ensures q.refs[g - LOW_FRAMES] == |Refs(q.mem, q.tables, g)| + Held(q, g)
    {
      RefsAfterData(p.mem, p.tables, f, ZeroFrame(), g);
    }
    RefsAfterData(p.mem, p.tables, f, ZeroFrame(), f);
    forall t, i | t in q.tables && 0 <= i < ENTRIES
      ensures EntryOk(q, q.mem[t][i])
    {
      assert EntryOk(p, p.mem[t][i]);
    }
    SameView(p, q, f);
  }

  /** The view does not change when the only frame rewritten is neither a table nor named nor below 1 MB. */
  lemma SameView(p: Phys, q: Phys, f: nat)
    requires Inv(p) && Shape(q) && q.dir == p.dir && q.tables == p.tables
    requires LOW_FRAMES <= f < FRAMES && f !in p.tables && Refs(p.mem, p.tables, f) == {}
    requires forall g :: 0 <= g < FRAMES && g != f ==> q.mem[g] == p.mem[g]
    ensures View(q) == View(p)
  {
    forall d | 0 <= d < ENTRIES
      ensures SeeDir(q.mem, q.dir[d]) == SeeDir(p.mem, p.dir[d])
    {
      if p.dir[d].present {
        var t := p.dir[d].page;
        forall i | 0 <= i < ENTRIES
          ensures See(q.mem, q.mem[t][i]) == See(p.mem, p.mem[t][i])
        {
          assert Slot(t, i) !in Refs(p.mem, p.tables, f);
        }
        assert SeeTable(q.mem, q.mem[t]) == SeeTable(p.mem, p.mem[t]);
      }
    }
    assert View(q).dirs == View(p).dirs;
    assert View(q).low == View(p).low;
  }

  /** A cleared reserved frame becomes the page table of directory slot d. */
  ghost function MakeTable(p: Phys, d: nat, f: nat): Phys
    requires d < |p.dir|
  {
    p.(dir := p.dir[d := Uwp(f)], tables := p.tables + {f}, reserved := p.reserved - {f})
  }

  /** A frame the kernel has just taken: held, counted once, not named by any entry. */
  ghost predicate Fresh(p: Phys, f: nat) {
    f in p.reserved && Refs(p.mem, p.tables, f) == {}
  }

  lemma MakeTableKeeps(p: Phys, d: nat, f: nat)
    requires Inv(p) && d < ENTRIES && Fresh(p, f) && p.mem[f] == ZeroFrame()
    ensures Inv(MakeTable(p, d, f))
    ensures View(MakeTable(p, d, f)) == View(p).(dirs := View(p).dirs[d := Table(seq(ENTRIES, i => Absent))])
  {
    var q := MakeTable(p, d, f);
    forall g | LOW_FRAMES <= g < FRAMES
      ensures q.refs[g - LOW_FRAMES] == |Refs(q.mem, q.tables, g)| + Held(q, g)
    {
      RefsNewTable(p.mem, p.tables, f, g);
    }
    forall t, i | t in q.tables && 0 <= i < ENTRIES
      ensures EntryOk(q, q.mem[t][i])
    {
      if t != f {
        assert EntryOk(p, p.mem[t][i]);
        assert Slot(t, i) !in Refs(p.mem, p.tables, f);
      }
    }
    assert SeeDir(q.mem, q.dir[d]) == Table(seq(ENTRIES, i => Absent));
    assert View(q).dirs == View(p).dirs[d := Table(seq(ENTRIES, i => Absent))];
  }

  /** If exactly the entry at slot d, index i shows something new, the tables seen change at that page alone. */
  lemma DirsAfterEntry(p: Phys, q: Phys, d: nat, i: nat)
    requires Inv(p) && Shape(q) && d < ENTRIES && i < ENTRIES && p.dir[d].present && q.dir == p.dir
        && q.tables == p.tables
    requires forall t, j :: t in p.tables && 0 <= j < ENTRIES && (t, j) != (p.dir[d].page, i)
               ==> See(q.mem, q.mem[t][j]) == See(p.mem, p.mem[t][j])
    ensures View(q).dirs == SetPage(View(p), d, i, See(q.mem, q.mem[p.dir[d].page][i])).dirs
  {
    var e := SetPage(View(p), d, i, See(q.mem, q.mem[p.dir[d].page][i]));
    forall d' | 0 <= d' < ENTRIES
      ensures SeeDir(q.mem, q.dir[d']) == e.dirs[d']
    {
      if q.dir[d'].present {
        var t := q.dir[d'].page;
        forall j | 0 <= j < ENTRIES
          ensures See(q.mem, q.mem[t][j]) == e.dirs[d'].pages[j]
        {
        }
        assert SeeTable(q.mem, q.mem[t]) == e.dirs[d'].pages;
      }
    }
  }

  lemma ViewAfterEntry(p: Phys, q: Phys, d: nat, i: nat)
    requires Inv(p) && Shape(q) && d < ENTRIES && i < ENTRIES && p.dir[d].present && q.dir == p.dir
        && q.tables == p.tables
    requires forall f :: 0 <= f < LOW_FRAMES && f !in p.tables ==> q.mem[f] == p.mem[f]
    requires forall t, j :: t in p.tables && 0 <= j < ENTRIES && (t, j) != (p.dir[d].page, i)
               ==> See(q.mem, q.mem[t][j]) == See(p.mem, p.mem[t][j])
    ensures View(q) == SetPage(View(p), d, i, See(q.mem, q.mem[p.dir[d].page][i]))
  {
    DirsAfterEntry(p, q, d, i);
    assert View(q).low == View(p).low;
  }

  ghost function SetEntry(mem: seq<Frame>, t: nat, i: nat, e: Word): seq<Frame>
    requires t < |mem| && i < |mem[t]|
  {
    mem[t := mem[t][i := e]]
  }

  /** put_page into an absent entry: the reserved frame n gets its first name. */
  ghost function Map(p: Phys, d: nat, i: nat, n: nat): Phys
    requires Shape(p) && d < ENTRIES && p.dir[d].page < FRAMES && i < ENTRIES
  {
    p.(mem := SetEntry(p.mem, p.dir[d].page, i, Uwp(n)), reserved := p.reserved - {n})
  }

  lemma MapExact(p: Phys, d: nat, i: nat, n: nat)
    requires Shape(p) && Exact(p) && DirOk(p) && d < ENTRIES && p.dir[d].present && i < ENTRIES && Fresh(p, n)
    requires !p.mem[p.dir[d].page][i].present
    ensures Shape(Map(p, d, i, n)) && Exact(Map(p, d, i, n))
  {
    var q, t := Map(p, d, i, n), p.dir[d].page;
    forall f | LOW_FRAMES <= f < FRAMES
      ensures q.refs[f - LOW_FRAMES] == |Refs(q.mem, q.tables, f)| + Held(q, f)
    {
      CountAfterStore(p.mem, p.tables, t, i, Uwp(n), f);
    }
  }

  lemma MapKeeps(p: Phys, d: nat, i: nat, n: nat)
    requires Inv(p) && d < ENTRIES && p.dir[d].present && i < ENTRIES && Fresh(p, n)
    requires !p.mem[p.dir[d].page][i].present
    ensures Inv(Map(p, d, i, n))
    ensures View(Map(p, d, i, n)) == SetPage(View(p), d, i, Private(p.mem[n]))
  {
    var q, t := Map(p, d, i, n), p.dir[d].page;
    MapExact(p, d, i, n);
    assert p.refs[n - LOW_FRAMES] == 1;
    forall t', j | t' in q.tables && 0 <= j < ENTRIES
      ensures EntryOk(q, q.mem[t'][j])
    {
      assert EntryOk(p, p.mem[t'][j]);
    }
    ViewAfterEntry(p, q, d, i);
  }

  /** The write-permission half of un_wp_page: the entry is the frame's only name. */
  ghost function Allow(p: Phys, t: nat, i: nat): Phys
    requires Shape(p) && t < FRAMES && i < ENTRIES
  {
    p.(mem := SetEntry(p.mem, t, i, p.mem[t][i].(write := true)))
  }

  lemma AllowExact(p: Phys, t: nat, i: nat)
    requires Shape(p) && Exact(p) && t in p.tables && i < ENTRIES
    ensures Shape(Allow(p, t, i)) && Exact(Allow(p, t, i))
  {
    var q := Allow(p, t, i);
    forall f | LOW_FRAMES <= f < FRAMES
      ensures q.refs[f - LOW_FRAMES] == |Refs(q.mem, q.tables, f)| + Held(q, f)
    {
      CountAfterStore(p.mem, p.tables, t, i, p.mem[t][i].(write := true), f);
    }
  }

  lemma AllowKeeps(p: Phys, d: nat, i: nat)
    requires Inv(p) && d < ENTRIES && p.dir[d].present && i < ENTRIES
    requires p.mem[p.dir[d].page][i].present && p.mem[p.dir[d].page][i].page >= LOW_FRAMES
    requires p.refs[p.mem[p.dir[d].page][i].page - LOW_FRAMES] == 1
    ensures Inv(Allow(p, p.dir[d].page, i)) && View(Allow(p, p.dir[d].page, i)) == View(p)
  {
    var t := p.dir[d].page;
    var q := Allow(p, t, i);
    AllowExact(p, t, i);
    forall t', j | t' in q.tables && 0 <= j < ENTRIES
      ensures EntryOk(q, q.mem[t'][j])
    {
      assert EntryOk(p, p.mem[t'][j]);
    }
    ViewAfterEntry(p, q, d, i);
    assert View(p).dirs[d].pages[i := See(q.mem, q.mem[t][i])] == View(p).dirs[d].pages;
  }

  /** The copying half of un_wp_page: the entry moves to the reserved frame n, which receives the old words; a counted
      old frame loses one name. */
  ghost function Unshare(p: Phys, t: nat, i: nat, n: nat): Phys
    requires Shape(p) && t < FRAMES && i < ENTRIES && p.mem[t][i].page < FRAMES && n < FRAMES
  {
    var oldPage := p.mem[t][i].page;
    var mem := SetEntry(p.mem, t, i, Uwp(n));
    p.(mem := mem[n := p.mem[oldPage]],
       refs := if oldPage >= LOW_FRAMES then p.refs[oldPage - LOW_FRAMES := p.refs[oldPage - LOW_FRAMES] - 1]
           else p.refs,
       reserved := p.reserved - {n})
  }

  lemma UnshareExact(p: Phys, t: nat, i: nat, n: nat)
    requires Shape(p) && Exact(p) && t in p.tables && i < ENTRIES && Fresh(p, n)
    requires p.mem[t][i].present && p.mem[t][i].page < FRAMES
    ensures Shape(Unshare(p, t, i, n)) && Exact(Unshare(p, t, i, n))
  {
    var e := p.mem[t][i];
    var q := Unshare(p, t, i, n);
    var mid := SetEntry(p.mem, t, i, Uwp(n));
    assert Slot(t, i) !in Refs(p.mem, p.tables, n);
    forall f | LOW_FRAMES <= f < FRAMES
      ensures q.refs[f - LOW_FRAMES] == |Refs(q.mem, q.tables, f)| + Held(q, f)
    {
      CountAfterStore(p.mem, p.tables, t, i, Uwp(n), f);
      RefsAfterData(mid, p.tables, n, p.mem[e.page], f);
    }
  }

  lemma UnshareEntries(p: Phys, t: nat, i: nat, n: nat)
    requires Inv(p) && t in p.tables && i < ENTRIES && Fresh(p, n)
    requires p.mem[t][i].present && p.mem[t][i].page < FRAMES
    requires p.mem[t][i].page >= LOW_FRAMES ==> p.refs[p.mem[t][i].page - LOW_FRAMES] != 1
    ensures Shape(Unshare(p, t, i, n)) && EntriesOk(Unshare(p, t, i, n))
  {
    var q := Unshare(p, t, i, n);
    assert p.refs[n - LOW_FRAMES] == 1;
    assert Slot(t, i) !in Refs(p.mem, p.tables, n);
    forall t', j | t' in q.tables && 0 <= j < ENTRIES
      ensures EntryOk(q, q.mem[t'][j])
    {
      assert EntryOk(p, p.mem[t'][j]);
      assert Slot(t', j) !in Refs(p.mem, p.tables, n);
    }
  }

  lemma UnshareKeeps(p: Phys, d: nat, i: nat, n: nat)
    requires Inv(p) && d < ENTRIES && p.dir[d].present && i < ENTRIES && Fresh(p, n)
    requires var e := p.mem[p.dir[d].page][i];
             e.present && e.page < FRAMES && (e.page >= LOW_FRAMES ==> p.refs[e.page - LOW_FRAMES] != 1)
    ensures Inv(Unshare(p, p.dir[d].page, i, n))
    ensures View(Unshare(p, p.dir[d].page, i, n))
         == SetPage(View(p), d, i, Private(p.mem[p.mem[p.dir[d].page][i].page]))
  {
    var t := p.dir[d].page;
    var e := p.mem[t][i];
    assert EntryOk(p, e);
    var q := Unshare(p, t, i, n);
    UnshareExact(p, t, i, n);
    UnshareEntries(p, t, i, n);
    forall t', j | t' in p.tables && 0 <= j < ENTRIES && (t', j) != (t, i)
      ensures See(q.mem, q.mem[t'][j]) == See(p.mem, p.mem[t'][j])
    {
      assert Slot(t', j) !in Refs(p.mem, p.tables, n);
    }
    ViewAfterEntry(p, q, d, i);
  }

  /** Copying one present entry, for fork or for page sharing: both entries become read-only and a counted frame gets
      one more name; an entry below 1 MB only loses its write permission in the copy. */
  ghost function ShareEntry(p: Phys, t: nat, i: nat, t': nat, i': nat): Phys
    requires Shape(p) && t < FRAMES && i < ENTRIES && t' < FRAMES && i' < ENTRIES
  {
    var e := p.mem[t][i].(write := false);
    if e.page < LOW_FRAMES then p.(mem := SetEntry(p.mem, t', i', e))
    else if e.page < FRAMES then
      p.(mem := SetEntry(SetEntry(p.mem, t', i', e), t, i, e),
          refs := p.refs[e.page - LOW_FRAMES := p.refs[e.page - LOW_FRAMES] + 1])
    else p
  }

  lemma ShareExact(p: Phys, t: nat, i: nat, t': nat, i': nat)
    requires Shape(p) && Exact(p) && t in p.tables && i < ENTRIES && t' in p.tables && i' < ENTRIES
    requires p.mem[t][i].present && p.mem[t][i].page < FRAMES && !p.mem[t'][i'].present
    ensures Shape(ShareEntry(p, t, i, t', i')) && Exact(ShareEntry(p, t, i, t', i'))
  {
    var e := p.mem[t][i].(write := false);
    var q := ShareEntry(p, t, i, t', i');
    var mid := SetEntry(p.mem, t', i', e);
    assert mid[t][i] == p.mem[t][i];
    forall f | LOW_FRAMES <= f < FRAMES
      ensures q.refs[f - LOW_FRAMES] == |Refs(q.mem, q.tables, f)| + Held(q, f)
    {
      CountAfterStore(p.mem, p.tables, t', i', e, f);
      CountAfterStore(mid, p.tables, t, i, e, f);
    }
  }

  lemma ShareEntries(p: Phys, t: nat, i: nat, t': nat, i': nat)
    requires Inv(p) && t in p.tables && i < ENTRIES && t' in p.tables && i' < ENTRIES
    requires p.mem[t][i].present && !p.mem[t'][i'].present
    ensures Shape(ShareEntry(p, t, i, t', i')) && EntriesOk(ShareEntry(p, t, i, t', i'))
  {
    var e := p.mem[t][i];
    assert EntryOk(p, e);
    var q := ShareEntry(p, t, i, t', i');
    forall u, j | u in q.tables && 0 <= j < ENTRIES
      ensures EntryOk(q, q.mem[u][j])
    {
      assert EntryOk(p, p.mem[u][j]);
      if (u, j) != (t, i) && Names(p.mem[u][j], e.page) && p.mem[u][j].write && e.page >= LOW_FRAMES {
        OnlyName(p, u, j, t, i);
      }
    }
  }

  lemma ShareEntryKeeps(p: Phys, t: nat, i: nat, d: nat, i': nat)
    requires Inv(p) && t in p.tables && i < ENTRIES && d < ENTRIES && p.dir[d].present && i' < ENTRIES
    requires p.mem[t][i].present && !p.mem[p.dir[d].page][i'].present
    ensures Inv(ShareEntry(p, t, i, p.dir[d].page, i'))
    ensures View(ShareEntry(p, t, i, p.dir[d].page, i')) == SetPage(View(p), d, i', Inherit(See(p.mem, p.mem[t][i])))
  {
    var t' := p.dir[d].page;
    assert EntryOk(p, p.mem[t][i]);
    var q := ShareEntry(p, t, i, t', i');
    ShareExact(p, t, i, t', i');
    ShareEntries(p, t, i, t', i');
    forall u, j | u in p.tables && 0 <= j < ENTRIES && (u, j) != (t', i')
      ensures See(q.mem, q.mem[u][j]) == See(p.mem, p.mem[u][j])
    {
      assert EntryOk(p, p.mem[u][j]);
    }
    ViewAfterEntry(p, q, d, i');
  }

  /** A user store through a writable entry: the word changes in the frame and the entry becomes dirty. */
  ghost function StoreWord(p: Phys, t: nat, i: nat, off: nat, w: Word): Phys
    requires Shape(p) && t < FRAMES && i < ENTRIES && p.mem[t][i].page < FRAMES && off < ENTRIES
  {
    var f := p.mem[t][i].page;
    var mem := SetEntry(p.mem, t, i, p.mem[t][i].(dirty := true));
    p.(mem := mem[f := mem[f][off := w]])
  }

  lemma StoreWordExact(p: Phys, t: nat, i: nat, off: nat, w: Word)
    requires Shape(p) && Exact(p) && t in p.tables && i < ENTRIES && off < ENTRIES
    requires p.mem[t][i].page < FRAMES && p.mem[t][i].page !in p.tables
    ensures Shape(StoreWord(p, t, i, off, w)) && Exact(StoreWord(p, t, i, off, w))
  {
    var e := p.mem[t][i].(dirty := true);
    var q := StoreWord(p, t, i, off, w);
    var mid := SetEntry(p.mem, t, i, e);
    forall f | LOW_FRAMES <= f < FRAMES
      ensures q.refs[f - LOW_FRAMES] == |Refs(q.mem, q.tables, f)| + Held(q, f)
    {
      CountAfterStore(p.mem, p.tables, t, i, e, f);
      RefsAfterData(mid, p.tables, e.page, mid[e.page][off := w], f);
    }
  }

  lemma StoreWordKeeps(p: Phys, d: nat, i: nat, off: nat, w: Word)
    requires Inv(p) && d < ENTRIES && p.dir[d].present && i < ENTRIES && off < ENTRIES
    requires p.mem[p.dir[d].page][i].present && p.mem[p.dir[d].page][i].write && p.mem[p.dir[d].page][i].page < FRAMES
    ensures Inv(StoreWord(p, p.dir[d].page, i, off, w))
  {
    var t := p.dir[d].page;
    assert EntryOk(p, p.mem[t][i]);
    var q := StoreWord(p, t, i, off, w);
    StoreWordExact(p, t, i, off, w);
    forall u, j | u in q.tables && 0 <= j < ENTRIES
      ensures EntryOk(q, q.mem[u][j])
    {
      assert EntryOk(p, p.mem[u][j]);
    }
  }

  /** What the tasks see of it is the eager store. */
  lemma StoreWordView(p: Phys, d: nat, i: nat, off: nat, w: Word)
    requires Inv(p) && d < ENTRIES && p.dir[d].present && i < ENTRIES && off < ENTRIES
    requires p.mem[p.dir[d].page][i].present && p.mem[p.dir[d].page][i].write && p.mem[p.dir[d].page][i].page < FRAMES
    requires Shaped(View(p))
    ensures View(StoreWord(p, p.dir[d].page, i, off, w)) == Write(View(p), d, i, off, w)
  {
    var t := p.dir[d].page;
    var e := p.mem[t][i];
    assert EntryOk(p, e);
    var q := StoreWord(p, t, i, off, w);
    var r := Write(View(p), d, i, off, w);
    assert Page(View(p), d, i) == See(p.mem, e);
    forall d' | 0 <= d' < ENTRIES
      ensures SeeDir(q.mem, q.dir[d']) == r.dirs[d']
    {
      if q.dir[d'].present {
        var u := q.dir[d'].page;
        forall j | 0 <= j < ENTRIES
          ensures See(q.mem, q.mem[u][j]) == r.dirs[d'].pages[j]
        {
          assert EntryOk(p, p.mem[u][j]);
          if e.page >= LOW_FRAMES && Names(p.mem[u][j], e.page) {
            OnlyName(p, t, i, u, j);
          }
        }
        assert SeeTable(q.mem, q.mem[u]) == r.dirs[d'].pages;
      }
    }
    assert View(q).dirs == r.dirs;
    assert View(q).low == r.low;
  }

  /** free_page on a frame the kernel holds. */
  ghost function Release(p: Phys, f: nat): Phys
    requires Shape(p) && LOW_FRAMES <= f < FRAMES
  {
    p.(refs := p.refs[f - LOW_FRAMES := p.refs[f - LOW_FRAMES] - 1], reserved := p.reserved - {f})
  }

  lemma ReleaseKeeps(p: Phys, f: nat)
    requires Inv(p) && f in p.reserved
    ensures Inv(Release(p, f)) && View(Release(p, f)) == View(p)
  {
    var q := Release(p, f);
    forall t, i | t in q.tables && 0 <= i < ENTRIES
      ensures EntryOk(q, q.mem[t][i])
    {
      assert EntryOk(p, p.mem[t][i]);
      if Names(p.mem[t][i], f) {
        NamedIsCounted(p, t, i);
      }
    }
    assert View(q).dirs == View(p).dirs;
    assert View(q).low == View(p).low;
  }

  /** The starting condition: the directory's tables lie below 1 MB and map frames below 1 MB only; every counted frame
      is free or reserved. */
  ghost predicate Start(p: Phys) {
    && Shape(p) && DirOk(p)
    && (forall t :: t in p.tables ==> t < LOW_FRAMES)
    && (forall t, i :: t in p.tables && 0 <= i < ENTRIES && p.mem[t][i].present ==>
          p.mem[t][i].page < LOW_FRAMES && p.mem[t][i].page !in p.tables)
    && (forall f :: LOW_FRAMES <= f < FRAMES ==> p.refs[f - LOW_FRAMES] == if f in p.reserved then 1 else 0)
  }

  lemma StartIsInv(p: Phys)
    requires Start(p)
    ensures Inv(p)
  {
  }

  /** Filling a frame just taken, before it is mapped. */
  ghost function Fill(p: Phys, f: nat, words: Frame): Phys
    requires f < |p.mem|
  {
    p.(mem := p.mem[f := words])
  }

  lemma FillKeeps(p: Phys, f: nat, words: Frame)
    requires Inv(p) && Fresh(p, f) && |words| == ENTRIES
    ensures Inv(Fill(p, f, words)) && Fresh(Fill(p, f, words), f) && View(Fill(p, f, words)) == View(p)
  {
    var q := Fill(p, f, words);
    forall g | LOW_FRAMES <= g < FRAMES
      ensures q.refs[g - LOW_FRAMES] == |Refs(q.mem, q.tables, g)| + Held(q, g)
    {
      RefsAfterData(p.mem, p.tables, f, words, g);
    }
    RefsAfterData(p.mem, p.tables, f, words, f);
    forall t, i | t in q.tables && 0 <= i < ENTRIES
      ensures EntryOk(q, q.mem[t][i])
    {
      assert EntryOk(p, p.mem[t][i]);
    }
    SameView(p, q, f);
  }

  /** The page tables the directory can still reach. */
  ghost function Reachable(p: Phys): set<nat> {
    set d | 0 <= d < |p.dir| && p.dir[d].present :: p.dir[d].page
  }

  /** The code only prints a warning when the target slot of a fork already has a table, and replaces it. The old table
      is then lost for good, with the counts it holds: tables in use and reachable tables agree afterwards exactly when
      the slot had none. */
  lemma ReplacedTableIsLost(p: Phys, d: nat, f: nat)
    requires Inv(p) && d < ENTRIES && Fresh(p, f) && p.tables == Reachable(p)
    ensures p.dir[d].present ==>
        p.dir[d].page in MakeTable(p, d, f).tables && p.dir[d].page !in Reachable(MakeTable(p, d, f))
    ensures MakeTable(p, d, f).tables == Reachable(MakeTable(p, d, f)) <==> !p.dir[d].present
  {
    var q := MakeTable(p, d, f);
    forall d' | 0 <= d' < ENTRIES && d' != d
      ensures q.dir[d'] == p.dir[d']
    {
    }
    assert f == q.dir[d].page;
    if p.dir[d].present {
      var t := p.dir[d].page;
      assert t in q.tables;
      assert t !in Reachable(q);
    } else {
      forall t | t in q.tables
        ensures t in Reachable(q)
      {
        if t != f {
          var d' :| 0 <= d' < ENTRIES && p.dir[d'].present && p.dir[d'].page == t;
          assert q.dir[d'] == p.dir[d'];
        }
      }
    }
  }
}
