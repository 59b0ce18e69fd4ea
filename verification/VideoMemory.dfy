/** The grid of cells that a stretch of video memory shows. Addresses count 16-bit cells from the start of video RAM. */
module VideoMemory {
  import opened Terminal

  /** First cell of row r, counted from the origin. */
  function At(cols: nat, r: nat): nat {
    r * cols
  }

  lemma AtNext(cols: nat, r: nat)
    ensures At(cols, r + 1) == At(cols, r) + cols && At(cols, 0) == 0
  {
  }

  lemma {:induction false} AtBefore(cols: nat, r: nat, t: nat)
    requires r < t
    ensures At(cols, r) + cols <= At(cols, t)
    decreases t
  {
    AtNext(cols, t - 1);
    if r < t - 1 {
      AtBefore(cols, r, t - 1);
    }
  }

  /** Cells are numbered row by row. */
  lemma CellOrder(cols: nat, r: nat, j: nat, t: nat, i: nat)
    requires j < cols && i <= cols
    ensures At(cols, r) + j < At(cols, t) + i <==> r < t || (r == t && j < i)
  {
    if r < t {
      AtBefore(cols, r, t);
    } else if t < r {
      AtBefore(cols, t, r);
    }
  }

  /** Row r of a screen of `cols` columns starting at cell o. */
  function Line(m: seq<nat>, o: nat, cols: nat, r: nat): (row: Row)
    requires o + At(cols, r) + cols <= |m|
    ensures |row| == cols
  {
    m[o + At(cols, r)..o + At(cols, r) + cols]
  }

  ghost predicate Fits(m: seq<nat>, o: nat, cols: nat, r: nat) {
    o + At(cols, r) + cols <= |m|
  }

  lemma LinesFit(m: seq<nat>, o: nat, cols: nat, lines: nat)
    requires o + At(cols, lines) <= |m|
    ensures forall r {:trigger Fits(m, o, cols, r)} :: 0 <= r < lines ==> Fits(m, o, cols, r)
  {
    forall r | 0 <= r < lines
      ensures Fits(m, o, cols, r)
    {
      AtBefore(cols, r, lines);
    }
  }

  ghost function ScreenOf(m: seq<nat>, o: nat, cols: nat, lines: nat): (s: seq<Row>)
    requires o + At(cols, lines) <= |m|
    ensures |s| == lines && Grid(s, cols, lines)
    ensures forall r {:trigger s[r]} :: 0 <= r < lines ==> Fits(m, o, cols, r) && s[r] == Line(m, o, cols, r)
  {
    LinesFit(m, o, cols, lines);
    seq(lines, r requires 0 <= r < lines && Fits(m, o, cols, r) => Line(m, o, cols, r))
  }

  lemma Shows(m: seq<nat>, o: nat, cols: nat, lines: nat, s: seq<Row>)
    requires o + At(cols, lines) <= |m| && |s| == lines
    requires forall r {:trigger s[r]} :: 0 <= r < lines ==> Fits(m, o, cols, r) && Line(m, o, cols, r) == s[r]
    ensures ScreenOf(m, o, cols, lines) == s
  {
  }

  // ---------- what the string instructions do to memory ----------

  /** n cells copied from src to dst. */
  ghost predicate Copied(m: seq<nat>, m2: seq<nat>, dst: nat, src: nat, n: nat) {
    && |m2| == |m| && dst + n <= |m| && src + n <= |m|
    && forall k {:trigger m2[k]} :: 0 <= k < |m| ==> m2[k] == if dst <= k < dst + n then m[k - dst + src] else m[k]
  }

  /** n cells from lo on cleared. */
  ghost predicate Filled(m: seq<nat>, m2: seq<nat>, lo: nat, n: nat) {
    && |m2| == |m| && lo + n <= |m|
    && forall k {:trigger m2[k]} :: 0 <= k < |m| ==> m2[k] == if lo <= k < lo + n then ERASE else m[k]
  }

  /** Cells inside the copied stretch and outside the cleared one. */
  lemma StretchCopied(m: seq<nat>, m1: seq<nat>, m2: seq<nat>, dst: nat, src: nat, n: nat, lo: nat, c: nat, a: nat,
      b: nat, cols: nat)
    requires Copied(m, m1, dst, src, n) && Filled(m1, m2, lo, c)
    requires dst <= a && a + cols <= dst + n && b == a - dst + src && (a + cols <= lo || lo + c <= a)
    ensures m2[a..a + cols] == m[b..b + cols]
  {
  }

  /** Rows top+1..bottom-1 copied up by one row and the last row of the region cleared is scrolling up. */
  lemma CopiedUp(m: seq<nat>, m1: seq<nat>, m2: seq<nat>, o: nat, cols: nat, lines: nat, top: nat, bottom: nat)
    requires o + At(cols, lines) <= |m| && top < bottom <= lines && At(cols, top) <= At(cols, bottom - 1)
    requires Copied(m, m1, o + At(cols, top), o + At(cols, top + 1), At(cols, bottom - 1) - At(cols, top))
    requires Filled(m1, m2, o + At(cols, bottom - 1), cols)
    ensures ScreenOf(m2, o, cols, lines) == ScrollUp(ScreenOf(m, o, cols, lines), cols, top, bottom)
  {
    hide At;
    var s := ScreenOf(m, o, cols, lines);
    var t := ScrollUp(s, cols, top, bottom);
    forall r | 0 <= r < lines
      ensures Fits(m2, o, cols, r) && Line(m2, o, cols, r) == t[r]
    {
      AtBefore(cols, r, lines);
      AtNext(cols, r);
      AtNext(cols, top);
      if top <= r < bottom - 1 {
        AtBefore(cols, r + 1, lines);
        AtBefore(cols, r, bottom - 1);
        if top < r { AtBefore(cols, top, r); }
        StretchCopied(m, m1, m2, o + At(cols, top), o + At(cols, top + 1), At(cols, bottom - 1) - At(cols, top),
                      o + At(cols, bottom - 1), cols, o + At(cols, r), o + At(cols, r + 1), cols);
        assert t[r] == s[r + 1];
      } else if r == bottom - 1 {
        assert Line(m2, o, cols, r) == Blank(cols);
      } else {
        if r < top { AtBefore(cols, r, top); } else { AtBefore(cols, bottom - 1, r); }
        assert Line(m2, o, cols, r) == Line(m, o, cols, r);
        assert t[r] == s[r];
      }
    }
    Shows(m2, o, cols, lines, t);
  }

  /** With any number of columns: double words leave the last cell of an odd stretch behind, and clearing goes on from
      where copying stopped, one cell early. The region has scrolled up exactly if the stretch is even or that last cell
      was blank already. */
  lemma ScrollIsExactIff(m: seq<nat>, m1: seq<nat>, m2: seq<nat>, o: nat, cols: nat, lines: nat, top: nat, bottom: nat,
      n: nat)
    requires 0 < cols && o + At(cols, lines) <= |m| && top < bottom <= lines
        && At(cols, top) + n == At(cols, bottom - 1)
    requires Copied(m, m1, o + At(cols, top), o + At(cols, top + 1), 2 * (n / 2))
    requires Filled(m1, m2, o + At(cols, top) + 2 * (n / 2), cols)
    ensures ScreenOf(m2, o, cols, lines) == ScrollUp(ScreenOf(m, o, cols, lines), cols, top, bottom) <==>
            n % 2 == 0 || ScreenOf(m, o, cols, lines)[bottom - 1][cols - 1] == ERASE
  {
    hide At, ScreenOf, ScrollUp;
    AtNext(cols, top);
    AtNext(cols, bottom - 1);
    if bottom < lines { AtBefore(cols, bottom, lines); }
    var dst, src := o + At(cols, top), o + At(cols, top + 1);
    var e1 := seq(|m|, k requires 0 <= k < |m| => if dst <= k < dst + n then m[k - dst + src] else m[k]);
    var e2 := seq(|m|, k requires 0 <= k < |m| => if dst + n <= k < dst + n + cols then ERASE else e1[k]);
    CopiedUp(m, e1, e2, o, cols, lines, top, bottom);
    var last := dst + n + cols - 1;
    assert ScreenOf(m, o, cols, lines)[bottom - 1] == Line(m, o, cols, bottom - 1);
    if n % 2 == 0 || m[last] == ERASE {
      assert m2 == e2;
    } else {
      assert ScreenOf(m2, o, cols, lines)[bottom - 1] == Line(m2, o, cols, bottom - 1);
      assert ScreenOf(e2, o, cols, lines)[bottom - 1] == Line(e2, o, cols, bottom - 1);
      assert Line(m2, o, cols, bottom - 1)[cols - 1] == m2[last] == m[last];
      assert Line(e2, o, cols, bottom - 1)[cols - 1] == e2[last] == ERASE;
    }
  }

  /** Rows top..bottom-2 copied down by one row and the first row of the region cleared is scrolling down. */
  lemma CopiedDown(m: seq<nat>, m1: seq<nat>, m2: seq<nat>, o: nat, cols: nat, lines: nat, top: nat, bottom: nat)
    requires o + At(cols, lines) <= |m| && top < bottom <= lines && At(cols, top + 1) <= At(cols, bottom)
    requires Copied(m, m1, o + At(cols, top + 1), o + At(cols, top), At(cols, bottom) - At(cols, top + 1))
    requires Filled(m1, m2, o + At(cols, top), cols)
    ensures ScreenOf(m2, o, cols, lines) == ScrollDown(ScreenOf(m, o, cols, lines), cols, top, bottom)
  {
    hide At;
    var s := ScreenOf(m, o, cols, lines);
    var t := ScrollDown(s, cols, top, bottom);
    forall r | 0 <= r < lines
      ensures Fits(m2, o, cols, r) && Line(m2, o, cols, r) == t[r]
    {
      AtBefore(cols, r, lines);
      AtNext(cols, top);
      if top < r < bottom {
        AtNext(cols, r - 1);
        AtBefore(cols, r, bottom);
        AtBefore(cols, top, r);
        StretchCopied(m, m1, m2, o + At(cols, top + 1), o + At(cols, top), At(cols, bottom) - At(cols, top + 1),
                      o + At(cols, top), cols, o + At(cols, r), o + At(cols, r - 1), cols);
        assert t[r] == s[r - 1];
      } else if r == top {
        assert Line(m2, o, cols, r) == Blank(cols);
      } else {
        if r < top {
          AtBefore(cols, r, top);
        } else {
          AtBefore(cols, top, r);
          if bottom < r { AtBefore(cols, bottom, r); }
        }
        assert Line(m2, o, cols, r) == Line(m, o, cols, r);
        assert t[r] == s[r];
      }
    }
    Shows(m2, o, cols, lines, t);
  }

  /** Down, double words leave the first cell of an odd stretch behind, and clearing goes back from there, one cell
      late. The region has scrolled down exactly if the stretch is even or its first cell was blank already. */
  lemma ScrollDownIsExactIff(m: seq<nat>, m1: seq<nat>, m2: seq<nat>, o: nat, cols: nat, lines: nat, top: nat,
      bottom: nat, n: nat)
    requires 0 < cols && o + At(cols, lines) <= |m| && top < bottom <= lines
        && At(cols, top + 1) + n == At(cols, bottom) && n <= At(cols, bottom - 1)
    requires Copied(m, m1, o + At(cols, bottom) - 2 * (n / 2), o + At(cols, bottom - 1) - 2 * (n / 2), 2 * (n / 2))
    requires Filled(m1, m2, o + At(cols, bottom) - 2 * (n / 2) - cols, cols)
    ensures ScreenOf(m2, o, cols, lines) == ScrollDown(ScreenOf(m, o, cols, lines), cols, top, bottom) <==>
            n % 2 == 0 || ScreenOf(m, o, cols, lines)[top][0] == ERASE
  {
    hide At, ScreenOf, ScrollDown;
    AtNext(cols, top);
    AtNext(cols, bottom - 1);
    if bottom < lines { AtBefore(cols, bottom, lines); }
    var dst, src := o + At(cols, top + 1), o + At(cols, top);
    var e1 := seq(|m|, k requires 0 <= k < |m| => if dst <= k < dst + n then m[k - dst + src] else m[k]);
    var e2 := seq(|m|, k requires 0 <= k < |m| => if src <= k < src + cols then ERASE else e1[k]);
    CopiedDown(m, e1, e2, o, cols, lines, top, bottom);
    assert ScreenOf(m, o, cols, lines)[top] == Line(m, o, cols, top);
    if n % 2 == 0 || m[src] == ERASE {
      assert m2 == e2;
    } else {
      assert ScreenOf(m2, o, cols, lines)[top] == Line(m2, o, cols, top);
      assert ScreenOf(e2, o, cols, lines)[top] == Line(e2, o, cols, top);
      assert Line(m2, o, cols, top)[0] == m2[src] == m[src];
      assert Line(e2, o, cols, top)[0] == e2[src] == ERASE;
    }
  }

  /** Moving the origin on by one row and clearing the row that comes in is scrolling the whole screen up. */
  lemma OriginMoved(m: seq<nat>, m2: seq<nat>, o: nat, cols: nat, lines: nat)
    requires 0 < lines && o + cols + At(cols, lines) <= |m|
    requires Filled(m, m2, o + At(cols, lines), cols)
    ensures ScreenOf(m2, o + cols, cols, lines) == ScrollUp(ScreenOf(m, o, cols, lines), cols, 0, lines)
  {
    hide At;
    var s := ScreenOf(m, o, cols, lines);
    var t := ScrollUp(s, cols, 0, lines);
    var p := o + cols;
    forall r | 0 <= r < lines
      ensures Fits(m2, p, cols, r) && Line(m2, p, cols, r) == t[r]
    {
      AtBefore(cols, r, lines);
      AtNext(cols, r);
      if r < lines - 1 {
        AtBefore(cols, r + 1, lines);
        assert Line(m2, p, cols, r) == Line(m, o, cols, r + 1);
        assert t[r] == s[r + 1];
      } else {
        assert Line(m2, p, cols, r) == Blank(cols);
      }
    }
    Shows(m2, p, cols, lines, t);
  }

  /** At the end of video RAM the rows are copied back to its start instead: the same screen. */
  lemma OriginWrapped(m: seq<nat>, m1: seq<nat>, m2: seq<nat>, o: nat, cols: nat, lines: nat)
    requires 0 < lines && o + At(cols, lines) <= |m|
    requires Copied(m, m1, 0, o + cols, At(cols, lines - 1)) && Filled(m1, m2, At(cols, lines - 1), cols)
    ensures At(cols, lines) <= |m| && ScreenOf(m2, 0, cols, lines) ==
        ScrollUp(ScreenOf(m, o, cols, lines), cols, 0, lines)
  {
    hide At;
    var s := ScreenOf(m, o, cols, lines);
    var t := ScrollUp(s, cols, 0, lines);
    forall r | 0 <= r < lines
      ensures Fits(m2, 0, cols, r) && Line(m2, 0, cols, r) == t[r]
    {
      AtBefore(cols, r, lines);
      AtNext(cols, r);
      if r < lines - 1 {
        AtBefore(cols, r + 1, lines);
        AtBefore(cols, r, lines - 1);
        StretchCopied(m, m1, m2, 0, o + cols, At(cols, lines - 1), At(cols, lines - 1), cols, At(cols, r), o
            + At(cols, r + 1), cols);
        assert t[r] == s[r + 1];
      } else {
        assert Line(m2, 0, cols, r) == Blank(cols);
      }
    }
    Shows(m2, 0, cols, lines, t);
  }

  /** Wrapping with an odd stretch goes right exactly if the old screen's last cell and the cell that is to be the new
      screen's last were both blank already. */
  lemma WrapIsExactIff(m: seq<nat>, m1: seq<nat>, m2: seq<nat>, o: nat, cols: nat, lines: nat, n: nat)
    requires 0 < cols && 0 < lines && o + At(cols, lines) <= |m| && n == At(cols, lines - 1)
        && n + cols == At(cols, lines)
    requires Copied(m, m1, 0, o + cols, 2 * (n / 2)) && Filled(m1, m2, 2 * (n / 2), cols)
    ensures ScreenOf(m2, 0, cols, lines) == ScrollUp(ScreenOf(m, o, cols, lines), cols, 0, lines) <==>
            n % 2 == 0 || (m[n + cols - 1] == ERASE && ScreenOf(m, o, cols, lines)[lines - 1][cols - 1] == ERASE)
  {
    assert n % 2 == 1 ==> lines > 1;
    hide At, ScreenOf, ScrollUp;
    var e1 := seq(|m|, k requires 0 <= k < |m| => if k < n then m[k + o + cols] else m[k]);
    var e2 := seq(|m|, k requires 0 <= k < |m| => if n <= k < n + cols then ERASE else e1[k]);
    OriginWrapped(m, e1, e2, o, cols, lines);
    var last := n + cols - 1;
    assert ScreenOf(m, o, cols, lines)[lines - 1] == Line(m, o, cols, lines - 1);
    assert ScreenOf(m, o, cols, lines)[lines - 1][cols - 1] == m[o + last];
    if n % 2 == 0 || (m[last] == ERASE && m[o + last] == ERASE) {
      assert m2 == e2;
    } else {
      WrappedCells(m2, e2, cols, lines, n);
      assert m2[n - 1] == ERASE && e2[n - 1] == m[o + last];
      assert m2[last] == m[last] && e2[last] == ERASE;
    }
  }

  /** The last cells of the last two rows, on a screen at the start of memory. */
  lemma WrappedCells(m: seq<nat>, e: seq<nat>, cols: nat, lines: nat, n: nat)
    requires 0 < cols && 1 < lines && |e| == |m| && n == At(cols, lines - 1) && n + cols == At(cols, lines) <= |m|
    ensures n > 0
    ensures ScreenOf(m, 0, cols, lines) == ScreenOf(e, 0, cols, lines) ==>
        m[n - 1] == e[n - 1] && m[n + cols - 1] == e[n + cols - 1]
  {
    AtNext(cols, lines - 2);
    hide At;
    if ScreenOf(m, 0, cols, lines) != ScreenOf(e, 0, cols, lines) {
      return;
    }
    assert ScreenOf(m, 0, cols, lines)[lines - 1] == Line(m, 0, cols, lines - 1);
    assert ScreenOf(e, 0, cols, lines)[lines - 1] == Line(e, 0, cols, lines - 1);
    assert ScreenOf(m, 0, cols, lines)[lines - 2] == Line(m, 0, cols, lines - 2);
    assert ScreenOf(e, 0, cols, lines)[lines - 2] == Line(e, 0, cols, lines - 2);
    assert Line(m, 0, cols, lines - 1)[cols - 1] == Line(e, 0, cols, lines - 1)[cols - 1];
    assert Line(m, 0, cols, lines - 2)[cols - 1] == Line(e, 0, cols, lines - 2)[cols - 1];
  }

  /** First cell of a span, counted from the origin, and the number of its cells. */
  function SpanFrom(span: Span, cols: nat, x: nat, y: nat): nat {
    match span
    case ToEnd => At(cols, y) + x
    case FromStart => 0
    case All => 0
    case RowToEnd => At(cols, y) + x
    case RowFromStart => At(cols, y)
    case RowAll => At(cols, y)
  }

  function SpanTo(span: Span, cols: nat, lines: nat, x: nat, y: nat): nat {
    match span
    case ToEnd => At(cols, lines)
    case FromStart => At(cols, y) + x
    case All => At(cols, lines)
    case RowToEnd => At(cols, y) + cols
    case RowFromStart => At(cols, y) + x
    case RowAll => At(cols, y) + cols
  }

  /** Clearing the cells of a span is erasing it. */
  lemma Cleared(m: seq<nat>, m2: seq<nat>, o: nat, cols: nat, lines: nat, span: Span, x: nat, y: nat)
    requires o + At(cols, lines) <= |m| && x <= cols && y < lines
    requires SpanFrom(span, cols, x, y) <= SpanTo(span, cols, lines, x, y)
    requires Filled(m, m2, o + SpanFrom(span, cols, x, y), SpanTo(span, cols, lines, x, y) - SpanFrom(span, cols, x, y))
    ensures ScreenOf(m2, o, cols, lines) == Erase(ScreenOf(m, o, cols, lines), span, x, y)
  {
    hide At;
    var s := ScreenOf(m, o, cols, lines);
    var t := Erase(s, span, x, y);
    AtNext(cols, 0);
    forall r | 0 <= r < lines
      ensures Fits(m2, o, cols, r) && Line(m2, o, cols, r) == t[r]
    {
      AtBefore(cols, r, lines);
      forall j | 0 <= j < cols
        ensures Line(m2, o, cols, r)[j] == t[r][j]
      {
        CellOrder(cols, r, j, y, x);
        CellOrder(cols, r, j, y, 0);
        CellOrder(cols, r, j, y, cols);
        assert s[r] == Line(m, o, cols, r);
      }
    }
    Shows(m2, o, cols, lines, t);
  }

  /** Only row y rewritten. */
  lemma RowSet(m: seq<nat>, m2: seq<nat>, o: nat, cols: nat, lines: nat, y: nat, row: Row)
    requires o + At(cols, lines) <= |m| == |m2| && y < lines && |row| == cols && o + At(cols, y) + cols <= |m|
    requires forall k {:trigger m2[k]} :: 0 <= k < |m| ==>
               m2[k] == if o + At(cols, y) <= k < o + At(cols, y) + cols then row[k - o - At(cols, y)] else m[k]
    ensures ScreenOf(m2, o, cols, lines) == ScreenOf(m, o, cols, lines)[y := row]
  {
    hide At;
    var s := ScreenOf(m, o, cols, lines);
    var t := s[y := row];
    forall r | 0 <= r < lines
      ensures Fits(m2, o, cols, r) && Line(m2, o, cols, r) == t[r]
    {
      AtBefore(cols, r, lines);
      if r < y {
        AtBefore(cols, r, y);
      } else if r > y {
        AtBefore(cols, y, r);
      }
      assert Line(m2, o, cols, r) == if r == y then row else Line(m, o, cols, r);
    }
    Shows(m2, o, cols, lines, t);
  }

  /** Cells from..upTo-1 moved on by one, a blank coming in first. */
  ghost predicate ShiftedIn(m: seq<nat>, m2: seq<nat>, from: nat, upTo: nat) {
    && |m2| == |m| && upTo <= |m|
    && forall k {:trigger m2[k]} :: 0 <= k < |m| ==>
        m2[k] == if from <= k < upTo then (if k == from then ERASE else m[k - 1]) else m[k]
  }

  /** Cells from+1..upTo moved back by one. */
  ghost predicate ShiftedOut(m: seq<nat>, m2: seq<nat>, from: nat, upTo: nat) {
    && |m2| == |m| && upTo < |m|
    && forall k {:trigger m2[k]} :: 0 <= k < |m| ==> m2[k] == if from <= k < upTo then m[k + 1] else m[k]
  }

  lemma CellIn(m: seq<nat>, m2: seq<nat>, o: nat, cols: nat, lines: nat, x: nat, y: nat)
    requires o + At(cols, lines) <= |m| && y < lines && x <= cols
    requires ShiftedIn(m, m2, o + At(cols, y) + x, o + At(cols, y) + cols)
    ensures ScreenOf(m2, o, cols, lines) ==
        ScreenOf(m, o, cols, lines)[y := InsertCells(ScreenOf(m, o, cols, lines)[y], x, 1)]
  {
    hide At;
    RowSet(m, m2, o, cols, lines, y, InsertCells(ScreenOf(m, o, cols, lines)[y], x, 1));
  }

  lemma CellOut(m: seq<nat>, m1: seq<nat>, m2: seq<nat>, o: nat, cols: nat, lines: nat, x: nat, y: nat)
    requires o + At(cols, lines) <= |m| && y < lines && x < cols
    requires ShiftedOut(m, m1, o + At(cols, y) + x, o + At(cols, y) + cols - 1)
    requires m2 == m1[o + At(cols, y) + cols - 1 := ERASE]
    ensures ScreenOf(m2, o, cols, lines) ==
        ScreenOf(m, o, cols, lines)[y := DeleteCells(ScreenOf(m, o, cols, lines)[y], x, 1)]
  {
    hide At;
    RowSet(m, m2, o, cols, lines, y, DeleteCells(ScreenOf(m, o, cols, lines)[y], x, 1));
  }

  lemma CellSet(m: seq<nat>, m2: seq<nat>, o: nat, cols: nat, lines: nat, x: nat, y: nat, c: nat)
    requires o + At(cols, lines) <= |m| && y < lines && x < cols && o + At(cols, y) + cols <= |m|
    requires m2 == m[o + At(cols, y) + x := c]
    ensures ScreenOf(m2, o, cols, lines) == WithCell(ScreenOf(m, o, cols, lines), x, y, c)
  {
    hide At;
    var row: Row := ScreenOf(m, o, cols, lines)[y][x := c];
    RowSet(m, m2, o, cols, lines, y, row);
  }
}
