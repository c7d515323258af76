// The terminal driver: video pages, terminals and the page table updated in
// place, proved to do what Screens and LineEditor say.
module Terminal {
  import opened Text
  import opened Limits
  import opened Layout
  import opened Screens
  import E = LineEditor
  import opened Paging

  class Driver {
    const pages: seq<array<Cell>>
    const terms: array<Term>
    const waiting: array<bool>
    const paging: PageTables
    var display: nat
    var cursor: int

    constructor (pages: seq<array<Cell>>, terms: array<Term>, waiting: array<bool>, paging: PageTables)
      ensures this.pages == pages && this.terms == terms && this.waiting == waiting && this.paging == paging
      ensures display == 0 && cursor == 0
    {
      this.pages, this.terms, this.waiting, this.paging := pages, terms, waiting, paging;
      display, cursor := 0, 0;
    }

    ghost predicate Wired() {
      && |pages| == 1 + TERM_MAX && terms.Length == TERM_MAX && waiting.Length == TERM_MAX && paging.Valid()
      && pages[0].Length == PAGE_CELLS && pages[1].Length == PAGE_CELLS && pages[2].Length == PAGE_CELLS && pages[3].Length == PAGE_CELLS
      && pages[0] != pages[1] && pages[0] != pages[2] && pages[0] != pages[3]
      && pages[1] != pages[2] && pages[1] != pages[3] && pages[2] != pages[3]
    }

    ghost function View(): View
      requires Wired()
      reads this, terms, waiting, pages, paging.video
    {
      Screens.View(terms[..], [pages[0][..], pages[1][..], pages[2][..], pages[3][..]], display, cursor, waiting[..],
           [paging.video[TermPage(0)].base, paging.video[TermPage(1)].base, paging.video[TermPage(2)].base])
    }

    ghost predicate Valid()
      reads this, terms, waiting, pages, paging.video
    {
      Wired() && Arranged(View())
    }

    // Three terminals, the first displayed; user mode's pages are as the
    // kernel maps them at boot.  The hardware cursor stays where it is, which
    // is right when it is in the corner.
    method TermInit()
      requires Wired() && View().mapped == [VMEM_MAP, VMEM_MAP + 2, VMEM_MAP + 3]
      modifies this`display, terms
      ensures display == 0 && unchanged(this`cursor) && (cursor == 0 ==> Valid())
      ensures forall t :: 0 <= t < TERM_MAX ==> terms[t].kbPos == 0 && CursorOf(terms[t]) == 0
    {
      var i := 0;
      while i < TERM_MAX
        invariant 0 <= i <= TERM_MAX
        invariant forall t :: 0 <= t < i ==> terms[t] == Term(0, 0, seq(KB_BUF_SIZE, _ => NUL), 0, 1 + t)
        modifies terms
      {
        terms[i] := Term(0, 0, seq(KB_BUF_SIZE, _ => NUL), 0, 1 + i);
        i := i + 1;
      }
      terms[0] := terms[0].(video := 0);
      display := 0;
    }

    method ResetCursor(t: nat, x: int, y: int)
      requires t < terms.Length
      modifies terms, this`cursor
      ensures terms[..] == old(terms[..])[t := old(terms[t]).(curX := x, curY := y)]
      ensures cursor == if t == display then NUM_COLS * y + x else old(cursor)
    {
      terms[t] := terms[t].(curX := x, curY := y);
      if t == display {
        cursor := y * NUM_COLS + x;
      }
    }

    method MoveCursor(t: nat, x: nat, y: nat)
      requires Wired() && t < TERM_MAX && x < NUM_COLS
      modifies terms, this`cursor
      ensures View() == MoveTo(old(View()), t, NUM_COLS * y + x)
    {
      ResetCursor(t, x, y);
      assert (NUM_COLS * y + x) % NUM_COLS == x && (NUM_COLS * y + x) / NUM_COLS == y;
    }

    method TermClear(t: nat)
      requires Valid() && t < TERM_MAX
      modifies this`cursor, terms, pages[terms[t].video]
      ensures Valid() && View() == Clear(old(View()), t)
    {
      BlankPage(t);
      MoveCursor(t, 0, 0);
    }

    method BlankPage(t: nat)
      requires Valid() && t < TERM_MAX
      modifies pages[terms[t].video]
      ensures View() == Draw(old(View()), t, seq(CELLS, _ => BLANK))
    {
      FillBlank(pages[terms[t].video]);
    }

    method FillBlank(page: array<Cell>)
      requires page.Length == PAGE_CELLS
      modifies page
      ensures page[..] == seq(CELLS, _ => BLANK) + old(page[CELLS..])
    {
      var i := 0;
      while i < NUM_ROWS * NUM_COLS
        invariant 0 <= i <= CELLS
        invariant forall k :: 0 <= k < i ==> page[k] == BLANK
        invariant forall k :: i <= k < PAGE_CELLS ==> page[k] == old(page[k])
      {
        page[i] := page[i].(ch := SPACE);
        page[i] := page[i].(attr := ATTRIB);
        i := i + 1;
      }
    }

    // Scroll the characters of a page up a row.
    method ScrollPage(page: array<Cell>)
      requires page.Length == PAGE_CELLS
      modifies page
      ensures page[..CELLS] == ScrollChars(old(page[..CELLS])) && page[CELLS..] == old(page[CELLS..])
    {
      var y := 1;
      while y < NUM_ROWS
        invariant 1 <= y <= NUM_ROWS
        invariant forall k :: 0 <= k < (y - 1) * NUM_COLS ==> page[k] == old(page[k]).(ch := old(page[k + NUM_COLS].ch))
        invariant forall k :: (y - 1) * NUM_COLS <= k < PAGE_CELLS ==> page[k] == old(page[k])
      {
        var x := 0;
        while x < NUM_COLS
          invariant 0 <= x <= NUM_COLS
          invariant forall k :: 0 <= k < (y - 1) * NUM_COLS + x ==> page[k] == old(page[k]).(ch := old(page[k + NUM_COLS].ch))
          invariant forall k :: (y - 1) * NUM_COLS + x <= k < PAGE_CELLS ==> page[k] == old(page[k])
        {
          var from, to := x + y * NUM_COLS, x + (y - 1) * NUM_COLS;
          page[to] := page[to].(ch := page[from].ch);
          x := x + 1;
        }
        y := y + 1;
      }
      y := NUM_ROWS - 1;
      var x := 0;
      while x < NUM_COLS
        invariant 0 <= x <= NUM_COLS
        invariant forall k :: 0 <= k < y * NUM_COLS ==> page[k] == old(page[k]).(ch := old(page[k + NUM_COLS].ch))
        invariant forall k :: y * NUM_COLS <= k < y * NUM_COLS + x ==> page[k] == old(page[k]).(ch := SPACE)
        invariant forall k :: y * NUM_COLS + x <= k < PAGE_CELLS ==> page[k] == old(page[k])
      {
        var to := x + y * NUM_COLS;
        page[to] := page[to].(ch := SPACE);
        x := x + 1;
      }
    }

    method TermScroll(t: nat)
      requires Wired() && t < TERM_MAX && terms[t].video <= TERM_MAX
      modifies terms, pages[terms[t].video]
      ensures var page := pages[old(terms[t].video)];
              page[..CELLS] == ScrollChars(old(page[..CELLS])) && page[CELLS..] == old(page[CELLS..])
      ensures terms[..] == old(terms[..])[t := old(terms[t]).(curX := 0, curY := NUM_ROWS - 1)]
    {
      ScrollPage(pages[terms[t].video]);
      terms[t] := terms[t].(curX := 0, curY := NUM_ROWS - 1);
    }

    // Put a printable byte or a newline at the cursor, and move the cursor.
    method PutAtCursor(c: byte, t: nat)
      requires Wired() && t < TERM_MAX && terms[t].video <= TERM_MAX && ShapedTerm(terms[t])
      modifies terms, pages[terms[t].video]
      ensures var page, p := pages[old(terms[t].video)], CursorOf(old(terms[t]));
              page[..] == RawPut(old(page[..CELLS]), p, c) + old(page[CELLS..])
      ensures var q := NextPosition(CursorOf(old(terms[t])), c);
              terms[..] == old(terms[..])[t := old(terms[t]).(curX := q % NUM_COLS, curY := q / NUM_COLS)]
    {
      var m := terms[t];
      var page := pages[m.video];
      ghost var p := CursorOf(m);
      ghost var cells, rest := page[..CELLS], page[CELLS..];
      assert p / NUM_COLS == m.curY;
      if c == NL {
        terms[t] := terms[t].(curY := terms[t].curY + 1, curX := 0);
      } else {
        page[NUM_COLS * m.curY + m.curX] := Cell(c, ATTRIB);
        terms[t] := terms[t].(curX := terms[t].curX + 1);
        if terms[t].curX >= NUM_COLS {
          terms[t] := terms[t].(curY := terms[t].curY + 1, curX := 0);
        }
      }
      assert page[..CELLS] == (if c == NL then cells else cells[p := Cell(c, ATTRIB)]) && page[CELLS..] == rest;
      if terms[t].curY >= NUM_ROWS {
        TermScroll(t);
      }
      assert page[..CELLS] == RawPut(cells, p, c);
      assert page[..] == page[..CELLS] + page[CELLS..];
    }

    method TermPutc(c: byte, t: nat)
      requires Valid() && t < TERM_MAX
      modifies this`cursor, terms, pages[terms[t].video]
      ensures Valid() && View() == Put(old(View()), t, c)
    {
      if c == NUL || c == CR {
        return;
      }
      PutInSteps(View(), t, c);
      PutPart(c, t);
      SyncCursor(t);
    }

    method SyncCursor(t: nat)
      requires Wired() && t < TERM_MAX && 0 <= terms[t].curX < NUM_COLS && 0 <= terms[t].curY
      modifies terms, this`cursor
      ensures View() == Synced(old(View()), t)
    {
      MoveCursor(t, terms[t].curX, terms[t].curY);
    }

    method PutPart(c: byte, t: nat)
      requires Valid() && t < TERM_MAX && !Dropped(c)
      modifies terms, pages[terms[t].video]
      ensures View() == PutBare(old(View()), t, c)
    {
      PutAtCursor(c, t);
    }

    // Swap the displayed page out to its terminal's backup and the backup of
    // another terminal in.
    method SwapPages(d: nat, t: nat)
      requires Wired() && d < TERM_MAX && t < TERM_MAX && d != t
      modifies pages[0], pages[1 + d]
      ensures pages[1 + d][..] == old(pages[0][..CELLS]) + old(pages[1 + d][CELLS..])
      ensures pages[0][..] == old(pages[1 + t][..CELLS]) + old(pages[0][CELLS..])
      ensures forall i :: 0 <= i <= TERM_MAX && i != 0 && i != 1 + d ==> pages[i][..] == old(pages[i][..])
    {
      var video, backup, next := pages[0], pages[1 + d], pages[1 + t];
      var i := 0;
      while i < CELLS
        invariant 0 <= i <= CELLS
        invariant forall k :: 0 <= k < i ==> backup[k] == old(video[k]) && video[k] == old(next[k])
        invariant forall k :: i <= k < PAGE_CELLS ==> backup[k] == old(backup[k]) && video[k] == old(video[k])
        invariant next[..] == old(next[..])
      {
        backup[i] := video[i];
        video[i] := next[i];
        i := i + 1;
      }
    }

    method SwapScreens(d: nat, t: nat)
      requires Wired() && d < TERM_MAX && t < TERM_MAX && d != t
      modifies pages[0], pages[1 + d]
      ensures View() == Swapped(old(View()), d, t)
    {
      SwapPages(d, t);
    }

    // The result is -1 for a terminal that does not exist.
    method ShowTerminal(t: nat) returns (r: int)
      requires Valid()
      modifies this, terms, paging.video, pages[0], pages[1 + display]
      ensures Valid() && View() == Show(old(View()), t)
      ensures r == if t < TERM_MAX then 0 else -1
      ensures paging.View() == if t >= TERM_MAX || t == old(display) then old(paging.View())
              else Switched(old(paging.View()), t, old(display))
    {
      if t >= TERM_MAX {
        return -1;
      }
      if t == display {
        return 0;
      }
      Switch(t);
      return 0;
    }

    method Switch(t: nat)
      requires Valid() && t < TERM_MAX && t != display
      modifies this, terms, paging.video, pages[0], pages[1 + display]
      ensures View() == Show(old(View()), t)
      ensures paging.View() == Switched(old(paging.View()), t, old(display))
    {
      ghost var v := View();
      ShowInSteps(v, t);
      MapScreens(display, t);
      SwapScreens(display, t);
      Redirect(t);
    }

    // Point user mode at the pages two terminals will be drawn on.
    method MapScreens(d: nat, t: nat)
      requires Wired() && d < TERM_MAX && t < TERM_MAX && d != t
      modifies paging.video
      ensures paging.View() == Switched(old(paging.View()), t, d)
      ensures View() == Remapped(old(View()), d, t)
    {
      paging.Map4kb(true, TermPage(t), VMEM_MAP);
      paging.Map4kb(true, TermPage(d), TermPage(d));
    }

    // Draw the terminals where their pages now are.
    method Redirect(t: nat)
      requires Wired() && display < TERM_MAX && t < TERM_MAX && display != t
      modifies this, terms
      ensures View() == Redirected(old(View()), t)
    {
      terms[display] := terms[display].(video := 1 + display);
      terms[t] := terms[t].(video := 0);
      display := t;
      ResetCursor(t, terms[t].curX, terms[t].curY);
    }

    // A program's write: every byte is printed.
    method TerminalWrite(t: nat, input: seq<byte>) returns (n: nat)
      requires Valid() && t < TERM_MAX
      modifies this`cursor, terms, pages[terms[t].video]
      ensures Valid() && View() == Write(old(View()), t, input) && n == |input|
    {
      var i := 0;
      ghost var page := pages[terms[t].video];
      while i < |input|
        invariant 0 <= i <= |input| && Valid() && pages[terms[t].video] == page
        invariant Write(View(), t, input[i..]) == Write(old(View()), t, input)
      {
        assert input[i..][1..] == input[i + 1..];
        TermPutc(input[i], t);
        i := i + 1;
      }
      return i;
    }

    method TermShowbuf(t: nat)
      requires Valid() && t < TERM_MAX
      modifies this`cursor, terms, pages[terms[t].video]
      ensures Valid() && View() == E.ShowBuf(old(View()), t)
    {
      var line := terms[display].kbBuf[..terms[display].kbPos];
      var _ := TerminalWrite(t, line);
    }

    // The result says whether the buffer had room.
    method KeyboardChar(c: byte) returns (added: bool)
      requires Valid()
      modifies this`cursor, terms, pages[0]
      ensures Valid() && View() == E.KeyChar(old(View()), c)
      ensures added == (old(terms[display]).kbPos < KB_BUF_SIZE - 1)
    {
      var m := terms[display];
      if m.kbPos >= KB_BUF_SIZE - 1 {
        return false;
      }
      BufferKey(c);
      TermPutc(c, display);
      return true;
    }

    method KeyboardTab()
      requires Valid()
      modifies this`cursor, terms, pages[0]
      ensures Valid() && View() == E.KeyTab(old(View()))
    {
      TypeSpaces(TAB_STOP - terms[display].curX % TAB_STOP);
    }

    method TypeSpaces(n: nat)
      requires Valid()
      modifies this`cursor, terms, pages[0]
      ensures Valid() && View() == E.KeySpaces(old(View()), n)
    {
      hide E.KeyChar, Arranged;
      var spaces := n;
      ghost var goal := E.KeySpaces(View(), n);
      while spaces > 0
        invariant spaces >= 0 && Valid() && display == old(display)
        invariant E.KeySpaces(View(), spaces) == goal
      {
        var _ := KeyboardChar(SPACE);
        spaces := spaces - 1;
      }
    }

    method KeyboardBackspace()
      requires Valid()
      modifies this`cursor, terms, pages[0]
      ensures Valid() && View() == E.KeyBackspace(old(View()))
    {
      hide Draw, MoveTo;
      var m := terms[display];
      if m.kbPos == 0 || (m.curX == 0 && m.curY == 0) {
        return;
      }
      Unbuffer();
      assert CellsOf(View(), display) == CellsOf(old(View()), display);
      var x, y := m.curX - 1, m.curY;
      if m.curX < 1 {
        x, y := NUM_COLS - 1, m.curY - 1;
      }
      assert NUM_COLS * y + x == CursorOf(m) - 1;
      Erase(x, y);
      MoveCursor(display, x, y);
      assert View() == E.KeyBackspace(old(View()));
    }

    method Erase(x: nat, y: nat)
      requires Valid() && x < NUM_COLS && y < NUM_ROWS
      modifies pages[0]
      ensures View() == Draw(old(View()), display, CellsOf(old(View()), display)[NUM_COLS * y + x := BLANK])
    {
      SetChar(SPACE, x, y);
    }

    method Unbuffer()
      requires Valid() && terms[display].kbPos > 0
      modifies terms
      ensures Valid() && View() == var v := old(View()); v.(terms := v.terms[v.display := v.terms[v.display].(kbPos := v.terms[v.display].kbPos - 1)])
    {
      terms[display] := terms[display].(kbPos := terms[display].kbPos - 1);
    }

    // Write straight to the displayed page.
    method SetChar(c: byte, x: nat, y: nat)
      requires Wired() && x < NUM_COLS && y < NUM_ROWS
      modifies pages[0]
      ensures pages[0][..] == old(pages[0][..CELLS])[NUM_COLS * y + x := Cell(c, ATTRIB)] + old(pages[0][CELLS..])
    {
      pages[0][NUM_COLS * y + x] := Cell(c, ATTRIB);
    }

    method BufferKey(c: byte)
      requires Valid() && terms[display].kbPos < KB_BUF_SIZE
      modifies terms
      ensures Valid() && View() == E.Buffer(old(View()), display, c)
    {
      var m := terms[display];
      terms[display] := m.(kbBuf := m.kbBuf[m.kbPos := c], kbPos := m.kbPos + 1);
    }

    method EndLine()
      requires Valid()
      modifies terms, waiting
      ensures Valid()
      ensures View() == var v, d := old(View()), display;
                        if v.waiting[d] then v.(waiting := v.waiting[d := false]) else v.(terms := v.terms[d := v.terms[d].(kbPos := 0)])
    {
      if waiting[display] {
        waiting[display] := false;
      } else {
        terms[display] := terms[display].(kbPos := 0);
      }
    }

    method KeyboardEnter()
      requires Valid() && terms[display].kbPos < KB_BUF_SIZE
      modifies this`cursor, terms, pages[0], waiting
      ensures Valid() && View() == E.KeyEnter(old(View()))
    {
      BufferKey(NL);
      TermPutc(NL, display);
      EndLine();
    }

    method CtrlL()
      requires Valid()
      modifies this`cursor, terms, pages[0]
      ensures Valid() && View() == E.Redraw(old(View()))
    {
      TermClear(display);
      TermShowbuf(display);
    }

    // The two halves of a read: before the reader waits, and once the line
    // has come.
    method TerminalReadBegin(t: nat)
      requires Valid() && t < TERM_MAX
      modifies this`cursor, terms, waiting, pages[terms[t].video]
      ensures Valid() && View() == E.ReadBegin(old(View()), t)
    {
      waiting[t] := true;
      if terms[t].kbPos != 0 {
        TermShowbuf(t);
      }
    }

    method TerminalReadEnd(t: nat, buf: array<byte>, count: nat) returns (i: nat)
      requires Valid() && t < TERM_MAX && Min(count, terms[t].kbPos) <= buf.Length
      modifies terms, buf
      ensures Valid() && View() == E.ReadEnd(old(View()), t, count)
      ensures i <= buf.Length && buf[..i] == E.ReadBytes(old(View()), t, count)
    {
      var m := terms[t];
      ghost var before := View();
      i := 0;
      while i < count
        invariant 0 <= i <= Min(count, m.kbPos) && buf[..i] == m.kbBuf[..i]
        modifies buf
      {
        if i < m.kbPos {
          buf[i] := m.kbBuf[i];
        } else {
          break;
        }
        i := i + 1;
      }
      if i >= m.kbPos {
        terms[t] := m.(kbPos := 0);
      }
    }
  }

  // The three parts of switching from terminal d to t.
  function Remapped(v: View, d: nat, t: nat): View
    requires |v.mapped| == TERM_MAX && d < TERM_MAX && t < TERM_MAX
  {
    v.(mapped := v.mapped[t := VMEM_MAP][d := VMEM_MAP + 1 + d])
  }

  function Swapped(v: View, d: nat, t: nat): View
    requires |v.pages| == 1 + TERM_MAX && d < TERM_MAX && t < TERM_MAX
    requires |v.pages[0]| >= CELLS && |v.pages[1 + d]| >= CELLS && |v.pages[1 + t]| >= CELLS
  {
    v.(pages := v.pages[1 + d := v.pages[0][..CELLS] + v.pages[1 + d][CELLS..]]
                       [0 := v.pages[1 + t][..CELLS] + v.pages[0][CELLS..]])
  }

  function Redirected(v: View, t: nat): View
    requires |v.terms| == TERM_MAX && v.display < TERM_MAX && t < TERM_MAX
  {
    v.(terms := v.terms[v.display := v.terms[v.display].(video := 1 + v.display)][t := v.terms[t].(video := 0)],
       display := t, cursor := CursorOf(v.terms[t]))
  }

  // Printing without moving the hardware cursor.
  function PutBare(v: View, t: nat, c: byte): View
    requires Arranged(v) && t < TERM_MAX
  {
    var p := CursorOf(v.terms[t]);
    var q := NextPosition(p, c);
    Draw(v, t, RawPut(CellsOf(v, t), p, c)).(terms := v.terms[t := v.terms[t].(curX := q % NUM_COLS, curY := q / NUM_COLS)])
  }

  function Synced(v: View, t: nat): View
    requires |v.terms| == TERM_MAX && t < TERM_MAX && 0 <= v.terms[t].curX < NUM_COLS && 0 <= v.terms[t].curY
  {
    MoveTo(v, t, NUM_COLS * v.terms[t].curY + v.terms[t].curX)
  }

  lemma {:induction false} PutInSteps(v: View, t: nat, c: byte)
    requires Arranged(v) && t < TERM_MAX && !Dropped(c)
    ensures var w := PutBare(v, t, c);
            |w.terms| == TERM_MAX && 0 <= w.terms[t].curX < NUM_COLS && 0 <= w.terms[t].curY
            && Synced(w, t) == Put(v, t, c)
  {
    var q := NextPosition(CursorOf(v.terms[t]), c);
    assert NUM_COLS * (q / NUM_COLS) + q % NUM_COLS == q;
  }

  lemma {:induction false} ShowInSteps(v: View, t: nat)
    requires Arranged(v) && t < TERM_MAX && t != v.display
    ensures Show(v, t) == Redirected(Swapped(Remapped(v, v.display, t), v.display, t), t)
  {
  }
}
