// Three virtual terminals over one displayed and three backup video pages, and
// what each operation does to all of it.
module Screens {
  import opened Text
  import opened Limits
  import opened Layout

  const TAB_STOP := 4
  const PAGE_CELLS := 2048

  // video is the page the terminal is drawn on; page 0 is the displayed one.
  datatype Term = Term(curX: int, curY: int, kbBuf: seq<byte>, kbPos: nat, video: nat)

  // mapped is the physical page user mode finds at each terminal's address,
  // the displayed page being VMEM_MAP; cursor is the hardware cursor.
  datatype View = View(terms: seq<Term>, pages: seq<seq<Cell>>, display: nat, cursor: int, waiting: seq<bool>, mapped: seq<nat>)

  function PageOf(t: nat, display: nat): nat {
    if t == display then 0 else 1 + t
  }

  predicate ShapedTerm(m: Term) {
    0 <= m.curX < NUM_COLS && 0 <= m.curY < NUM_ROWS && |m.kbBuf| == KB_BUF_SIZE && m.kbPos <= KB_BUF_SIZE
  }

  // The kernel draws every terminal on the page user mode sees for it: the
  // displayed one on page 0, the others on their backups.
  predicate Arranged(v: View) {
    && |v.terms| == TERM_MAX && |v.pages| == 1 + TERM_MAX && |v.waiting| == TERM_MAX && |v.mapped| == TERM_MAX
    && v.display < TERM_MAX
    && (forall t :: 0 <= t < TERM_MAX ==>
          ShapedTerm(v.terms[t]) && v.terms[t].video == PageOf(t, v.display) && v.mapped[t] == VMEM_MAP + v.terms[t].video)
    && (forall i :: 0 <= i <= TERM_MAX ==> |v.pages[i]| == PAGE_CELLS)
    && v.cursor == CursorOf(v.terms[v.display])
  }

  function CursorOf(m: Term): int {
    NUM_COLS * m.curY + m.curX
  }

  // The screen of terminal t, wherever it is drawn.
  function CellsOf(v: View, t: nat): (cells: seq<Cell>)
    requires Arranged(v) && t < TERM_MAX
    ensures |cells| == CELLS
  {
    v.pages[v.terms[t].video][..CELLS]
  }

  function Draw(v: View, t: nat, cells: seq<Cell>): View
    requires Arranged(v) && t < TERM_MAX && |cells| == CELLS
  {
    var p := v.terms[t].video;
    v.(pages := v.pages[p := cells + v.pages[p][CELLS..]])
  }

  function MoveTo(v: View, t: nat, p: nat): View
    requires t < |v.terms|
  {
    v.(terms := v.terms[t := v.terms[t].(curX := p % NUM_COLS, curY := p / NUM_COLS)],
       cursor := if t == v.display then p else v.cursor)
  }

  function Clear(v: View, t: nat): (r: View)
    requires Arranged(v) && t < TERM_MAX
    ensures Arranged(r)
  {
    MoveTo(Draw(v, t, seq(CELLS, _ => BLANK)), t, 0)
  }

  // Scrolling moves the characters up a row; attributes stay where they are.
  function ScrollChars(cells: seq<Cell>): (r: seq<Cell>)
    requires |cells| == CELLS
    ensures |r| == CELLS
  {
    seq(CELLS, i requires 0 <= i < CELLS => cells[i].(ch := if i + NUM_COLS < CELLS then cells[i + NUM_COLS].ch else SPACE))
  }

  function RawPut(cells: seq<Cell>, p: nat, c: byte): (r: seq<Cell>)
    requires |cells| == CELLS && p < CELLS
    ensures |r| == CELLS
  {
    var q := if c == NL then (p / NUM_COLS + 1) * NUM_COLS else p + 1;
    var written := if c == NL then cells else cells[p := Cell(c, ATTRIB)];
    if q < CELLS then written else ScrollChars(written)
  }

  function Put(v: View, t: nat, c: byte): (r: View)
    requires Arranged(v) && t < TERM_MAX
    ensures Arranged(r)
  {
    if Dropped(c) then v
    else
      var p := CursorOf(v.terms[t]);
      MoveTo(Draw(v, t, RawPut(CellsOf(v, t), p, c)), t, NextPosition(p, c))
  }

  function Write(v: View, t: nat, s: seq<byte>): (r: View)
    requires Arranged(v) && t < TERM_MAX
    ensures Arranged(r)
    decreases |s|
  {
    if s == [] then v else Write(Put(v, t, s[0]), t, s[1..])
  }

  // Display another terminal: back up the displayed screen, bring in the
  // other one, and redirect both terminals' pages.
  function Show(v: View, t: nat): (r: View)
    requires Arranged(v)
    ensures Arranged(r)
  {
    if t >= TERM_MAX || t == v.display then v
    else
      var d := v.display;
      var out, into := CellsOf(v, d), CellsOf(v, t);
      v.(pages := v.pages[1 + d := out + v.pages[1 + d][CELLS..]][0 := into + v.pages[0][CELLS..]],
         terms := v.terms[d := v.terms[d].(video := 1 + d)][t := v.terms[t].(video := 0)],
         mapped := v.mapped[t := VMEM_MAP][d := VMEM_MAP + 1 + d],
         display := t, cursor := CursorOf(v.terms[t]))
  }

  datatype Operation = PutOp(term: nat, c: byte) | ClearOp(term: nat) | ShowOp(term: nat)

  function Do(v: View, op: Operation): (r: View)
    requires Arranged(v) && (op.ShowOp? || op.term < TERM_MAX)
    ensures Arranged(r)
  {
    match op
    case PutOp(t, c) => Put(v, t, c)
    case ClearOp(t) => Clear(v, t)
    case ShowOp(t) => Show(v, t)
  }

  predicate InRange(ops: seq<Operation>) {
    forall i :: 0 <= i < |ops| ==> ops[i].ShowOp? || ops[i].term < TERM_MAX
  }

  function DoAll(v: View, ops: seq<Operation>): (r: View)
    requires Arranged(v) && InRange(ops)
    ensures Arranged(r)
    decreases |ops|
  {
    if ops == [] then v else DoAll(Do(v, ops[0]), ops[1..])
  }
}
