// Why the terminals are independent of each other and of which one is
// displayed, and what each of them shows.
module Independence {
  import opened Text
  import opened Limits
  import opened Layout
  import opened Screens

  // One terminal by itself: its cells and its cursor.
  datatype Lone = Lone(cells: seq<Cell>, position: int)

  function Alone(v: View, t: nat): Lone
    requires Arranged(v) && t < TERM_MAX
  {
    Lone(CellsOf(v, t), CursorOf(v.terms[t]))
  }

  predicate ShapedLone(s: Lone) {
    |s.cells| == CELLS && 0 <= s.position < CELLS
  }

  // The operations as terminal t alone would see them: its own, and nothing
  // else; in particular, switching is no operation at all.
  function DoAlone(s: Lone, t: nat, op: Operation): (r: Lone)
    requires ShapedLone(s)
    ensures ShapedLone(r)
  {
    match op
    case PutOp(u, c) =>
      if u != t || Dropped(c) then s else Lone(RawPut(s.cells, s.position, c), NextPosition(s.position, c))
    case ClearOp(u) => if u != t then s else Lone(seq(CELLS, _ => BLANK), 0)
    case ShowOp(_) => s
  }

  function DoAllAlone(s: Lone, t: nat, ops: seq<Operation>): (r: Lone)
    requires ShapedLone(s)
    ensures ShapedLone(r)
    decreases |ops|
  {
    if ops == [] then s else DoAllAlone(DoAlone(s, t, ops[0]), t, ops[1..])
  }

  lemma {:induction false} PutIsLocal(v: View, t: nat, c: byte, u: nat)
    requires Arranged(v) && t < TERM_MAX && u < TERM_MAX
    ensures Alone(Put(v, t, c), u) == DoAlone(Alone(v, u), u, PutOp(t, c))
  {
  }

  lemma {:induction false} ClearIsLocal(v: View, t: nat, u: nat)
    requires Arranged(v) && t < TERM_MAX && u < TERM_MAX
    ensures Alone(Clear(v, t), u) == DoAlone(Alone(v, u), u, ClearOp(t))
  {
  }

  lemma {:induction false} ShowIsInvisible(v: View, t: nat, u: nat)
    requires Arranged(v) && u < TERM_MAX
    ensures Alone(Show(v, t), u) == Alone(v, u)
  {
  }

  // Any interleaving of printing, clearing and switching, on any terminals,
  // leaves each terminal as its own operations alone would have.
  lemma {:induction false} TerminalsAreIndependent(v: View, ops: seq<Operation>, t: nat)
    requires Arranged(v) && InRange(ops) && t < TERM_MAX
    ensures Alone(DoAll(v, ops), t) == DoAllAlone(Alone(v, t), t, ops)
    decreases |ops|
  {
    if ops != [] {
      match ops[0] {
        case PutOp(u, c) => PutIsLocal(v, u, c, t);
        case ClearOp(u) => ClearIsLocal(v, u, t);
        case ShowOp(u) => ShowIsInvisible(v, u, t);
      }
      TerminalsAreIndependent(Do(v, ops[0]), ops[1..], t);
    }
  }

  // A terminal shows what has been printed on it since it was cleared.
  predicate Shows(s: Lone, l: Log) {
    FitsWindow(l) && s == Lone(Screen(l), Position(l))
  }

  function TrackLog(l: Log, t: nat, op: Operation): Log {
    match op
    case PutOp(u, c) => if u == t then PutLog(l, c) else l
    case ClearOp(u) => if u == t then CLEARED else l
    case ShowOp(_) => l
  }

  lemma {:induction false} RawPutIsPut(l: Log, p: nat, c: byte)
    requires p < CELLS
    ensures RawPut(Screen(l), p, c) == PutCells(Screen(l), p, c)
  {
    var q := if c == NL then (p / NUM_COLS + 1) * NUM_COLS else p + 1;
    if q >= CELLS {
      ScrollPlain(if c == NL then Screen(l) else Screen(l)[p := Cell(c, ATTRIB)]);
    }
  }

  lemma {:induction false} ScrollPlain(cells: seq<Cell>)
    requires |cells| == CELLS && forall i :: 0 <= i < CELLS ==> cells[i].attr == ATTRIB
    ensures ScrollChars(cells) == Scrolled(cells)
  {
  }

  lemma {:induction false} LoneShows(s: Lone, l: Log, t: nat, op: Operation)
    requires Shows(s, l)
    ensures ShapedLone(s) && Shows(DoAlone(s, t, op), TrackLog(l, t, op))
  {
    match op {
      case PutOp(u, c) =>
        if u == t && !Dropped(c) {
          PutEffect(l, c);
          RawPutIsPut(l, Position(l), c);
        }
      case ClearOp(u) =>
        ClearedFits();
        assert u == t ==> DoAlone(s, t, op).cells == Screen(CLEARED);
      case ShowOp(_) =>
    }
  }

  // On any screen, whatever its attributes: a byte that scrolls moves every
  // character up a row, and no byte changes an attribute but the one of the
  // cell it is written to.
  lemma {:induction false} PutKeepsAttributes(v: View, t: nat, c: byte, i: nat)
    requires Arranged(v) && t < TERM_MAX && i < CELLS
    ensures var before, after := CellsOf(v, t), CellsOf(Put(v, t, c), t);
            (i != CursorOf(v.terms[t]) || c == NL ==> after[i].attr == before[i].attr)
    ensures var before, after := CellsOf(v, t), CellsOf(Put(v, t, c), t);
            c == NL && v.terms[t].curY == NUM_ROWS - 1 ==>
              after[i].ch == if i < CELLS - NUM_COLS then before[i + NUM_COLS].ch else SPACE
  {
  }

  function Chars(cells: seq<Cell>): (s: seq<byte>)
    ensures |s| == |cells| && forall i :: 0 <= i < |s| ==> s[i] == cells[i].ch
  {
    if cells == [] then [] else Chars(cells[..|cells| - 1]) + [cells[|cells| - 1].ch]
  }

  // No clearing is needed to begin with: any screen in the normal attribute
  // that is blank from the cursor on shows the text in it.
  lemma {:induction false} AnyScreenShows(s: Lone)
    requires ShapedLone(s)
    requires forall i :: 0 <= i < CELLS ==> s.cells[i].attr == ATTRIB && s.cells[i].ch != NL
    requires forall i :: s.position <= i < CELLS ==> s.cells[i].ch == SPACE
    ensures Shows(s, Log(Chars(s.cells[..s.position]), 0))
  {
    var t := Chars(s.cells[..s.position]);
    OneLineLayout(t);
    forall i | 0 <= i < CELLS
      ensures Window(t, 0)[i] == s.cells[i]
    {
      if i >= s.position {
        BlankPastEnd(t, i);
      }
    }
    LastRowShort(t);
  }

  // The refinement: a terminal cleared and then printed on by any number of
  // programs, under any switching and whatever happens on the others, shows
  // the last 25 rows of the layout of what was printed on it.
  function BytesFor(t: nat, ops: seq<Operation>): seq<byte>
    decreases |ops|
  {
    if ops == [] then []
    else (if ops[0].PutOp? && ops[0].term == t then [ops[0].c] else []) + BytesFor(t, ops[1..])
  }

  predicate NoClear(t: nat, ops: seq<Operation>) {
    forall i :: 0 <= i < |ops| ==> !(ops[i].ClearOp? && ops[i].term == t)
  }

  lemma {:induction false} LoneShowsAll(s: Lone, l: Log, t: nat, ops: seq<Operation>)
    requires Shows(s, l) && NoClear(t, ops)
    ensures ShapedLone(s) && Shows(DoAllAlone(s, t, ops), WriteLog(l, BytesFor(t, ops)))
    decreases |ops|
  {
    LoneShows(s, l, t, ClearOp(t));
    if ops != [] {
      LoneShows(s, l, t, ops[0]);
      LoneShowsAll(DoAlone(s, t, ops[0]), TrackLog(l, t, ops[0]), t, ops[1..]);
      var more := BytesFor(t, ops[1..]);
      if ops[0].PutOp? && ops[0].term == t {
        assert BytesFor(t, ops) == [ops[0].c] + more;
        assert ([ops[0].c] + more)[1..] == more;
      } else {
        assert BytesFor(t, ops) == more;
      }
    }
  }

  lemma {:induction false} ClearedShows(v: View, t: nat)
    requires Arranged(v) && t < TERM_MAX
    ensures Shows(Alone(Clear(v, t), t), CLEARED)
  {
    ClearIsLocal(v, t, t);
    ClearedFits();
    assert Alone(Clear(v, t), t).cells == Screen(CLEARED);
  }

  lemma {:induction false} LogOfAll(s: seq<byte>)
    ensures WriteLog(CLEARED, s) == Log(Printed(s), Max(0, |Rows(Printed(s))| - NUM_ROWS))
  {
    ClearedAtEnd();
    hide Rows, Printed, WriteLog, Pieces;
    ScreenIsLastRows(CLEARED, s);
    assert [] + Printed(s) == Printed(s);
  }

  lemma {:induction false} ScreenRefinement(v: View, ops: seq<Operation>, t: nat)
    requires Arranged(v) && InRange(ops) && t < TERM_MAX && NoClear(t, ops)
    ensures var text := Printed(BytesFor(t, ops));
            var l := Log(text, Max(0, |Rows(text)| - NUM_ROWS));
            FitsWindow(l) && Alone(DoAll(Clear(v, t), ops), t) == Lone(Screen(l), Position(l))
  {
    hide DoAll, Clear, CellsOf, Window, Pieces;
    TerminalsAreIndependent(Clear(v, t), ops, t);
    ClearedShows(v, t);
    LoneShowsAll(Alone(Clear(v, t), t), CLEARED, t, ops);
    LogOfAll(BytesFor(t, ops));
  }
}
