// The unbounded 80-column layout of a text, and the 25-row screen as a window
// onto it.
module Layout {
  import opened Text

  const NUM_COLS := 80
  const NUM_ROWS := 25
  const CELLS := 2000
  const ATTRIB: byte := 7

  datatype Cell = Cell(ch: byte, attr: byte)

  const BLANK := Cell(SPACE, ATTRIB)

  // A new row begins after every newline and as soon as a row is full.
  function Rows(t: seq<byte>): (rows: seq<seq<byte>>)
    ensures |rows| >= 1
  {
    Pieces(t, NUM_COLS)
  }

  // Positions in the layout, counted along rows of 80 from the first.
  function CharAt(rows: seq<seq<byte>>, j: nat): byte {
    if j / NUM_COLS < |rows| && j % NUM_COLS < |rows[j / NUM_COLS]| then rows[j / NUM_COLS][j % NUM_COLS] else SPACE
  }

  // Where the next character goes.
  function End(rows: seq<seq<byte>>): nat
    requires |rows| >= 1
  {
    NUM_COLS * (|rows| - 1) + |rows[|rows| - 1]|
  }

  lemma {:induction false} LastRowShort(t: seq<byte>)
    ensures var rows := Rows(t); |rows[|rows| - 1]| < NUM_COLS
  {
    PieceLengths(t, NUM_COLS);
  }

  // A printed character appears at the end of the layout and nowhere else.
  lemma {:induction false} PrintChar(t: seq<byte>, c: byte, j: nat)
    requires c != NL
    ensures var rows, rows' := Rows(t), Rows(t + [c]);
            && End(rows') == End(rows) + 1
            && CharAt(rows', j) == (if j == End(rows) then c else CharAt(rows, j))
            && |rows'| == (if (End(rows) + 1) % NUM_COLS == 0 then |rows| + 1 else |rows|)
  {
    LastRowShort(t);
    PiecesExtend(t, c, NUM_COLS);
    var rows, rows' := Rows(t), Rows(t + [c]);
    var last := |rows| - 1;
    assert rows' == Extend(rows, c, NUM_COLS);
    assert (End(rows) + 1) % NUM_COLS == 0 <==> |rows[last]| + 1 == NUM_COLS;
    assert j == End(rows) <==> j / NUM_COLS == last && j % NUM_COLS == |rows[last]|;
  }

  // A newline moves no character.
  lemma {:induction false} PrintNewline(t: seq<byte>, j: nat)
    ensures var rows, rows' := Rows(t), Rows(t + [NL]);
            End(rows') == NUM_COLS * |rows| && |rows'| == |rows| + 1 && CharAt(rows', j) == CharAt(rows, j)
  {
    PiecesExtend(t, NL, NUM_COLS);
  }

  // Text without newlines fills row after row.
  lemma {:induction false} OneLineLayout(t: seq<byte>)
    requires OneLine(t)
    ensures End(Rows(t)) == |t|
    ensures forall j :: 0 <= j < |t| ==> CharAt(Rows(t), j) == t[j]
    decreases |t|
  {
    if t == [] {
      assert Rows(t) == [[]];
    } else {
      var s, c := t[..|t| - 1], t[|t| - 1];
      assert t == s + [c];
      OneLineLayout(s);
      forall j | 0 <= j < |t|
        ensures End(Rows(t)) == |t| && CharAt(Rows(t), j) == t[j]
      {
        PrintChar(s, c, j);
      }
    }
  }

  // Nothing has been printed at or past the end.
  lemma {:induction false} BlankPastEnd(t: seq<byte>, j: nat)
    requires j >= End(Rows(t))
    ensures CharAt(Rows(t), j) == SPACE
  {
  }

  // What has been printed on a screen, and how many rows have scrolled off.
  datatype Log = Log(text: seq<byte>, top: nat)

  const CLEARED := Log([], 0)

  // The rows above the screen are gone for good; the last row is on it.
  predicate FitsWindow(l: Log) {
    l.top < |Rows(l.text)| <= l.top + NUM_ROWS
  }

  // The cursor, counted in cells from the top left corner.
  function Position(l: Log): (p: nat)
    requires FitsWindow(l)
    ensures p < CELLS
  {
    LastRowShort(l.text);
    End(Rows(l.text)) - NUM_COLS * l.top
  }

  function Window(t: seq<byte>, top: nat): (cells: seq<Cell>)
    ensures |cells| == CELLS
    ensures forall i :: 0 <= i < CELLS ==> cells[i] == Cell(CharAt(Rows(t), NUM_COLS * top + i), ATTRIB)
  {
    seq(CELLS, i requires 0 <= i < CELLS => Cell(CharAt(Rows(t), NUM_COLS * top + i), ATTRIB))
  }

  function Screen(l: Log): seq<Cell> {
    Window(l.text, l.top)
  }

  predicate Dropped(c: byte) {
    c == NUL || c == CR
  }

  // Printing one byte: the text grows, and the screen scrolls if it must.
  function PutLog(l: Log, c: byte): Log {
    if Dropped(c) then l
    else var t := l.text + [c]; Log(t, Max(l.top, |Rows(t)| - NUM_ROWS))
  }

  function WriteLog(l: Log, s: seq<byte>): Log
    decreases |s|
  {
    if s == [] then l else WriteLog(PutLog(l, s[0]), s[1..])
  }

  function PrintedOne(c: byte): seq<byte> {
    if Dropped(c) then [] else [c]
  }

  function Printed(s: seq<byte>): seq<byte> {
    if s == [] then [] else PrintedOne(s[0]) + Printed(s[1..])
  }

  // What is printed of a text is all of it but its NULs and carriage returns.
  lemma {:induction false} PrintedIs(a: seq<byte>, c: byte, b: seq<byte>)
    ensures Printed(a + [c] + b) == Printed(a) + (if c == 0 || c == 13 then [] else [c]) + Printed(b)
    decreases |a|
  {
    if a == [] {
      assert ([c] + b)[1..] == b && [] + [c] + b == [c] + b;
    } else {
      assert (a + [c] + b)[1..] == a[1..] + [c] + b;
      PrintedIs(a[1..], c, b);
    }
  }

  lemma {:induction false} RowsGrow(t: seq<byte>, c: byte)
    ensures |Rows(t)| <= |Rows(t + [c])| <= |Rows(t)| + 1
  {
    PiecesExtend(t, c, NUM_COLS);
  }

  lemma {:induction false} PutFits(l: Log, c: byte)
    requires FitsWindow(l)
    ensures FitsWindow(PutLog(l, c))
    ensures PutLog(l, c).top <= l.top + 1
  {
    if !Dropped(c) {
      RowsGrow(l.text, c);
    }
  }

  lemma {:induction false} ClearedFits()
    ensures FitsWindow(CLEARED) && Position(CLEARED) == 0
    ensures forall i :: 0 <= i < CELLS ==> Screen(CLEARED)[i] == BLANK
  {
  }

  // The screen shows the end of the layout.
  predicate AtEnd(l: Log) {
    l.top == Max(0, |Rows(l.text)| - NUM_ROWS)
  }

  lemma {:induction false} ClearedAtEnd()
    ensures FitsWindow(CLEARED) && AtEnd(CLEARED)
  {
    assert Rows([]) == [[]];
  }

  lemma {:induction false} PutAtEnd(l: Log, c: byte)
    requires FitsWindow(l) && AtEnd(l)
    ensures FitsWindow(PutLog(l, c)) && AtEnd(PutLog(l, c))
    ensures PutLog(l, c).text == l.text + PrintedOne(c)
  {
    PutFits(l, c);
    if !Dropped(c) {
      RowsGrow(l.text, c);
    }
  }

  // The screen after clearing it and printing anything: the last 25 rows of
  // the layout of what was printed.
  lemma {:induction false} ScreenIsLastRows(l: Log, s: seq<byte>)
    requires FitsWindow(l) && AtEnd(l)
    ensures var r := WriteLog(l, s);
            r.text == l.text + Printed(s) && FitsWindow(r) && AtEnd(r)
    decreases |s|
  {
    if s != [] {
      PutAtEnd(l, s[0]);
      ScreenIsLastRows(PutLog(l, s[0]), s[1..]);
      PrintedFirst(l.text, s);
    }
  }

  lemma {:induction false} PrintedFirst(t: seq<byte>, s: seq<byte>)
    requires s != []
    ensures t + PrintedOne(s[0]) + Printed(s[1..]) == t + Printed(s)
  {
  }

  lemma {:induction false} WriteText(l: Log, s: seq<byte>)
    ensures WriteLog(l, s).text == l.text + Printed(s)
    decreases |s|
  {
    if s == [] {
      assert l.text + [] == l.text;
    } else {
      WriteText(PutLog(l, s[0]), s[1..]);
      PrintedFirst(l.text, s);
      assert l.text + [] == l.text;
    }
  }

  // Cell by cell: row y of the screen is row top + y of the layout, padded
  // with blanks.
  lemma {:induction false} ScreenCell(l: Log, y: nat, x: nat)
    requires y < NUM_ROWS && x < NUM_COLS
    ensures NUM_COLS * y + x < CELLS
    ensures var rows := Rows(l.text);
            Screen(l)[NUM_COLS * y + x] ==
              Cell(if l.top + y < |rows| && x < |rows[l.top + y]| then rows[l.top + y][x] else SPACE, ATTRIB)
  {
  }

  // Writing a character into the cursor's cell is printing it, when the
  // screen does not scroll.
  lemma {:induction false} PutOnScreen(t: seq<byte>, top: nat, c: byte)
    requires c != NL && FitsWindow(Log(t, top))
    ensures Window(t + [c], top) == Window(t, top)[Position(Log(t, top)) := Cell(c, ATTRIB)]
  {
    forall i | 0 <= i < CELLS
      ensures Window(t + [c], top)[i] == Window(t, top)[Position(Log(t, top)) := Cell(c, ATTRIB)][i]
    {
      PrintChar(t, c, NUM_COLS * top + i);
    }
  }

  lemma {:induction false} NewlineOnScreen(t: seq<byte>, top: nat)
    ensures Window(t + [NL], top) == Window(t, top)
  {
    forall i | 0 <= i < CELLS
      ensures Window(t + [NL], top)[i] == Window(t, top)[i]
    {
      PrintNewline(t, NUM_COLS * top + i);
    }
  }

  // Scrolling moves the window down one row, when nothing has been printed
  // on the row that comes into view.
  lemma {:induction false} ScrollWindow(t: seq<byte>, top: nat)
    requires End(Rows(t)) <= NUM_COLS * (top + NUM_ROWS)
    ensures Window(t, top + 1) == Window(t, top)[NUM_COLS..] + seq(NUM_COLS, _ => BLANK)
  {
  }

  // Taking the last character back blanks its cell; the window stays.
  lemma {:induction false} UnprintOnScreen(t: seq<byte>, c: byte, top: nat)
    requires c != NL && FitsWindow(Log(t, top))
    ensures Window(t, top) == Window(t + [c], top)[Position(Log(t, top)) := BLANK]
  {
    var p := Position(Log(t, top));
    PutOnScreen(t, top, c);
    BlankPastEnd(t, NUM_COLS * top + p);
  }

  function Scrolled(cells: seq<Cell>): seq<Cell>
    requires |cells| == CELLS
  {
    cells[NUM_COLS..] + seq(NUM_COLS, _ => BLANK)
  }

  // Where the cursor goes when a byte is printed at p: one cell on, or to the
  // next row; off the last row, back to the start of it.
  function NextPosition(p: nat, c: byte): nat {
    var q := if c == NL then (p / NUM_COLS + 1) * NUM_COLS else p + 1;
    if q < CELLS then q else CELLS - NUM_COLS
  }

  function PutCells(cells: seq<Cell>, p: nat, c: byte): seq<Cell>
    requires |cells| == CELLS && p < CELLS
  {
    var q := if c == NL then (p / NUM_COLS + 1) * NUM_COLS else p + 1;
    var written := if c == NL then cells else cells[p := Cell(c, ATTRIB)];
    if q < CELLS then written else Scrolled(written)
  }

  // Printing a byte, as the screen sees it.
  lemma {:induction false} PutEffect(l: Log, c: byte)
    requires FitsWindow(l) && !Dropped(c)
    ensures FitsWindow(PutLog(l, c))
    ensures Position(PutLog(l, c)) == NextPosition(Position(l), c)
    ensures Screen(PutLog(l, c)) == PutCells(Screen(l), Position(l), c)
  {
    PutFits(l, c);
    var t := l.text + [c];
    LastRowShort(l.text);
    if c == NL {
      PrintNewline(l.text, 0);
      NewlineOnScreen(l.text, l.top);
    } else {
      PrintChar(l.text, c, 0);
      PutOnScreen(l.text, l.top, c);
    }
    PutScrolls(l, t, c);
  }

  lemma {:induction false} PutScrolls(l: Log, t: seq<byte>, c: byte)
    requires FitsWindow(l) && !Dropped(c) && t == l.text + [c] && FitsWindow(PutLog(l, c))
    requires |Rows(l.text)[|Rows(l.text)| - 1]| < NUM_COLS
    requires if c == NL then End(Rows(t)) == NUM_COLS * |Rows(l.text)| && |Rows(t)| == |Rows(l.text)| + 1
             else End(Rows(t)) == End(Rows(l.text)) + 1 &&
                  |Rows(t)| == (if |Rows(l.text)[|Rows(l.text)| - 1]| + 1 == NUM_COLS then |Rows(l.text)| + 1 else |Rows(l.text)|)
    requires Window(t, l.top) == if c == NL then Screen(l) else Screen(l)[Position(l) := Cell(c, ATTRIB)]
    ensures Position(PutLog(l, c)) == NextPosition(Position(l), c)
    ensures Screen(PutLog(l, c)) == PutCells(Screen(l), Position(l), c)
  {
    hide Pieces, Window, PutCells, NextPosition, CharAt;
    var n, last := |Rows(l.text)|, |Rows(l.text)[|Rows(l.text)| - 1]|;
    var p := Position(l);
    CursorArithmetic(n, last, l.top, c, |Rows(t)|, End(Rows(t)));
    var q := if c == NL then (p / NUM_COLS + 1) * NUM_COLS else p + 1;
    assert PutLog(l, c) == Log(t, if q < CELLS then l.top else l.top + 1);
    PutDraws(Window(t, l.top), Screen(l), p, c, t, l.top);
  }

  lemma {:induction false} PutDraws(written: seq<Cell>, cells: seq<Cell>, p: nat, c: byte, t: seq<byte>, top: nat)
    requires |cells| == CELLS && p < CELLS && written == Window(t, top)
    requires written == if c == NL then cells else cells[p := Cell(c, ATTRIB)]
    requires var q := if c == NL then (p / NUM_COLS + 1) * NUM_COLS else p + 1;
             q >= CELLS ==> End(Rows(t)) <= NUM_COLS * (top + NUM_ROWS)
    ensures var q := if c == NL then (p / NUM_COLS + 1) * NUM_COLS else p + 1;
            Window(t, if q < CELLS then top else top + 1) == PutCells(cells, p, c)
  {
    var q := if c == NL then (p / NUM_COLS + 1) * NUM_COLS else p + 1;
    if q >= CELLS {
      ScrollWindow(t, top);
    }
  }

  // n rows, the last of length `last`, become m rows that end at e.
  lemma {:induction false} CursorArithmetic(n: nat, last: nat, top: nat, c: byte, m: nat, e: nat)
    requires top < n <= top + NUM_ROWS && last < NUM_COLS
    requires if c == NL then e == NUM_COLS * n && m == n + 1
             else e == NUM_COLS * (n - 1) + last + 1 && m == (if last + 1 == NUM_COLS then n + 1 else n)
    ensures var p, top' := NUM_COLS * (n - 1) + last - NUM_COLS * top, Max(top, m - NUM_ROWS);
            var q := if c == NL then (p / NUM_COLS + 1) * NUM_COLS else p + 1;
            && 0 <= p < CELLS && e - NUM_COLS * top' == NextPosition(p, c)
            && (if q < CELLS then top' == top else top' == top + 1 && e <= NUM_COLS * (top + NUM_ROWS))
  {
  }
}
