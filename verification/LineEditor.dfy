// The keyboard's line editor: a bounded buffer and its echo on the displayed
// screen.
module LineEditor {
  import opened Text
  import opened Limits
  import opened Layout
  import opened Screens
  import opened Independence

  // Buffers keep room for the newline.
  const LINE_LIMIT := 127

  function Line(v: View, t: nat): seq<byte>
    requires Arranged(v) && t < TERM_MAX
  {
    v.terms[t].kbBuf[..v.terms[t].kbPos]
  }

  function Buffer(v: View, t: nat, c: byte): View
    requires Arranged(v) && t < TERM_MAX && v.terms[t].kbPos < KB_BUF_SIZE
  {
    var m := v.terms[t];
    v.(terms := v.terms[t := m.(kbBuf := m.kbBuf[m.kbPos := c], kbPos := m.kbPos + 1)])
  }

  function KeyChar(v: View, c: byte): (r: View)
    requires Arranged(v)
    ensures Arranged(r) && r.display == v.display
  {
    if v.terms[v.display].kbPos >= LINE_LIMIT then v else Put(Buffer(v, v.display, c), v.display, c)
  }

  function KeySpaces(v: View, n: nat): (r: View)
    requires Arranged(v)
    ensures Arranged(r) && r.display == v.display
    decreases n
  {
    if n == 0 then v else KeySpaces(KeyChar(v, SPACE), n - 1)
  }

  // Blanks up to the next multiple of the tab stop.
  function TabWidth(col: int): nat {
    TAB_STOP - col % TAB_STOP
  }

  function KeyTab(v: View): (r: View)
    requires Arranged(v)
    ensures Arranged(r) && r.display == v.display
  {
    KeySpaces(v, TabWidth(v.terms[v.display].curX))
  }

  // Refused on an empty line, and in the top left corner.
  function KeyBackspace(v: View): (r: View)
    requires Arranged(v)
    ensures Arranged(r) && r.display == v.display
  {
    var d := v.display;
    var m := v.terms[d];
    if m.kbPos == 0 || CursorOf(m) == 0 then v
    else
      var p := CursorOf(m) - 1;
      MoveTo(Draw(v.(terms := v.terms[d := m.(kbPos := m.kbPos - 1)]), d, CellsOf(v, d)[p := BLANK]), d, p)
  }

  // Print the displayed terminal's line on terminal t.
  function ShowBuf(v: View, t: nat): (r: View)
    requires Arranged(v) && t < TERM_MAX
    ensures Arranged(r)
  {
    Write(v, t, Line(v, v.display))
  }

  function Redraw(v: View): (r: View)
    requires Arranged(v)
    ensures Arranged(r)
  {
    ShowBuf(Clear(v, v.display), v.display)
  }

  // A waiting reader gets the line; otherwise it is thrown away.
  function KeyEnter(v: View): (r: View)
    requires Arranged(v) && v.terms[v.display].kbPos < KB_BUF_SIZE
    ensures Arranged(r) && r.display == v.display
  {
    var d := v.display;
    var w := Put(Buffer(v, d, NL), d, NL);
    if w.waiting[d] then w.(waiting := w.waiting[d := false])
    else w.(terms := w.terms[d := w.terms[d].(kbPos := 0)])
  }

  function ReadBegin(v: View, t: nat): (r: View)
    requires Arranged(v) && t < TERM_MAX
    ensures Arranged(r)
  {
    var w := v.(waiting := v.waiting[t := true]);
    if v.terms[t].kbPos != 0 then ShowBuf(w, t) else w
  }

  // What a reader with room for n bytes gets, and the buffer it leaves.
  function ReadBytes(v: View, t: nat, n: nat): seq<byte>
    requires Arranged(v) && t < TERM_MAX
  {
    Line(v, t)[..Min(n, |Line(v, t)|)]
  }

  function ReadEnd(v: View, t: nat, n: nat): (r: View)
    requires Arranged(v) && t < TERM_MAX
    ensures Arranged(r)
  {
    if n >= v.terms[t].kbPos then v.(terms := v.terms[t := v.terms[t].(kbPos := 0)]) else v
  }

  datatype Key = Char(c: byte) | Tab | Backspace | CtrlL

  function Press(v: View, k: Key): (r: View)
    requires Arranged(v)
    ensures Arranged(r)
  {
    match k
    case Char(c) => KeyChar(v, c)
    case Tab => KeyTab(v)
    case Backspace => KeyBackspace(v)
    case CtrlL => Redraw(v)
  }

  // The editor the user has in mind: the text before the line, the line, the
  // cursor's column, and how many rows of the layout have scrolled off.
  datatype Editor = Editor(prompt: seq<byte>, line: seq<byte>, col: nat, top: nat)

  // Columns go round at the edges of the screen.
  function NextColumn(col: nat): nat {
    if col + 1 == NUM_COLS then 0 else col + 1
  }

  function PreviousColumn(col: nat): nat {
    if col == 0 then NUM_COLS - 1 else col - 1
  }

  function LogOf(e: Editor): Log {
    Log(e.prompt + e.line, e.top)
  }

  function Typed(e: Editor, c: byte): Editor {
    if |e.line| >= LINE_LIMIT then e
    else
      var line := e.line + [c];
      e.(line := line, col := NextColumn(e.col), top := Max(e.top, |Rows(e.prompt + line)| - NUM_ROWS))
  }

  function Spaced(e: Editor, n: nat): Editor
    decreases n
  {
    if n == 0 then e else Spaced(Typed(e, SPACE), n - 1)
  }

  function Erased(e: Editor): Editor {
    if e.line == [] then e else e.(line := e.line[..|e.line| - 1], col := PreviousColumn(e.col))
  }

  // After the screen is cleared the line stands alone on it.
  function Redrawn(e: Editor): Editor {
    Editor([], e.line, |e.line| % NUM_COLS, Max(0, |Rows(e.line)| - NUM_ROWS))
  }

  function Edit(e: Editor, k: Key): Editor {
    match k
    case Char(c) => Typed(e, c)
    case Tab => Spaced(e, TabWidth(e.col))
    case Backspace => Erased(e)
    case CtrlL => Redrawn(e)
  }

  function EditAll(e: Editor, ks: seq<Key>): Editor
    decreases |ks|
  {
    if ks == [] then e else EditAll(Edit(e, ks[0]), ks[1..])
  }

  // Bytes the keyboard tables can produce.
  predicate Plain(s: seq<byte>) {
    forall i :: 0 <= i < |s| ==> !Dropped(s[i]) && s[i] != NL
  }

  predicate EndsWith(t: seq<byte>, s: seq<byte>) {
    |s| <= |t| && t[|t| - |s|..] == s
  }

  // Terminal t is being typed on: its screen shows the log l, which ends with
  // the line, all of which is still on the screen.
  predicate Editing(v: View, t: nat, l: Log, line: seq<byte>) {
    && Arranged(v) && t < TERM_MAX && Shows(Alone(v, t), l)
    && Line(v, t) == line && Plain(line) && |line| <= LINE_LIMIT
    && EndsWith(l.text, line) && Position(l) >= |line|
  }

  // The terminal is where the editor is, to the cell.
  predicate Edits(v: View, t: nat, e: Editor) {
    Editing(v, t, LogOf(e), e.line) && v.terms[t].curX == e.col
  }

  // Any terminal with an empty buffer is ready, whatever it shows.
  lemma {:induction false} ReadyToEdit(v: View, t: nat, l: Log)
    requires Arranged(v) && t < TERM_MAX && Shows(Alone(v, t), l) && v.terms[t].kbPos == 0
    ensures Edits(v, t, Editor(l.text, [], v.terms[t].curX, l.top))
  {
    assert l.text + [] == l.text;
  }

  lemma {:induction false} PutKeepsBuffers(v: View, t: nat, c: byte, u: nat)
    requires Arranged(v) && t < TERM_MAX && u < TERM_MAX
    ensures var r := Put(v, t, c);
            r.display == v.display && r.waiting == v.waiting && Line(r, u) == Line(v, u) && r.terms[u].kbPos == v.terms[u].kbPos
  {
  }

  lemma {:induction false} WriteShows(v: View, t: nat, l: Log, s: seq<byte>)
    requires Arranged(v) && t < TERM_MAX && Shows(Alone(v, t), l)
    ensures var r := Write(v, t, s);
            && Shows(Alone(r, t), WriteLog(l, s)) && r.display == v.display && r.waiting == v.waiting
            && Line(r, t) == Line(v, t) && r.terms[t].kbPos == v.terms[t].kbPos
    decreases |s|
  {
    if s != [] {
      PutIsLocal(v, t, s[0], t);
      LoneShows(Alone(v, t), l, t, PutOp(t, s[0]));
      PutKeepsBuffers(v, t, s[0], t);
      WriteShows(Put(v, t, s[0]), t, PutLog(l, s[0]), s[1..]);
    }
  }

  // Plain bytes are all printed, and stay on the screen while they fit it.
  lemma {:induction false} PlainStaysVisible(l: Log, s: seq<byte>, k: nat)
    requires FitsWindow(l) && Plain(s) && Position(l) >= k && k + |s| <= CELLS - NUM_COLS
    ensures var r := WriteLog(l, s);
            FitsWindow(r) && r.text == l.text + s && Position(r) >= k + |s|
    decreases |s|
  {
    if s == [] {
      assert l.text + s == l.text;
    } else {
      PutEffect(l, s[0]);
      PlainStaysVisible(PutLog(l, s[0]), s[1..], k + 1);
      assert l.text + [s[0]] + s[1..] == l.text + s;
    }
  }

  // The column is the cursor's, whatever the screen does.
  lemma {:induction false} ColumnIs(v: View, t: nat, l: Log)
    requires Arranged(v) && t < TERM_MAX && Shows(Alone(v, t), l)
    ensures v.terms[t].curX == Position(l) % NUM_COLS && CursorOf(v.terms[t]) == Position(l)
  {
    assert Alone(v, t).position == Position(l);
  }

  lemma {:induction false} ColumnAdvances(x: nat, y: nat, c: byte)
    requires x < NUM_COLS && y < NUM_ROWS && c != NL
    ensures NextPosition(NUM_COLS * y + x, c) % NUM_COLS == NextColumn(x)
  {
  }

  lemma {:induction false} CharShows(v: View, l: Log, line: seq<byte>, c: byte)
    requires Editing(v, v.display, l, line) && |line| < LINE_LIMIT && Plain([c])
    ensures Editing(KeyChar(v, c), v.display, PutLog(l, c), line + [c])
  {
    var d := v.display;
    assert !Dropped([c][0]) && [c][0] == c;
    var w := Buffer(v, d, c);
    assert Alone(w, d) == Alone(v, d) && Line(w, d) == line + [c];
    PutIsLocal(w, d, c, d);
    LoneShows(Alone(w, d), l, d, PutOp(d, c));
    PutKeepsBuffers(w, d, c, d);
    PutEffect(l, c);
    EndsWithMore(l.text, line, c);
  }

  lemma {:induction false} LineIsBuffered(v: View, t: nat, l: Log, line: seq<byte>)
    requires Editing(v, t, l, line)
    ensures Arranged(v) && v.terms[t].kbPos == |line| && FitsWindow(l) && v.terms[t].curX == Position(l) % NUM_COLS
  {
    ColumnIs(v, t, l);
  }

  lemma {:induction false} TypedLog(e: Editor, c: byte)
    requires |e.line| < LINE_LIMIT && !Dropped(c)
    ensures LogOf(Typed(e, c)) == PutLog(LogOf(e), c)
    ensures Typed(e, c).line == e.line + [c] && Typed(e, c).col == NextColumn(e.col)
  {
    assert LogOf(e).text + [c] == e.prompt + (e.line + [c]);
  }

  lemma {:induction false} CharEdits(v: View, e: Editor, c: byte)
    requires Edits(v, v.display, e) && Plain([c])
    ensures Edits(KeyChar(v, c), v.display, Typed(e, c))
  {
    LineIsBuffered(v, v.display, LogOf(e), e.line);
    if |e.line| < LINE_LIMIT {
      CharAccepted(v, e, c);
    } else {
      assert KeyChar(v, c) == v && Typed(e, c) == e;
      hide KeyChar, Typed, Editing;
    }
  }

  lemma {:induction false} CharColumn(v: View, c: byte)
    requires Arranged(v) && v.terms[v.display].kbPos < LINE_LIMIT && !Dropped(c) && c != NL
    ensures KeyChar(v, c).terms[v.display].curX == NextColumn(v.terms[v.display].curX)
  {
    hide RawPut, CellsOf, NextPosition;
    ColumnAdvances(v.terms[v.display].curX, v.terms[v.display].curY, c);
  }

  lemma {:induction false} PlainByte(c: byte)
    requires Plain([c])
    ensures !Dropped(c) && c != NL
  {
    assert !Dropped([c][0]) && [c][0] == c != NL;
  }

  lemma {:induction false} CharAccepted(v: View, e: Editor, c: byte)
    requires Edits(v, v.display, e) && Plain([c]) && |e.line| < LINE_LIMIT
    ensures Edits(KeyChar(v, c), v.display, Typed(e, c))
  {
    PlainByte(c);
    hide Editing, PutLog, Typed, LogOf, KeyChar, Arranged;
    LineIsBuffered(v, v.display, LogOf(e), e.line);
    CharShows(v, LogOf(e), e.line, c);
    CharColumn(v, c);
    TypedLog(e, c);
  }

  lemma {:induction false} EndsWithMore(t: seq<byte>, s: seq<byte>, c: byte)
    requires EndsWith(t, s)
    ensures EndsWith(t + [c], s + [c])
  {
  }

  lemma {:induction false} SpacesEdit(v: View, e: Editor, n: nat)
    requires Edits(v, v.display, e)
    ensures Edits(KeySpaces(v, n), v.display, Spaced(e, n))
    decreases n
  {
    if n > 0 {
      CharEdits(v, e, SPACE);
      hide KeyChar, Edits, Typed;
      SpacesEdit(KeyChar(v, SPACE), Typed(e, SPACE), n - 1);
    }
  }

  // Backspace undoes the last character on the screen too, across the end of
  // a row; the refusal in the corner loses nothing, for there the line is
  // empty.
  lemma {:induction false} BackspaceEdits(v: View, e: Editor)
    requires Edits(v, v.display, e)
    ensures Edits(KeyBackspace(v), v.display, Erased(e))
  {
    if e.line != [] {
      var d, l := v.display, LogOf(e);
      UnprintLog(l, e.line);
      var m := LogOf(Erased(e));
      assert m.text == l.text[..|l.text| - 1];
      ColumnIs(v, d, l);
      ErasedShows(v, l, m);
      ColumnRetreats(v);
    }
  }

  lemma {:induction false} ErasedShows(v: View, l: Log, m: Log)
    requires Arranged(v) && Shows(Alone(v, v.display), l) && v.terms[v.display].kbPos > 0
    requires FitsWindow(m) && Position(m) == Position(l) - 1 && Screen(m) == Screen(l)[Position(m) := BLANK]
    ensures var r, d := KeyBackspace(v), v.display;
            && Shows(Alone(r, d), m)
            && Line(r, d) == Line(v, d)[..|Line(v, d)| - 1]
  {
    ColumnIs(v, v.display, l);
  }

  lemma {:induction false} ColumnRetreats(v: View)
    requires Arranged(v) && v.terms[v.display].kbPos > 0 && CursorOf(v.terms[v.display]) > 0
    ensures KeyBackspace(v).terms[v.display].curX == PreviousColumn(v.terms[v.display].curX)
  {
  }

  lemma {:induction false} FitsBefore(t: seq<byte>, c: byte, top: nat)
    requires c != NL && FitsWindow(Log(t + [c], top)) && Position(Log(t + [c], top)) > 0
    ensures FitsWindow(Log(t, top)) && Position(Log(t, top)) == Position(Log(t + [c], top)) - 1
  {
    PrintChar(t, c, 0);
    LastRowShort(t);
  }

  lemma {:induction false} UnprintLog(l: Log, line: seq<byte>)
    requires FitsWindow(l) && line != [] && Plain(line) && EndsWith(l.text, line) && Position(l) >= |line|
    ensures var m := Log(l.text[..|l.text| - 1], l.top);
            && FitsWindow(m) && Position(m) == Position(l) - 1
            && Screen(m) == Screen(l)[Position(m) := BLANK]
            && EndsWith(m.text, line[..|line| - 1])
  {
    var n := |l.text| - 1;
    var t, c := l.text[..n], l.text[n];
    assert l.text == t + [c];
    assert c == line[|line| - 1];
    FitsBefore(t, c, l.top);
    UnprintOnScreen(t, c, l.top);
    assert EndsWith(t, line[..|line| - 1]);
  }

  // Text of which the terminal drops nothing.
  predicate NoneDropped(s: seq<byte>) {
    forall i :: 0 <= i < |s| ==> !Dropped(s[i])
  }

  lemma {:induction false} ShownIsPrinted(s: seq<byte>)
    requires NoneDropped(s)
    ensures Printed(s) == s
  {
    if s != [] {
      assert NoneDropped(s[1..]) by {
        assert forall i :: 0 <= i < |s| - 1 ==> s[1..][i] == s[i + 1];
      }
      ShownIsPrinted(s[1..]);
    }
  }

  lemma {:induction false} RedrawEdits(v: View, e: Editor)
    requires Edits(v, v.display, e)
    ensures Redraw(v).display == v.display && Edits(Redraw(v), v.display, Redrawn(e))
  {
    hide Editing, Rows, Position, Printed, WriteLog, Redraw;
    var line := e.line;
    assert LogOf(Redrawn(e)).text == line;
    LineIsPlain(v, LogOf(e), line);
    LineIsBuffered(v, v.display, LogOf(e), line);
    ShownIsPrinted(line);
    LogOfAll(line);
    RedrawShows(v, LogOf(e), line);
    LineIsBuffered(Redraw(v), v.display, LogOf(Redrawn(e)), line);
    OneRowColumn(line, LogOf(Redrawn(e)).top);
  }

  lemma {:induction false} LineIsPlain(v: View, l: Log, line: seq<byte>)
    requires Editing(v, v.display, l, line)
    ensures Plain(line) && OneLine(line) && NoneDropped(line)
  {
  }

  lemma {:induction false} RedrawShows(v: View, l: Log, line: seq<byte>)
    requires Editing(v, v.display, l, line)
    ensures Redraw(v).display == v.display && Editing(Redraw(v), v.display, WriteLog(CLEARED, line), line)
  {
    var d := v.display;
    ClearedShows(v, d);
    WriteShows(Clear(v, d), d, CLEARED, line);
    ClearedFits();
    PlainStaysVisible(CLEARED, line, 0);
  }

  lemma {:induction false} OneRowColumn(t: seq<byte>, top: nat)
    requires OneLine(t) && FitsWindow(Log(t, top))
    ensures Position(Log(t, top)) % NUM_COLS == |t| % NUM_COLS
  {
    OneLineLayout(t);
  }

  predicate PlainKey(k: Key) {
    k.Char? ==> Plain([k.c])
  }

  // Every key does to buffer, screen and cursor what the editor does.
  lemma {:induction false} PressEdits(v: View, e: Editor, k: Key)
    requires Edits(v, v.display, e) && PlainKey(k)
    ensures Press(v, k).display == v.display && Edits(Press(v, k), v.display, Edit(e, k))
  {
    match k {
      case Char(c) => CharEdits(v, e, c);
      case Tab => SpacesEdit(v, e, TabWidth(e.col));
      case Backspace => BackspaceEdits(v, e);
      case CtrlL => RedrawEdits(v, e);
    }
  }

  function PressAll(v: View, ks: seq<Key>): (r: View)
    requires Arranged(v)
    ensures Arranged(r)
    decreases |ks|
  {
    if ks == [] then v else PressAll(Press(v, ks[0]), ks[1..])
  }

  // So does every run of keys.
  lemma {:induction false} TypingRefinesEditor(v: View, e: Editor, ks: seq<Key>)
    requires Edits(v, v.display, e) && forall i :: 0 <= i < |ks| ==> PlainKey(ks[i])
    ensures PressAll(v, ks).display == v.display && Edits(PressAll(v, ks), v.display, EditAll(e, ks))
    decreases |ks|
  {
    if ks != [] {
      PressEdits(v, e, ks[0]);
      hide Press, Edits, Edit;
      TypingRefinesEditor(Press(v, ks[0]), Edit(e, ks[0]), ks[1..]);
    }
  }

  // From any screen and an empty buffer on.
  lemma {:induction false} TypingFromScratch(v: View, l: Log, ks: seq<Key>)
    requires Arranged(v) && Shows(Alone(v, v.display), l) && v.terms[v.display].kbPos == 0
    requires forall i :: 0 <= i < |ks| ==> PlainKey(ks[i])
    ensures Edits(PressAll(v, ks), v.display, EditAll(Editor(l.text, [], v.terms[v.display].curX, l.top), ks))
  {
    ReadyToEdit(v, v.display, l);
    TypingRefinesEditor(v, Editor(l.text, [], v.terms[v.display].curX, l.top), ks);
  }

  // The line stands in the cells just before the cursor, across row ends and
  // scrolling.
  lemma {:induction false} LineStandsBeforeCursor(v: View, t: nat, l: Log, line: seq<byte>, k: nat)
    requires Editing(v, t, l, line) && k < |line|
    ensures var p := CursorOf(v.terms[t]) - |line| + k;
            0 <= p < CELLS && CellsOf(v, t)[p] == Cell(line[k], ATTRIB)
  {
    var pre := l.text[..|l.text| - |line|];
    assert l.text == pre + line;
    TextBeforeEnd(pre, line, k);
    assert Alone(v, t).cells == Screen(l) && Alone(v, t).position == Position(l);
  }

  lemma {:induction false} TextBeforeEnd(pre: seq<byte>, line: seq<byte>, k: nat)
    requires Plain(line) && k < |line|
    ensures End(Rows(pre + line)) >= |line|
    ensures CharAt(Rows(pre + line), End(Rows(pre + line)) - |line| + k) == line[k]
    decreases |line|
  {
    var n := |line| - 1;
    var init, c := line[..n], line[n];
    assert pre + line == pre + init + [c];
    if n > 0 {
      TextBeforeEnd(pre, init, if k < n then k else 0);
    }
    PrintChar(pre + init, c, End(Rows(pre + init)) - n + k);
  }

  // Blank cells follow the cursor.
  lemma {:induction false} BlanksFollowCursor(v: View, t: nat, l: Log, line: seq<byte>, p: nat)
    requires Editing(v, t, l, line) && CursorOf(v.terms[t]) <= p < CELLS
    ensures CellsOf(v, t)[p] == BLANK
  {
  }

  // What happens on the other terminals, and switching, does not disturb a
  // line being typed.
  lemma {:induction false} OthersLeaveLineAlone(v: View, t: nat, l: Log, line: seq<byte>, op: Operation)
    requires Editing(v, t, l, line) && (op.ShowOp? || (op.term < TERM_MAX && op.term != t))
    ensures Editing(Do(v, op), t, l, line)
  {
    match op {
      case PutOp(u, c) =>
        PutIsLocal(v, u, c, t);
        PutKeepsBuffers(v, u, c, t);
      case ClearOp(u) => ClearIsLocal(v, u, t);
      case ShowOp(u) => ShowIsInvisible(v, u, t);
    }
  }

  // Enter hands a waiting reader the line as edited with its newline, at most
  // 128 bytes in all; a reader with room for them drains the buffer and the
  // next line starts empty.  Without a reader the line is dropped.
  lemma {:induction false} EnterDelivers(v: View, l: Log, line: seq<byte>, n: nat)
    requires Editing(v, v.display, l, line) && n >= KB_BUF_SIZE
    ensures var d, w := v.display, KeyEnter(v);
            && w.display == d && !w.waiting[d]
            && if v.waiting[d] then
                 && ReadBytes(w, d, n) == line + [NL] && |ReadBytes(w, d, n)| <= KB_BUF_SIZE
                 && Editing(ReadEnd(w, d, n), d, PutLog(l, NL), [])
               else Editing(w, d, PutLog(l, NL), [])
  {
    var d := v.display;
    var b := Buffer(v, d, NL);
    assert Line(b, d) == line + [NL] && Alone(b, d) == Alone(v, d);
    PutIsLocal(b, d, NL, d);
    LoneShows(Alone(b, d), l, d, PutOp(d, NL));
    PutKeepsBuffers(b, d, NL, d);
  }

  // A reader with room for the whole line empties the buffer; one with less
  // gets the first bytes, and the whole line stays for the next read.  Neither
  // touches a screen, another terminal's line, or who waits.
  lemma {:induction false} ReadTakesAllOrNothing(v: View, t: nat, n: nat, u: nat)
    requires Arranged(v) && t < TERM_MAX && u < TERM_MAX
    ensures ReadBytes(v, t, n) <= Line(v, t) && |ReadBytes(v, t, n)| == Min(n, |Line(v, t)|)
    ensures Line(ReadEnd(v, t, n), u) == if u == t && n >= |Line(v, t)| then [] else Line(v, u)
    ensures Alone(ReadEnd(v, t, n), u) == Alone(v, u) && ReadEnd(v, t, n).waiting == v.waiting
  {
  }

  // A tab ends on a tab stop, one to four blanks on, and stops short of it
  // only where the line has no more room.
  lemma {:induction false} TabReachesStop(e: Editor) returns (n: nat)
    requires e.col < NUM_COLS && |e.line| <= LINE_LIMIT
    ensures var r := Edit(e, Tab);
            && r.line == e.line + seq(n, _ => SPACE) && r.prompt == e.prompt
            && n <= 4 && r.col == (if e.col + n < NUM_COLS then e.col + n else e.col + n - NUM_COLS)
            && (|r.line| < LINE_LIMIT ==> 1 <= n && r.col % 4 == 0)
  {
    n := Min(TabWidth(e.col), LINE_LIMIT - |e.line|);
    SpacedBy(e, TabWidth(e.col), n);
  }

  lemma {:induction false} SpacedBy(e: Editor, w: nat, n: nat)
    requires e.col < NUM_COLS && |e.line| <= LINE_LIMIT && w <= TAB_STOP && n == Min(w, LINE_LIMIT - |e.line|)
    ensures var r := Spaced(e, w);
            && r.line == e.line + seq(n, _ => SPACE) && r.prompt == e.prompt
            && r.col == (if e.col + n < NUM_COLS then e.col + n else e.col + n - NUM_COLS)
    decreases w
  {
    if w > 0 {
      var m: nat := if n == 0 then 0 else n - 1;
      SpacedBy(Typed(e, SPACE), w - 1, m);
      if n > 0 {
        assert [SPACE] + seq(m, _ => SPACE) == seq(n, _ => SPACE);
      }
    } else {
      assert seq(0, _ => SPACE) == [];
    }
  }

  // A reader that comes after typing has begun shows the line behind its
  // prompt and can go on editing it.
  lemma {:induction false} ReaderShowsTypedLine(v: View, l: Log, line: seq<byte>) returns (m: Log)
    requires Editing(v, v.display, l, line)
    ensures var r := ReadBegin(v, v.display);
            r.display == v.display && r.waiting[v.display] && Editing(r, v.display, m, line) && m.text == l.text + line
  {
    var d := v.display;
    var w := v.(waiting := v.waiting[d := true]);
    assert Alone(w, d) == Alone(v, d);
    WriteShows(w, d, l, line);
    PlainStaysVisible(l, line, 0);
    m := WriteLog(l, line);
    assert line == [] ==> l.text + line == l.text;
  }

  // What a reader's terminal is shown when it starts to read.
  function Echo(v: View, t: nat): seq<byte>
    requires Arranged(v) && t < TERM_MAX
  {
    if Line(v, t) == [] then [] else Line(v, v.display)
  }

  // On any terminal that is what is printed; it is the reader's own line if
  // and only if nothing has been typed for it or the displayed terminal's
  // line is the same.
  lemma {:induction false} ReaderShowsOwnLineIff(v: View, t: nat, l: Log)
    requires Arranged(v) && t < TERM_MAX && Shows(Alone(v, t), l) && NoneDropped(Line(v, v.display))
    ensures Shows(Alone(ReadBegin(v, t), t), WriteLog(l, Echo(v, t)))
    ensures WriteLog(l, Echo(v, t)).text == l.text + Line(v, t) <==> Line(v, t) == [] || Line(v, t) == Line(v, v.display)
  {
    var w := v.(waiting := v.waiting[t := true]);
    assert Alone(w, t) == Alone(v, t);
    WriteShows(w, t, l, Echo(v, t));
    WriteText(l, Echo(v, t));
    ShownIsPrinted(Echo(v, t));
    SuffixesEqual(l.text, Echo(v, t), Line(v, t));
  }

  lemma {:induction false} SuffixesEqual(t: seq<byte>, a: seq<byte>, b: seq<byte>)
    ensures t + a == t + b <==> a == b
  {
    assert (t + a)[|t|..] == a && (t + b)[|t|..] == b;
  }
}
