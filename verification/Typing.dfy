// Typing among everything else: switching, output, and keys for the other
// terminals between the keys of one line.
module Typing {
  import opened Text
  import opened Limits
  import opened Layout
  import opened Screens
  import opened Independence
  import opened LineEditor

  // A key, an operation on a screen, Enter, or the start or end of a read.
  datatype Happening = Pressed(k: Key) | Happens(op: Operation) | Entered | Begun(term: nat) | Ended(term: nat, n: nat)

  predicate Possible(v: View, x: Happening)
    requires Arranged(v)
  {
    match x
    case Pressed(_) => true
    case Happens(op) => op.ShowOp? || op.term < TERM_MAX
    case Entered => v.terms[v.display].kbPos < KB_BUF_SIZE
    case Begun(u) => u < TERM_MAX
    case Ended(u, _) => u < TERM_MAX
  }

  // For terminal t only keys the tables produce: no Enter while it is
  // displayed, no output to it, and no read from it.
  predicate Harmless(v: View, x: Happening, t: nat)
    requires Arranged(v)
  {
    && Possible(v, x)
    && match x
       case Pressed(k) => v.display == t ==> PlainKey(k)
       case Happens(op) => op.ShowOp? || op.term != t
       case Entered => v.display != t
       case Begun(u) => u != t
       case Ended(u, _) => u != t
  }

  function Happen(v: View, x: Happening): (r: View)
    requires Arranged(v) && Possible(v, x)
    ensures Arranged(r)
  {
    match x
    case Pressed(k) => Press(v, k)
    case Happens(op) => Do(v, op)
    case Entered => KeyEnter(v)
    case Begun(u) => ReadBegin(v, u)
    case Ended(u, n) => ReadEnd(v, u, n)
  }

  predicate AllHarmless(v: View, xs: seq<Happening>, t: nat)
    requires Arranged(v)
    decreases |xs|
  {
    xs == [] || (Harmless(v, xs[0], t) && AllHarmless(Happen(v, xs[0]), xs[1..], t))
  }

  function HappenAll(v: View, xs: seq<Happening>, t: nat): (r: View)
    requires Arranged(v) && AllHarmless(v, xs, t)
    ensures Arranged(r)
    decreases |xs|
  {
    if xs == [] then v else HappenAll(Happen(v, xs[0]), xs[1..], t)
  }

  // The keys pressed while terminal t is displayed.
  function KeysFor(v: View, xs: seq<Happening>, t: nat): seq<Key>
    requires Arranged(v) && AllHarmless(v, xs, t)
    decreases |xs|
  {
    if xs == [] then []
    else (if xs[0].Pressed? && v.display == t then [xs[0].k] else []) + KeysFor(Happen(v, xs[0]), xs[1..], t)
  }

  // Nothing of terminal t differs between v and w.
  predicate SameTerminal(v: View, w: View, t: nat)
    requires Arranged(v) && Arranged(w) && t < TERM_MAX
  {
    && Alone(w, t) == Alone(v, t) && w.terms[t].kbPos == v.terms[t].kbPos && Line(w, t) == Line(v, t)
    && w.waiting[t] == v.waiting[t]
  }

  lemma {:induction false} WriteElsewhere(v: View, u: nat, s: seq<byte>, t: nat)
    requires Arranged(v) && u < TERM_MAX && t < TERM_MAX && u != t
    ensures SameTerminal(v, Write(v, u, s), t)
    decreases |s|
  {
    if s != [] {
      PutIsLocal(v, u, s[0], t);
      PutKeepsBuffers(v, u, s[0], t);
      hide Put;
      WriteElsewhere(Put(v, u, s[0]), u, s[1..], t);
    }
  }

  lemma {:induction false} CharElsewhere(v: View, c: byte, t: nat)
    requires Arranged(v) && t < TERM_MAX && v.display != t
    ensures SameTerminal(v, KeyChar(v, c), t)
  {
    var d := v.display;
    if v.terms[d].kbPos < LINE_LIMIT {
      var w := Buffer(v, d, c);
      assert SameTerminal(v, w, t);
      PutIsLocal(w, d, c, t);
      PutKeepsBuffers(w, d, c, t);
    }
  }

  lemma {:induction false} SpacesElsewhere(v: View, n: nat, t: nat)
    requires Arranged(v) && t < TERM_MAX && v.display != t
    ensures SameTerminal(v, KeySpaces(v, n), t)
    decreases n
  {
    if n > 0 {
      CharElsewhere(v, SPACE, t);
      hide KeyChar;
      SpacesElsewhere(KeyChar(v, SPACE), n - 1, t);
    }
  }

  lemma {:induction false} BackspaceElsewhere(v: View, t: nat)
    requires Arranged(v) && t < TERM_MAX && v.display != t
    ensures SameTerminal(v, KeyBackspace(v), t)
  {
  }

  lemma {:induction false} RedrawElsewhere(v: View, t: nat)
    requires Arranged(v) && t < TERM_MAX && v.display != t
    ensures SameTerminal(v, Redraw(v), t)
  {
    var d := v.display;
    ClearIsLocal(v, d, t);
    assert SameTerminal(v, Clear(v, d), t);
    WriteElsewhere(Clear(v, d), d, Line(Clear(v, d), Clear(v, d).display), t);
  }

  // A key goes to the displayed terminal only.
  lemma {:induction false} KeyElsewhere(v: View, k: Key, t: nat)
    requires Arranged(v) && t < TERM_MAX && v.display != t
    ensures SameTerminal(v, Press(v, k), t)
  {
    hide KeyChar, KeySpaces, KeyBackspace, Redraw, SameTerminal;
    match k {
      case Char(c) => CharElsewhere(v, c, t);
      case Tab => SpacesElsewhere(v, TabWidth(v.terms[v.display].curX), t);
      case Backspace => BackspaceElsewhere(v, t);
      case CtrlL => RedrawElsewhere(v, t);
    }
  }

  lemma {:induction false} EnterElsewhere(v: View, t: nat)
    requires Arranged(v) && t < TERM_MAX && v.display != t && v.terms[v.display].kbPos < KB_BUF_SIZE
    ensures SameTerminal(v, KeyEnter(v), t)
  {
    var d := v.display;
    var b := Buffer(v, d, NL);
    assert SameTerminal(v, b, t);
    PutIsLocal(b, d, NL, t);
    PutKeepsBuffers(b, d, NL, t);
    assert SameTerminal(b, Put(b, d, NL), t);
  }

  lemma {:induction false} BeginElsewhere(v: View, u: nat, t: nat)
    requires Arranged(v) && t < TERM_MAX && u < TERM_MAX && u != t
    ensures SameTerminal(v, ReadBegin(v, u), t)
  {
    var w := v.(waiting := v.waiting[u := true]);
    assert SameTerminal(v, w, t);
    WriteElsewhere(w, u, Line(w, w.display), t);
  }

  lemma {:induction false} EndElsewhere(v: View, u: nat, n: nat, t: nat)
    requires Arranged(v) && t < TERM_MAX && u < TERM_MAX && u != t
    ensures SameTerminal(v, ReadEnd(v, u, n), t)
  {
  }

  lemma {:induction false} OperationElsewhere(v: View, op: Operation, t: nat)
    requires Arranged(v) && t < TERM_MAX && (op.ShowOp? || (op.term < TERM_MAX && op.term != t))
    ensures SameTerminal(v, Do(v, op), t)
  {
    match op {
      case PutOp(u, c) =>
        PutIsLocal(v, u, c, t);
        PutKeepsBuffers(v, u, c, t);
      case ClearOp(u) => ClearIsLocal(v, u, t);
      case ShowOp(u) => ShowIsInvisible(v, u, t);
    }
  }

  // Whatever is not a key for terminal t leaves it alone, and its reader.
  lemma {:induction false} HappensElsewhere(v: View, x: Happening, t: nat)
    requires Arranged(v) && t < TERM_MAX && Harmless(v, x, t) && !(x.Pressed? && v.display == t)
    ensures SameTerminal(v, Happen(v, x), t)
  {
    hide Press, Do, KeyEnter, ReadBegin, ReadEnd, SameTerminal;
    match x {
      case Pressed(k) => KeyElsewhere(v, k, t);
      case Happens(op) => OperationElsewhere(v, op, t);
      case Entered => EnterElsewhere(v, t);
      case Begun(u) => BeginElsewhere(v, u, t);
      case Ended(u, n) => EndElsewhere(v, u, n, t);
    }
  }

  lemma {:induction false} SpacesKeepWaiting(v: View, n: nat)
    requires Arranged(v)
    ensures KeySpaces(v, n).waiting == v.waiting
    decreases n
  {
    if n > 0 {
      SpacesKeepWaiting(KeyChar(v, SPACE), n - 1);
    }
  }

  lemma {:induction false} WriteKeepsWaiting(v: View, t: nat, s: seq<byte>)
    requires Arranged(v) && t < TERM_MAX
    ensures Write(v, t, s).waiting == v.waiting
    decreases |s|
  {
    if s != [] {
      PutKeepsBuffers(v, t, s[0], t);
      hide Put;
      WriteKeepsWaiting(Put(v, t, s[0]), t, s[1..]);
    }
  }

  // No key but Enter ends a read.
  lemma {:induction false} KeyKeepsWaiting(v: View, k: Key)
    requires Arranged(v)
    ensures Press(v, k).waiting == v.waiting
  {
    match k {
      case Char(_) =>
      case Tab => SpacesKeepWaiting(v, TabWidth(v.terms[v.display].curX));
      case Backspace =>
      case CtrlL => WriteKeepsWaiting(Clear(v, v.display), v.display, Line(Clear(v, v.display), Clear(v, v.display).display));
    }
  }

  // So a reader on terminal t waits on, whatever terminal is displayed, until
  // Enter is pressed for it.
  lemma {:induction false} ReaderWaits(v: View, xs: seq<Happening>, t: nat)
    requires Arranged(v) && t < TERM_MAX && AllHarmless(v, xs, t)
    ensures HappenAll(v, xs, t).waiting[t] == v.waiting[t]
    decreases |xs|
  {
    if xs != [] {
      if xs[0].Pressed? && v.display == t {
        KeyKeepsWaiting(v, xs[0].k);
      } else {
        HappensElsewhere(v, xs[0], t);
      }
      hide Happen, Harmless;
      ReaderWaits(Happen(v, xs[0]), xs[1..], t);
    }
  }

  lemma {:induction false} EditsStay(v: View, w: View, t: nat, e: Editor)
    requires Edits(v, t, e) && Arranged(w) && SameTerminal(v, w, t)
    ensures Edits(w, t, e)
  {
    ColumnIs(v, t, LogOf(e));
    ColumnIs(w, t, LogOf(e));
  }

  lemma {:induction false} HappenEdits(v: View, t: nat, e: Editor, x: Happening)
    requires Edits(v, t, e) && Harmless(v, x, t)
    ensures Edits(Happen(v, x), t, if x.Pressed? && v.display == t then Edit(e, x.k) else e)
  {
    hide Press, Do, SameTerminal, Edit, KeyEnter, ReadBegin, ReadEnd;
    if x.Pressed? && v.display == t {
      PressEdits(v, e, x.k);
    } else {
      HappensElsewhere(v, x, t);
      EditsStay(v, Happen(v, x), t, e);
    }
  }

  // However keys, switching, and the output, lines and reads of the others
  // follow each other, the line of terminal t, its screen and its cursor are
  // what the editor makes of the keys pressed while it was displayed.
  lemma {:induction false} TypingAmongOthers(v: View, t: nat, e: Editor, xs: seq<Happening>)
    requires Edits(v, t, e) && AllHarmless(v, xs, t)
    ensures Edits(HappenAll(v, xs, t), t, EditAll(e, KeysFor(v, xs, t)))
    decreases |xs|
  {
    if xs != [] {
      HappenEdits(v, t, e, xs[0]);
      hide Happen, Edits, Edit;
      var e' := if xs[0].Pressed? && v.display == t then Edit(e, xs[0].k) else e;
      TypingAmongOthers(Happen(v, xs[0]), t, e', xs[1..]);
      KeysSplit(e, e', v, xs, t);
    }
  }

  lemma {:induction false} KeysSplit(e: Editor, e': Editor, v: View, xs: seq<Happening>, t: nat)
    requires Arranged(v) && xs != [] && AllHarmless(v, xs, t)
    requires e' == if xs[0].Pressed? && v.display == t then Edit(e, xs[0].k) else e
    ensures EditAll(e, KeysFor(v, xs, t)) == EditAll(e', KeysFor(Happen(v, xs[0]), xs[1..], t))
  {
    hide Happen, Edit;
    var more := KeysFor(Happen(v, xs[0]), xs[1..], t);
    if xs[0].Pressed? && v.display == t {
      assert ([xs[0].k] + more)[1..] == more;
    } else {
      assert [] + more == more;
    }
  }

  // A read begins on any terminal, displayed or not.  Where nothing had been
  // typed, or what it shows is the terminal's own line, editing goes on behind
  // what stands there now; and it is that terminal whose reader waits.
  lemma {:induction false} BeginEdits(v: View, t: nat, e: Editor) returns (e': Editor)
    requires Edits(v, t, e) && (e.line == [] || e.line == Line(v, v.display))
    ensures e'.line == e.line && e'.prompt == e.prompt + e.line
    ensures Edits(ReadBegin(v, t), t, e') && ReadBegin(v, t).waiting[t]
  {
    LineTyped(v, t, e);
    var w := v.(waiting := v.waiting[t := true]);
    assert Alone(w, t) == Alone(v, t);
    WriteShows(w, t, LogOf(e), e.line);
    EditingPlain(v, t, e);
    PlainStaysVisible(LogOf(e), e.line, 0);
    var m := WriteLog(LogOf(e), e.line);
    e' := Editor(e.prompt + e.line, e.line, Position(m) % NUM_COLS, m.top);
    if e.line == [] {
      assert e.prompt + [] == e.prompt;
    }
    ColumnIs(ReadBegin(v, t), t, m);
  }

  lemma {:induction false} EditingPlain(v: View, t: nat, e: Editor)
    requires Edits(v, t, e)
    ensures Plain(e.line) && |e.line| <= LINE_LIMIT && FitsWindow(LogOf(e)) && Position(LogOf(e)) >= |e.line|
  {
  }

  // The whole way of a line: a read begins on any terminal, then anything but
  // Enter for that terminal happens, anywhere; the first Enter for it ends the
  // read with the line as edited by the keys meant for it, and the newline.
  lemma {:induction false} ReaderGetsItsLine(v: View, t: nat, e: Editor, xs: seq<Happening>) returns (e': Editor)
    requires Edits(v, t, e) && (e.line == [] || e.line == Line(v, v.display))
    requires AllHarmless(ReadBegin(v, t), xs, t) && HappenAll(ReadBegin(v, t), xs, t).display == t
    ensures e'.line == e.line && e'.prompt == e.prompt + e.line && Edits(ReadBegin(v, t), t, e')
    ensures var u := HappenAll(ReadBegin(v, t), xs, t);
            && u.terms[t].kbPos < KB_BUF_SIZE && u.waiting[t] && !KeyEnter(u).waiting[t]
            && ReadBytes(KeyEnter(u), t, KB_BUF_SIZE) == EditAll(e', KeysFor(ReadBegin(v, t), xs, t)).line + [NL]
            && Line(ReadEnd(KeyEnter(u), t, KB_BUF_SIZE), t) == []
  {
    var w := ReadBegin(v, t);
    e' := BeginEdits(v, t, e);
    ReaderWaits(w, xs, t);
    TypingAmongOthers(w, t, e', xs);
    var g := EditAll(e', KeysFor(w, xs, t));
    hide HappenAll, EditAll, KeysFor, AllHarmless, ReadBegin;
    EnterAnswers(HappenAll(w, xs, t), g);
  }

  lemma {:induction false} EnterAnswers(u: View, e: Editor)
    requires Arranged(u) && Edits(u, u.display, e) && u.waiting[u.display]
    ensures u.terms[u.display].kbPos < KB_BUF_SIZE && !KeyEnter(u).waiting[u.display]
    ensures ReadBytes(KeyEnter(u), u.display, KB_BUF_SIZE) == e.line + [NL]
    ensures Line(ReadEnd(KeyEnter(u), u.display, KB_BUF_SIZE), u.display) == []
  {
    LineIsBuffered(u, u.display, LogOf(e), e.line);
    EnterDelivers(u, LogOf(e), e.line, KB_BUF_SIZE);
  }

  // On a terminal that shows another's line the reader waits just so, and
  // Enter hands it what its own buffer holds.
  lemma {:induction false} ReaderGetsItsBuffer(v: View, t: nat, xs: seq<Happening>)
    requires Arranged(v) && t < TERM_MAX && AllHarmless(ReadBegin(v, t), xs, t)
    requires var u := HappenAll(ReadBegin(v, t), xs, t); u.display == t && u.terms[t].kbPos < KB_BUF_SIZE
    ensures var u := HappenAll(ReadBegin(v, t), xs, t);
            && u.waiting[t] && !KeyEnter(u).waiting[t]
            && ReadBytes(KeyEnter(u), t, KB_BUF_SIZE) == Line(u, t) + [NL]
  {
    var w := ReadBegin(v, t);
    WriteKeepsWaiting(v.(waiting := v.waiting[t := true]), t, Line(v, v.display));
    ReaderWaits(w, xs, t);
    hide HappenAll, AllHarmless, ReadBegin;
    EnterDeliversBuffer(HappenAll(w, xs, t));
  }

  lemma {:induction false} EnterDeliversBuffer(u: View)
    requires Arranged(u) && u.waiting[u.display] && u.terms[u.display].kbPos < KB_BUF_SIZE
    ensures !KeyEnter(u).waiting[u.display]
    ensures ReadBytes(KeyEnter(u), u.display, KB_BUF_SIZE) == Line(u, u.display) + [NL]
  {
    var d := u.display;
    PutKeepsBuffers(Buffer(u, d, NL), d, NL, d);
    assert Line(Buffer(u, d, NL), d) == Line(u, d) + [NL];
    hide Put;
  }

  const LETTER_A: byte := 0x61
  const LETTER_B: byte := 0x62

  // "a" is typed for terminal 0, then terminal 1 is displayed and "b" typed.
  function TypedOnTwo(v: View): (r: View)
    requires Arranged(v)
    ensures Arranged(r)
  {
    Press(Show(Press(v, Char(LETTER_A)), 1), Char(LETTER_B))
  }

  // A line typed from the top left corner on.
  function EditorOf(line: seq<byte>): Editor {
    Editor([], line, |line|, 0)
  }

  lemma {:induction false} OneLetter(c: byte)
    requires c == LETTER_A || c == LETTER_B
    ensures PlainKey(Char(c)) && Edit(EditorOf([]), Char(c)) == EditorOf([c])
  {
    OneLineLayout([c]);
    assert [] + [c] == [c];
  }

  lemma {:induction false} BlankTerminal(v: View, t: nat)
    requires Arranged(v) && t < TERM_MAX && v.terms[t].kbPos == 0 && Shows(Alone(v, t), CLEARED)
    ensures Edits(v, t, EditorOf([]))
  {
    ReadyToEdit(v, t, CLEARED);
    ColumnIs(v, t, CLEARED);
    ClearedFits();
  }

  lemma {:induction false} LineTyped(v: View, t: nat, e: Editor)
    requires Edits(v, t, e)
    ensures Arranged(v) && t < TERM_MAX && Line(v, t) == e.line && Shows(Alone(v, t), LogOf(e))
  {
  }

  lemma {:induction false} LinesOnTwo(v: View)
    requires Arranged(v) && v.display == 0
    requires Edits(v, 0, EditorOf([])) && Edits(v, 1, EditorOf([]))
    ensures var w := TypedOnTwo(v);
            w.display == 1 && Edits(w, 0, EditorOf([LETTER_A])) && Edits(w, 1, EditorOf([LETTER_B]))
  {
    var u := Press(v, Char(LETTER_A));
    var x := Show(u, 1);
    assert u.display == 0 && x.display == 1;
    OneLetter(LETTER_A);
    OneLetter(LETTER_B);
    hide Edit, Edits, Press, Show;
    HappenEdits(v, 0, EditorOf([]), Pressed(Char(LETTER_A)));
    HappenEdits(v, 1, EditorOf([]), Pressed(Char(LETTER_A)));
    HappenEdits(u, 0, EditorOf([LETTER_A]), Happens(ShowOp(1)));
    HappenEdits(u, 1, EditorOf([]), Happens(ShowOp(1)));
    HappenEdits(x, 0, EditorOf([LETTER_A]), Pressed(Char(LETTER_B)));
    HappenEdits(x, 1, EditorOf([]), Pressed(Char(LETTER_B)));
  }

  // So a reader on terminal 0 is shown "b" where "a" was typed for it.
  lemma {:induction false} ReaderIsShownAnotherLine(v: View)
    requires Arranged(v) && v.display == 0 && v.terms[0].kbPos == 0 && v.terms[1].kbPos == 0
    requires Shows(Alone(v, 0), CLEARED) && Shows(Alone(v, 1), CLEARED)
    ensures Line(TypedOnTwo(v), 0) == [LETTER_A]
    ensures Shows(Alone(ReadBegin(TypedOnTwo(v), 0), 0), WriteLog(Log([LETTER_A], 0), [LETTER_B]))
  {
    var w := TypedOnTwo(v);
    BlankTerminal(v, 0);
    BlankTerminal(v, 1);
    LinesOnTwo(v);
    LineTyped(w, 0, EditorOf([LETTER_A]));
    LineTyped(w, 1, EditorOf([LETTER_B]));
    assert [] + [LETTER_A] == [LETTER_A];
    assert NoneDropped(Line(w, 1));
    hide TypedOnTwo, ReadBegin;
    ReaderShowsOwnLineIff(w, 0, Log([LETTER_A], 0));
  }
}
