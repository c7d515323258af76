// The command line of the emulation layer: the in-place splitter of execute and
// the joiner of getargs.
module Arguments {
  import opened Text

  const SLASH: byte := 0x2F
  const COMMAND_MAX := 1023
  const BUF_SIZE := 1026
  const ARGS_MAX := 1024

  predicate Blank(c: byte) {
    c == SPACE || c == NL
  }

  // The length of the run of non-blank bytes that s starts with.
  function WordEnd(s: seq<byte>): (k: nat)
    ensures k <= |s|
    ensures forall i :: 0 <= i < k ==> !Blank(s[i])
    ensures k < |s| ==> Blank(s[k])
  {
    if s == [] || Blank(s[0]) then 0 else 1 + WordEnd(s[1..])
  }

  lemma {:induction false} WordEndIs(s: seq<byte>, k: nat)
    requires k <= |s| && forall i :: 0 <= i < k ==> !Blank(s[i])
    requires k < |s| ==> Blank(s[k])
    ensures WordEnd(s) == k
  {
  }

  // The arguments found in s, which follows a separator: spaces are skipped, a
  // newline met where a word could begin ends the search, and one byte after a
  // word, space or newline, is its separator.
  function Rest(s: seq<byte>): seq<seq<byte>>
    decreases |s|
  {
    if s == [] || s[0] == NL then []
    else if s[0] == SPACE then Rest(s[1..])
    else [s[..WordEnd(s)]] + After(s[WordEnd(s)..])
  }

  // What follows a word: nothing, or its separator and more arguments.
  function After(s: seq<byte>): seq<seq<byte>>
    decreases |s|, 0
  {
    if s == [] then [] else Rest(s[1..])
  }

  // What execute hands to the new program: the name it looks up and the
  // arguments.
  function Argv(command: seq<byte>): (a: seq<seq<byte>>)
    ensures |a| >= 1
  {
    var k := WordEnd(command);
    [[DOT, SLASH] + command[..k]] + After(command[k..])
  }

  // ------------------------------------------------------------ meaning

  // The fields of a text between its blanks, empty ones included.
  function Fields(s: seq<byte>): (f: seq<seq<byte>>)
    ensures |f| >= 1
    decreases |s|
  {
    var k := WordEnd(s);
    if k == |s| then [s] else [s[..k]] + Fields(s[k + 1..])
  }

  function NonEmpty(f: seq<seq<byte>>): seq<seq<byte>> {
    if f == [] then []
    else (if f[0] == [] then [] else [f[0]]) + NonEmpty(f[1..])
  }

  // A newline that does not end a word; edge says whether s follows a blank.
  predicate StopsAt(s: seq<byte>, i: int, edge: bool)
    requires 0 <= i < |s|
  {
    s[i] == NL && if i == 0 then edge else Blank(s[i - 1])
  }

  // The first such newline, or the end.
  function Stop(s: seq<byte>, edge: bool): (k: nat)
    ensures k <= |s|
    ensures k < |s| ==> StopsAt(s, k, edge)
    ensures forall i :: 0 <= i < k ==> !StopsAt(s, i, edge)
  {
    if s == [] || (s[0] == NL && edge) then 0
    else
      var k := Stop(s[1..], Blank(s[0]));
      assert forall i :: 0 < i < k + 1 ==> StopsAt(s[1..], i - 1, Blank(s[0])) == StopsAt(s, i, edge);
      1 + k
  }

  lemma {:induction false} StopPastWord(s: seq<byte>, k: nat, edge: bool)
    requires k <= WordEnd(s)
    ensures Stop(s, edge) == k + Stop(s[k..], edge && k == 0)
    decreases k
  {
    if k == 0 {
      assert s[0..] == s;
    } else {
      StopPastWord(s[1..], k - 1, false);
      assert s[1..][k - 1..] == s[k..];
    }
  }

  // The arguments are the non-empty fields, up to the first newline that does
  // not end a word.
  lemma {:induction false} RestIsFields(s: seq<byte>)
    ensures Rest(s) == NonEmpty(Fields(s[..Stop(s, true)]))
    decreases |s|
  {
    var n := Stop(s, true);
    if n == 0 {
      assert Fields([]) == [[]];
    } else if s[0] == SPACE {
      RestIsFields(s[1..]);
      BlankFirst(s[..n]);
      assert s[..n][1..] == s[1..][..n - 1];
    } else {
      WordFirst(s, WordEnd(s));
    }
  }

  lemma {:induction false} BlankFirst(s: seq<byte>)
    requires s != [] && Blank(s[0])
    ensures NonEmpty(Fields(s)) == NonEmpty(Fields(s[1..]))
  {
  }

  lemma {:induction false} WordFirst(s: seq<byte>, k: nat)
    requires k == WordEnd(s) > 0
    ensures Rest(s) == NonEmpty(Fields(s[..Stop(s, true)]))
    decreases |s|, 0
  {
    hide Rest, NonEmpty, Fields, Stop;
    if k == |s| {
      LastField(s);
    } else {
      RestIsFields(s[k + 1..]);
      StopPastField(s, k);
      WordThenFields(s, k, Stop(s[k + 1..], true));
    }
  }

  lemma {:induction false} WordThenFields(s: seq<byte>, k: nat, m: nat)
    requires 0 < k == WordEnd(s) && k + 1 + m <= |s|
    requires Rest(s[k + 1..]) == NonEmpty(Fields(s[k + 1..][..m]))
    ensures Rest(s) == NonEmpty(Fields(s[..k + 1 + m]))
  {
    RestPastField(s, k);
    ThreeParts(s, k, m);
    FieldFirst(s[..k], s[k], s[k + 1..][..m]);
  }

  lemma {:induction false} LastField(s: seq<byte>)
    requires s != [] && WordEnd(s) == |s|
    ensures Stop(s, true) == |s| && s[..|s|] == s && Rest(s) == NonEmpty(Fields(s))
  {
  }

  lemma {:induction false} RestPastField(s: seq<byte>, k: nat)
    requires 0 < k == WordEnd(s) < |s|
    ensures Rest(s) == [s[..k]] + Rest(s[k + 1..])
  {
  }

  lemma {:induction false} ThreeParts(s: seq<byte>, k: nat, m: nat)
    requires k + 1 + m <= |s|
    ensures s[..k + 1 + m] == s[..k] + [s[k]] + s[k + 1..][..m]
  {
  }

  lemma {:induction false} StopPastField(s: seq<byte>, k: nat)
    requires 0 < k == WordEnd(s) < |s|
    ensures Stop(s, true) == k + 1 + Stop(s[k + 1..], true)
  {
    StopPastWord(s, k, true);
    assert s[k..][1..] == s[k + 1..];
  }

  lemma {:induction false} FieldFirst(w: seq<byte>, separator: byte, t: seq<byte>)
    requires w != [] && Blank(separator) && forall i :: 0 <= i < |w| ==> !Blank(w[i])
    ensures NonEmpty(Fields(w + [separator] + t)) == [w] + NonEmpty(Fields(t))
  {
    var s := w + [separator] + t;
    WordEndIs(s, |w|);
    assert s[..|w|] == w && s[|w| + 1..] == t;
    assert ([w] + Fields(t))[1..] == Fields(t);
  }

  // A command without newlines is split into all its space-separated words.
  lemma {:induction false} CommandIsFields(command: seq<byte>)
    requires OneLine(command)
    ensures Argv(command)[0] == [DOT, SLASH] + Fields(command)[0]
    ensures Argv(command)[1..] == NonEmpty(Fields(command)[1..])
  {
    var k := WordEnd(command);
    assert Argv(command)[1..] == After(command[k..]);
    if k < |command| {
      var t := command[k + 1..];
      assert command[k..][1..] == t;
      RestIsFields(t);
      assert t[..|t|] == t;
      assert Fields(command)[1..] == Fields(t);
    } else {
      assert command[..k] == command;
    }
  }

  // What is left out holds no word: nothing but blanks follows the stop.
  predicate NothingLost(s: seq<byte>) {
    AllBlank(s[Stop(s, true)..])
  }

  predicate AllBlank(s: seq<byte>) {
    forall i :: 0 <= i < |s| ==> Blank(s[i])
  }

  // Every word is found if and only if nothing but blanks follows the first
  // newline that does not end a word.
  lemma {:induction false} RestIsAllFieldsIff(s: seq<byte>)
    ensures Rest(s) == NonEmpty(Fields(s)) <==> NothingLost(s)
  {
    var n := Stop(s, true);
    RestIsFields(s);
    if n < |s| {
      FieldsSplit(s, n);
      NoFieldsIff(s[n..]);
      NonEmptyConcat(Fields(s[..n]), Fields(s[n + 1..]));
      BlankFirst(s[n..]);
      assert s[n..][1..] == s[n + 1..];
    } else {
      assert s[..n] == s;
    }
  }

  // A blank separates the fields before it from those after it.
  lemma {:induction false} FieldsSplit(s: seq<byte>, n: nat)
    requires n < |s| && Blank(s[n])
    ensures Fields(s) == Fields(s[..n]) + Fields(s[n + 1..])
    decreases |s|
  {
    var k := WordEnd(s);
    if k == n {
      WordEndIs(s[..n], n);
      assert s[..n] == s[..k];
    } else {
      FieldsSplit(s[k + 1..], n - k - 1);
      WordEndIs(s[..n], k);
      PastField(s, k, n);
      FieldMoved(s[..k], Fields(s[..n][k + 1..]), Fields(s[n + 1..]));
    }
  }

  lemma {:induction false} PastField(s: seq<byte>, k: nat, n: nat)
    requires k < n < |s|
    ensures s[..n][..k] == s[..k] && s[..n][k + 1..] == s[k + 1..][..n - k - 1] && s[k + 1..][n - k..] == s[n + 1..]
  {
  }

  lemma {:induction false} FieldMoved(w: seq<byte>, f: seq<seq<byte>>, g: seq<seq<byte>>)
    ensures [w] + (f + g) == [w] + f + g
  {
  }

  lemma {:induction false} NonEmptyConcat(f: seq<seq<byte>>, g: seq<seq<byte>>)
    ensures NonEmpty(f + g) == NonEmpty(f) + NonEmpty(g)
    decreases |f|
  {
    if f == [] {
      assert f + g == g;
    } else {
      assert (f + g)[1..] == f[1..] + g;
      NonEmptyConcat(f[1..], g);
    }
  }

  lemma {:induction false} NoFieldsIff(s: seq<byte>)
    ensures NonEmpty(Fields(s)) == [] <==> AllBlank(s)
    decreases |s|
  {
    if s == [] {
    } else if Blank(s[0]) {
      BlankFirst(s);
      NoFieldsIff(s[1..]);
      assert AllBlank(s[1..]) ==> forall i :: 0 < i < |s| ==> s[i] == s[1..][i - 1];
      assert AllBlank(s) ==> forall i :: 0 <= i < |s| - 1 ==> s[1..][i] == s[i + 1];
    } else {
      assert WordEnd(s) > 0 && Fields(s)[0] != [];
    }
  }

  lemma {:induction false} BehindFirstWord(command: seq<byte>)
    ensures var k := WordEnd(command);
            if k < |command| then Argv(command)[1..] == Rest(command[k + 1..]) && Fields(command)[1..] == Fields(command[k + 1..])
            else Argv(command)[1..] == [] && Fields(command)[1..] == []
  {
    var k := WordEnd(command);
    assert Argv(command)[1..] == After(command[k..]);
    if k < |command| {
      assert command[k..][1..] == command[k + 1..];
    } else {
      assert command[k..] == [];
    }
  }

  // The whole command: all its words are found if and only if nothing but
  // blanks follows, after the first word, such a newline.
  lemma {:induction false} ArgvIsAllFieldsIff(command: seq<byte>)
    ensures var k := WordEnd(command);
            Argv(command)[1..] == NonEmpty(Fields(command)[1..]) <==> k == |command| || NothingLost(command[k + 1..])
  {
    var k := WordEnd(command);
    assert NonEmpty([]) == [];
    hide NonEmpty, Fields, Rest, Argv, NothingLost, WordEnd, Blank;
    BehindFirstWord(command);
    if k < |command| {
      RestIsAllFieldsIff(command[k + 1..]);
    }
  }

  // The command "a", two newlines, "b" loses its argument.
  lemma {:induction false} SecondNewlineLosesWords()
    ensures var command := [0x61, NL, NL, 0x62]; Argv(command)[1..] == [] != NonEmpty(Fields(command)[1..])
  {
    var command: seq<byte> := [0x61, NL, NL, 0x62];
    var t := command[2..];
    WordEndIs(command, 1);
    assert command[1..][1..] == t && Rest(t) == [];
    assert Argv(command)[1..] == After(command[1..]) == [];
    assert !NothingLost(t) by {
      assert Stop(t, true) == 0 && !Blank(t[0..][1]);
    }
    ArgvIsAllFieldsIff(command);
  }

  // ------------------------------------------------------------ bounds

  predicate IsWord(w: seq<byte>) {
    w != [] && NulFree(w) && forall i :: 0 <= i < |w| ==> !Blank(w[i])
  }

  predicate AllWords(ws: seq<seq<byte>>) {
    forall i :: 0 <= i < |ws| ==> IsWord(ws[i])
  }

  lemma {:induction false} RestAreWords(s: seq<byte>)
    requires NulFree(s)
    ensures AllWords(Rest(s)) && 2 * |Rest(s)| <= |s| + 1 && |Join(Rest(s))| <= |s|
    decreases |s|
  {
    if s == [] || s[0] == NL {
    } else if s[0] == SPACE {
      RestAreWords(s[1..]);
    } else {
      var k := WordEnd(s);
      assert IsWord(s[..k]);
      if k < |s| {
        var t := s[k + 1..];
        assert s[k..][1..] == t;
        RestAreWords(t);
        assert ([s[..k]] + Rest(t))[1..] == Rest(t);
      }
    }
  }

  // A command that is not too long needs at most 512 of the argument slots, and
  // its arguments always fit the buffer getargs is given for them.
  lemma {:induction false} SlotsSuffice(command: seq<byte>)
    requires NulFree(command) && |command| <= COMMAND_MAX
    ensures |Argv(command)| <= 512 && AllWords(Argv(command)[1..])
    ensures |Join(Argv(command)[1..])| <= COMMAND_MAX
  {
    var k := WordEnd(command);
    assert Argv(command)[1..] == After(command[k..]);
    if k < |command| {
      RestAreWords(command[k..][1..]);
    }
  }

  // ------------------------------------------------------------ joining

  function Join(args: seq<seq<byte>>): seq<byte> {
    if args == [] then []
    else if |args| == 1 then args[0]
    else args[0] + [SPACE] + Join(args[1..])
  }

  // Splitting what getargs joined gives the same arguments back.
  lemma {:induction false} SplitJoin(args: seq<seq<byte>>)
    requires AllWords(args)
    ensures Rest(Join(args)) == args
    decreases |args|
  {
    if args != [] {
      var s, w := Join(args), args[0];
      assert forall i :: 0 <= i < |w| ==> s[i] == w[i];
      assert IsWord(w);
      WordEndIs(s, |w|);
      assert s[..|w|] == w;
      if |args| > 1 {
        SplitJoin(args[1..]);
        assert s[|w|..][1..] == Join(args[1..]);
        assert args == [w] + args[1..];
      } else {
        assert args == [w];
      }
    }
  }

  // Executing the name and the joined arguments is executing the command.
  lemma {:induction false} JoinSplit(command: seq<byte>)
    requires NulFree(command)
    ensures Argv(command[..WordEnd(command)] + [SPACE] + Join(Argv(command)[1..])) == Argv(command)
  {
    var k, args := WordEnd(command), Argv(command)[1..];
    assert args == After(command[k..]);
    if k < |command| {
      RestAreWords(command[k..][1..]);
    }
    SplitJoin(args);
    var c := command[..k] + [SPACE] + Join(args);
    WordEndIs(c, k);
    assert c[..k] == command[..k] && c[k..][1..] == Join(args);
  }

  // ------------------------------------------------------------ the splitter

  // The C string w stands at buf[at..].
  predicate HoldsString(buf: seq<byte>, at: int, w: seq<byte>) {
    0 <= at && at + |w| < |buf| && buf[at..at + |w|] == w && buf[at + |w|] == NUL
  }

  lemma {:induction false} HoldsCString(buf: seq<byte>, at: int, w: seq<byte>)
    requires HoldsString(buf, at, w) && NulFree(w)
    ensures CString(buf[at..]) == w
  {
  }

  predicate AllHold(buf: seq<byte>, args: seq<int>, words: seq<seq<byte>>, scan: int) {
    |words| <= |args| &&
    forall i :: 0 <= i < |words| ==> HoldsString(buf, args[i], words[i]) && args[i] + |words[i]| <= scan
  }

  // Writing a terminator at or after the end of the last word harms none.
  lemma {:induction false} AllHoldStill(buf: seq<byte>, args: seq<int>, words: seq<seq<byte>>, scan: int, q: int)
    requires AllHold(buf, args, words, scan) && 0 <= scan <= q < |buf|
    ensures AllHold(buf[q := NUL], args, words, q)
  {
  }

  // The untouched part of the command is buf[scan..end], terminated.
  predicate Unread(buf: seq<byte>, scan: int, end: int) {
    0 <= scan <= end < |buf| && buf[end] == NUL && NulFree(buf[scan..end])
  }

  lemma {:induction false} UnreadFrom(buf: seq<byte>, scan: int, end: int, p: int)
    requires Unread(buf, scan, end) && scan <= p <= end
    ensures Unread(buf, p, end) && buf[p..end] == buf[scan..end][p - scan..]
    ensures buf[p] == NUL <==> p == end
  {
  }

  method ScanWord(buf: array<byte>, from: nat, ghost end: nat) returns (scan: nat)
    requires Unread(buf[..], from, end)
    ensures scan == from + WordEnd(buf[from..end]) && scan <= end
  {
    scan := from;
    UnreadFrom(buf[..], from, end, scan);
    while NUL != buf[scan] && SPACE != buf[scan] && NL != buf[scan]
      invariant from <= scan <= end && (buf[scan] == NUL <==> scan == end)
      invariant forall i :: from <= i < scan ==> !Blank(buf[i])
      decreases end - scan
    {
      scan := scan + 1;
      UnreadFrom(buf[..], from, end, scan);
    }
    WordEndIs(buf[from..end], scan - from);
  }

  method SkipSpaces(buf: array<byte>, from: nat, ghost end: nat) returns (scan: nat)
    requires Unread(buf[..], from, end)
    ensures from <= scan <= end && buf[scan] != SPACE && Rest(buf[from..end]) == Rest(buf[scan..end])
  {
    scan := from;
    while SPACE == buf[scan]
      invariant from <= scan <= end && Rest(buf[from..end]) == Rest(buf[scan..end])
      decreases end - scan
    {
      UnreadFrom(buf[..], from, end, scan);
      assert buf[scan..end][0] == SPACE && buf[scan..end][1..] == buf[scan + 1..end];
      scan := scan + 1;
    }
  }

  lemma {:induction false} Slices(buf: seq<byte>, from: nat, mid: nat, end: nat)
    requires from <= mid <= end <= |buf|
    ensures buf[from..mid] == buf[from..end][..mid - from] && buf[from..end][mid - from..] == buf[mid..end]
  {
  }

  // One round of the splitter: the word at scan becomes an argument, and its
  // separator, if it has one, a terminator.
  method TakeWord(buf: array<byte>, args: array<int>, from: nat, n: nat, ghost end: nat, ghost words: seq<seq<byte>>)
    returns (scan: nat, ghost w: seq<byte>)
    requires n == |words| < args.Length && AllHold(buf[..], args[..], words, from)
    requires Unread(buf[..], from, end) && from < end && !Blank(buf[from])
    modifies buf, args
    ensures AllHold(buf[..], args[..], words + [w], scan) && from < scan
    ensures Unread(buf[..], scan, end)
    ensures Rest(old(buf[from..end])) == [w] + Rest(buf[scan..end])
  {
    args[n] := from;
    scan := ScanWord(buf, from, end);
    w := buf[from..scan];
    Slices(buf[..], from, scan, end);
    assert !Blank(buf[from..end][0]);
    scan := EndWord(buf, args[..], from, scan, end, words, w);
  }

  method EndWord(buf: array<byte>, ghost args: seq<int>, ghost from: nat, at: nat, ghost end: nat, ghost words: seq<seq<byte>>, ghost w: seq<byte>)
    returns (scan: nat)
    requires |words| < |args| && AllHold(buf[..], args[..|words|], words, from) && args[|words|] == from
    requires Unread(buf[..], from, end) && from < at <= end && w == buf[from..at]
    modifies buf
    ensures AllHold(buf[..], args, words + [w], scan) && from < scan && Unread(buf[..], scan, end)
    ensures Rest(buf[scan..end]) == After(old(buf[at..end]))
  {
    scan := at;
    UnreadFrom(buf[..], from, end, scan);
    ghost var was := buf[..];
    if NUL != buf[scan] {
      assert was[scan + 1..end] == was[scan..end][1..];
      buf[scan] := NUL;
      assert buf[..] == was[scan := NUL];
      TookWord(was, args, words, w, from, end, scan);
      scan := scan + 1;
    } else {
      LastWord(was, args, words, w, from, end);
    }
  }

  lemma {:induction false} TookWord(buf: seq<byte>, args: seq<int>, words: seq<seq<byte>>, w: seq<byte>, from: nat, end: nat, q: nat)
    requires |words| < |args| && AllHold(buf, args[..|words|], words, from) && args[|words|] == from
    requires Unread(buf, from, end) && from <= q < end && w == buf[from..q]
    ensures AllHold(buf[q := NUL], args, words + [w], q + 1)
    ensures Unread(buf[q := NUL], q + 1, end) && buf[q := NUL][q + 1..end] == buf[q + 1..end]
  {
    AllHoldStill(buf, args[..|words|], words, from, q);
    var b := buf[q := NUL];
    assert b[from..q] == w;
    assert HoldsString(b, from, w);
    assert b[q + 1..end] == buf[q + 1..end];
    UnreadFrom(buf, from, end, q + 1);
  }

  lemma {:induction false} LastWord(buf: seq<byte>, args: seq<int>, words: seq<seq<byte>>, w: seq<byte>, from: nat, end: nat)
    requires |words| < |args| && AllHold(buf, args[..|words|], words, from) && args[|words|] == from
    requires Unread(buf, from, end) && w == buf[from..end]
    ensures AllHold(buf, args, words + [w], end) && Unread(buf, end, end) && Rest(buf[end..end]) == []
  {
  }

  // The command is split inside buf, and args gets the places of the arguments,
  // closed by -1 for the null pointer.  The name to execute is at buf[0].
  method Split(command: seq<byte>, buf: array<byte>, args: array<int>) returns (n: int)
    requires NulFree(command) && buf.Length == BUF_SIZE && args.Length == ARGS_MAX
    modifies buf, args
    ensures n == -1 <==> |command| > COMMAND_MAX
    ensures n != -1 ==> n == |Argv(command)| <= 512 && args[n] == -1
    ensures n != -1 ==> forall i :: 0 <= i < n ==> 0 <= args[i] < BUF_SIZE && CString(buf[args[i]..]) == Argv(command)[i]
  {
    if COMMAND_MAX < |command| {
      return -1;
    }
    SlotsSuffice(command);
    ghost var words;
    n, words := SplitAll(command, buf, args);
    args[n] := -1;
    forall i | 0 <= i < n
      ensures 0 <= args[i] < BUF_SIZE && CString(buf[args[i]..]) == Argv(command)[i]
    {
      ArgvNulFree(command, i);
      HoldsCString(buf[..], args[i], words[i]);
      assert buf[..][args[i]..] == buf[args[i]..];
    }
  }

  lemma {:induction false} ArgvNulFree(command: seq<byte>, i: nat)
    requires NulFree(command) && |command| <= COMMAND_MAX && i < |Argv(command)|
    ensures NulFree(Argv(command)[i])
  {
    SlotsSuffice(command);
    if i > 0 {
      assert Argv(command)[i] == Argv(command)[1..][i - 1];
    }
  }

  method CopyCommand(command: seq<byte>, buf: array<byte>)
    requires NulFree(command) && |command| <= COMMAND_MAX && buf.Length == BUF_SIZE
    modifies buf
    ensures buf[..2] == [DOT, SLASH] && buf[2..2 + |command|] == command && Unread(buf[..], 2, 2 + |command|)
  {
    buf[0] := DOT;
    buf[1] := SLASH;
    var i := 0;
    while i < |command|
      invariant 0 <= i <= |command|
      invariant buf[0] == DOT && buf[1] == SLASH && buf[2..2 + i] == command[..i]
    {
      buf[2 + i] := command[i];
      i := i + 1;
    }
    buf[2 + i] := NUL;
    assert buf[2..2 + |command|] == command == buf[..][2..2 + |command|];
  }

  // Skip to the next word; at the end of the arguments, terminate them.
  method NextWord(buf: array<byte>, ghost args: seq<int>, from: nat, ghost end: nat, ghost words: seq<seq<byte>>)
    returns (scan: nat, more: bool)
    requires Unread(buf[..], from, end) && AllHold(buf[..], args, words, from)
    modifies buf
    ensures from <= scan <= end && AllHold(buf[..], args, words, scan)
    ensures more ==> Unread(buf[..], scan, end) && scan < end && !Blank(buf[scan])
    ensures Rest(old(buf[from..end])) == if more then Rest(buf[scan..end]) else []
  {
    scan := SkipSpaces(buf, from, end);
    UnreadFrom(buf[..], from, end, scan);
    more := NUL != buf[scan] && NL != buf[scan];
    if !more {
      AllHoldStill(buf[..], args, words, from, scan);
      assert scan < end ==> buf[scan..end][0] == NL;
      ghost var was := buf[..];
      buf[scan] := NUL;
      assert buf[..] == was[scan := NUL];
    }
  }

  method FirstWord(buf: array<byte>, args: array<int>, ghost command: seq<byte>) returns (scan: nat)
    requires buf.Length == BUF_SIZE && args.Length == ARGS_MAX && args[0] == 0
    requires |command| <= COMMAND_MAX && buf[..2] == [DOT, SLASH] && buf[2..2 + |command|] == command
    requires Unread(buf[..], 2, 2 + |command|)
    modifies buf
    ensures var k := WordEnd(command);
            && AllHold(buf[..], args[..], [[DOT, SLASH] + command[..k]], scan)
            && Unread(buf[..], scan, 2 + |command|) && Rest(buf[scan..2 + |command|]) == After(command[k..])
  {
    ghost var end := 2 + |command|;
    ghost var k := WordEnd(command);
    scan := ScanWord(buf, 2, end);
    assert buf[..][0..end] == [DOT, SLASH] + command;
    ghost var w := [DOT, SLASH] + command[..k];
    assert buf[0..scan] == w;
    assert buf[scan..end] == command[k..];
    scan := EndWord(buf, args[..], 0, scan, end, [], w);
  }

  lemma {:induction false} OneMoved(words: seq<seq<byte>>, w: seq<byte>, rest: seq<seq<byte>>)
    ensures words + [w] + rest == words + ([w] + rest)
  {
  }

  method SplitAll(command: seq<byte>, buf: array<byte>, args: array<int>) returns (n: nat, ghost words: seq<seq<byte>>)
    requires NulFree(command) && |command| <= COMMAND_MAX && buf.Length == BUF_SIZE && args.Length == ARGS_MAX
    requires |Argv(command)| <= 512
    modifies buf, args
    ensures n == |Argv(command)| && words == Argv(command) && AllHold(buf[..], args[..], words, BUF_SIZE)
  {
    CopyCommand(command, buf);
    ghost var end := 2 + |command|;
    assert buf[2..end] == command;
    args[0] := 0;
    n := 1;
    var scan := FirstWord(buf, args, command);
    words := [[DOT, SLASH] + command[..WordEnd(command)]];
    var more := true;
    while more
      invariant n == |words| && scan <= end && AllHold(buf[..], args[..], words, scan)
      invariant more ==> Unread(buf[..], scan, end)
      invariant words + (if more then Rest(buf[scan..end]) else []) == Argv(command)
      decreases if more then 1 + end - scan else 0
    {
      scan, more := NextWord(buf, args[..], scan, end, words);
      if more {
        ghost var w;
        scan, w := TakeWord(buf, args, scan, n, end, words);
        OneMoved(words, w, Rest(buf[scan..end]));
        words := words + [w];
        n := n + 1;
      }
    }
  }

  // ------------------------------------------------------------ the joiner

  lemma {:induction false} JoinStep(args: seq<seq<byte>>, idx: nat)
    requires idx < |args|
    ensures Join(args[idx..]) == args[idx] + if idx + 1 == |args| then [] else [SPACE] + Join(args[idx + 1..])
  {
  }

  // Copy the C string arg to buf[at..], terminator included.
  method StrCpy(buf: array<byte>, at: nat, arg: seq<byte>)
    requires at + |arg| < buf.Length
    modifies buf
    ensures buf[..at + |arg|] == old(buf[..at]) + arg && buf[at + |arg|] == NUL
    ensures forall k :: at + |arg| < k < buf.Length ==> buf[k] == old(buf[k])
  {
    var i := 0;
    while i < |arg|
      invariant 0 <= i <= |arg| && buf[..at + i] == old(buf[..at]) + arg[..i]
      invariant forall k :: at + i <= k < buf.Length ==> buf[k] == old(buf[k])
    {
      buf[at + i] := arg[i];
      i := i + 1;
      assert buf[..at + i] == buf[..at + i - 1] + [arg[i - 1]];
    }
    buf[at + i] := NUL;
  }

  // The arguments after the name are joined in buf.  When an argument fills the
  // room exactly its terminator lands one byte past it, hence the spare byte.
  method GetArgs(args: seq<seq<byte>>, buf: array<byte>, nbytes: int) returns (ok: bool)
    requires nbytes < buf.Length
    modifies buf
    ensures ok <==> |Join(args)| < nbytes
    ensures ok ==> buf[..|Join(args)|] == Join(args) && buf[|Join(args)|] == NUL
    ensures forall k :: 0 <= k < buf.Length && k > nbytes ==> buf[k] == old(buf[k])
  {
    assert args == [] ==> Join(args) == [];
    hide Join;
    var idx, room, at := 0, nbytes, 0;
    var writing := args != [];
    ghost var done, tail: seq<byte> := [], Join(args);
    assert args[0..] == args;
    while writing
      invariant 0 <= idx <= |args| && at + room == nbytes && 0 <= at <= buf.Length && (at == 0 || room >= 0)
      invariant writing ==> idx < |args| && tail == Join(args[idx..])
      invariant !writing ==> tail == []
      invariant buf[..at] == done && done + tail == Join(args)
      invariant forall k :: 0 <= k < buf.Length && k > nbytes ==> buf[k] == old(buf[k])
      decreases |args| - idx, writing
    {
      JoinStep(args, idx);
      var len := |args[idx]|;
      if len > room {
        return false;
      }
      StrCpy(buf, at, args[idx]);
      MovePart(done, args[idx], tail);
      done, tail := done + args[idx], tail[len..];
      at, room, idx := at + len, room - len, idx + 1;
      writing := idx < |args|;
      if writing {
        if room < 1 {
          return false;
        }
        PutSpace(buf, at);
        MovePart(done, [SPACE], tail);
        done, tail := done + [SPACE], tail[1..];
        at, room := at + 1, room - 1;
      }
    }
    if room < 1 {
      return false;
    }
    buf[at] := NUL;
    ok := true;
  }

  lemma {:induction false} MovePart(done: seq<byte>, part: seq<byte>, tail: seq<byte>)
    requires part <= tail
    ensures done + part + tail[|part|..] == done + tail
  {
  }

  method PutSpace(buf: array<byte>, at: nat)
    requires at < buf.Length
    modifies buf
    ensures buf[..at + 1] == old(buf[..at]) + [SPACE]
    ensures forall k :: at < k < buf.Length ==> buf[k] == old(buf[k])
  {
    buf[at] := SPACE;
  }
}
