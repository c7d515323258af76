// grep: search a file for a pattern through a 1 KB buffer, line by line,
// carrying an unfinished line over to the next read.
module Grep {
  import opened Text
  import opened FileSystem
  import opened Directory

  const BUFSIZE := 1024

  predicate OccursAt(t: seq<byte>, pat: seq<byte>, k: nat) {
    k + |pat| <= |t| && t[k..k + |pat|] == pat
  }

  predicate Contains(line: seq<byte>, pat: seq<byte>) {
    exists k :: 0 <= k <= |line| && OccursAt(line, pat, k)
  }

  // That is, the pattern stands somewhere in the line, with anything around it.
  lemma {:induction false} ContainsIff(line: seq<byte>, pat: seq<byte>)
    ensures Contains(line, pat) <==> exists a, b {:trigger a + pat + b} :: line == a + pat + b
  {
    if Contains(line, pat) {
      var k :| 0 <= k <= |line| && OccursAt(line, pat, k);
      assert line == line[..k] + pat + line[k + |pat|..];
    }
    if a, b :| line == a + pat + b {
      assert OccursAt(line, pat, |a|);
    }
  }

  // A line is selected when a non-empty pattern occurs in it.
  predicate Selected(line: seq<byte>, pat: seq<byte>) {
    pat != [] && Contains(line, pat)
  }

  function Found(pat: seq<byte>, lines: seq<seq<byte>>): seq<seq<byte>> {
    if lines == [] then []
    else (if Selected(lines[0], pat) then [lines[0]] else []) + Found(pat, lines[1..])
  }

  function Record(name: seq<byte>, line: seq<byte>): seq<byte> {
    name + [0x3A] + line + [NL]
  }

  function Report(name: seq<byte>, lines: seq<seq<byte>>): seq<byte> {
    if lines == [] then [] else Record(name, lines[0]) + Report(name, lines[1..])
  }

  // What the program writes about a file: its lines, cut at 1024 bytes.
  function Grepped(name: seq<byte>, pat: seq<byte>, t: seq<byte>): seq<byte> {
    Report(name, Found(pat, Pieces(t, BUFSIZE)))
  }

  function Hit(name: seq<byte>, pat: seq<byte>, line: seq<byte>): seq<byte> {
    if Selected(line, pat) then Record(name, line) else []
  }

  lemma {:induction false} GreppedFirst(name: seq<byte>, pat: seq<byte>, t: seq<byte>, p: seq<byte>, u: seq<byte>)
    requires Pieces(t, BUFSIZE) == [p] + Pieces(u, BUFSIZE)
    ensures Grepped(name, pat, t) == Hit(name, pat, p) + Grepped(name, pat, u)
  {
    var ps := Pieces(u, BUFSIZE);
    assert ([p] + ps)[1..] == ps;
    assert Found(pat, [p] + ps) == (if Selected(p, pat) then [p] else []) + Found(pat, ps);
    if Selected(p, pat) {
      assert ([p] + Found(pat, ps))[1..] == Found(pat, ps);
    } else {
      assert [] + Found(pat, ps) == Found(pat, ps);
    }
  }

  lemma {:induction false} GreppedNothing(name: seq<byte>, pat: seq<byte>)
    ensures Grepped(name, pat, []) == []
  {
    assert Pieces([], BUFSIZE) == [[]];
    assert Found(pat, [[]]) == [] by {
      var none: seq<seq<byte>> := [[]];
      assert none[1..] == [];
    }
  }

  // A line that ends in the buffer.
  lemma {:induction false} GreppedLine(name: seq<byte>, pat: seq<byte>, line: seq<byte>, u: seq<byte>)
    requires OneLine(line) && |line| < BUFSIZE
    ensures Grepped(name, pat, line + [NL] + u) == Hit(name, pat, line) + Grepped(name, pat, u)
  {
    var t := line + [NL] + u;
    FindUnique(t, NL, |line|);
    assert t[..|line|] == line && t[|line| + 1..] == u;
    GreppedFirst(name, pat, t, line, u);
  }

  // A full buffer without a newline counts as a line of its own.
  lemma {:induction false} GreppedFull(name: seq<byte>, pat: seq<byte>, line: seq<byte>, u: seq<byte>)
    requires OneLine(line) && |line| == BUFSIZE
    ensures Grepped(name, pat, line + u) == Hit(name, pat, line) + Grepped(name, pat, u)
  {
    var t := line + u;
    assert Find(t, NL) >= BUFSIZE by {
      assert forall i :: 0 <= i < BUFSIZE ==> t[i] == line[i];
    }
    assert t[..BUFSIZE] == line && t[BUFSIZE..] == u;
    GreppedFirst(name, pat, t, line, u);
  }

  lemma {:induction false} ReportOne(name: seq<byte>, pat: seq<byte>, line: seq<byte>)
    ensures Report(name, Found(pat, [line])) == Hit(name, pat, line)
  {
  }

  // The last line needs no newline.
  lemma {:induction false} GreppedLast(name: seq<byte>, pat: seq<byte>, line: seq<byte>)
    requires OneLine(line) && |line| < BUFSIZE
    ensures Grepped(name, pat, line) == Hit(name, pat, line)
  {
    assert Find(line, NL) == |line| by {
      assert forall i :: 0 <= i < |line| ==> line[i] != NL;
    }
    assert Pieces(line, BUFSIZE) == [line];
    ReportOne(name, pat, line);
  }

  class Console {
    var out: seq<byte>

    // Write a C string.
    method FdPuts(s: seq<byte>)
      requires NUL in s
      modifies this
      ensures out == old(out) + CString(s)
    {
      var len := StrLen(s);
      out := out + s[..len];
    }
  }

  lemma {:induction false} Mismatch(t: seq<byte>, pat: seq<byte>, k: nat, i: nat)
    requires i < |pat| && k + i < |t| && t[k + i] != pat[i]
    ensures !OccursAt(t, pat, k)
  {
  }

  // Zero exactly when the n bytes at data[at..] are the NUL-free s[..n].
  method NCmp(data: array<byte>, at: nat, s: seq<byte>, n: nat) returns (r: int)
    requires at <= data.Length && NUL in data[at..]
    requires n < |s| && s[n] == NUL && NulFree(s[..n])
    ensures r == 0 <==> OccursAt(data[..], s[..n], at)
  {
    if n == 0 {
      return 0;
    }
    var i, m := 0, n;
    while data[at + i] == s[i]
      invariant 0 <= i < n && m == n - i && at + i < data.Length
      invariant data[at..at + i] == s[..i]
      invariant NUL in data[at + i..]
      decreases n - i
    {
      assert s[..n][i] != NUL;
      assert data[at..at + i + 1] == s[..i + 1];
      m := m - 1;
      if data[at + i] == NUL || m == 0 {
        assert data[..][at..at + n] == s[..n];
        return 0;
      }
      assert data[at + i..][0] != NUL && data[at + i..][1..] == data[at + i + 1..];
      i := i + 1;
    }
    Mismatch(data[..], s[..n], at, i);
    var c: int := data[at + i];
    return c - s[i];
  }

  // Copy the C string at data[from..], len bytes long, down to data[0..].
  method StrCpyDown(data: array<byte>, from: nat, ghost len: nat)
    requires from + len < data.Length && data[from + len] == NUL
    requires forall k :: from <= k < from + len ==> data[k] != NUL
    modifies data
    ensures forall k :: 0 <= k <= len ==> data[k] == old(data[from + k])
    ensures forall k :: len < k < data.Length ==> data[k] == old(data[k])
  {
    var i := 0;
    data[0] := data[from];
    while data[i] != NUL
      invariant 0 <= i <= len
      invariant forall k :: 0 <= k <= i ==> data[k] == old(data[from + k])
      invariant forall k :: i < k < data.Length ==> data[k] == old(data[k])
      decreases len - i
    {
      i := i + 1;
      data[i] := data[from + i];
    }
    assert i == len;
  }

  // The terminator that closes a line keeps matches inside it.
  lemma {:induction false} OccursInLine(t: seq<byte>, start: nat, end: nat, pat: seq<byte>, k: nat)
    requires start <= k <= end < |t| && t[end] == NUL && NulFree(pat)
    ensures OccursAt(t, pat, k) <==> OccursAt(t[start..end], pat, k - start)
  {
    if k + |pat| <= end {
      SliceOfSlice(t, start, end, k - start, |pat|);
    } else {
      Mismatch(t, pat, k, end - k);
    }
  }

  lemma {:induction false} Terminated(s: seq<byte>, more: seq<byte>)
    requires NulFree(s)
    ensures CString(s + [NUL] + more) == s
    ensures more == [] ==> CString(s + [NUL]) == s
  {
    FindUnique(s + [NUL] + more, NUL, |s|);
    assert more == [] ==> s + [NUL] + more == s + [NUL];
  }

  method PrintLine(con: Console, data: array<byte>, fname: seq<byte>, start: nat, end: nat)
    requires NUL in fname
    requires start <= end < data.Length && data[end] == NUL
    modifies con
    ensures NulFree(data[start..end]) ==> con.out == old(con.out) + Record(CString(fname), data[start..end])
  {
    Terminated([0x3A], []);
    Terminated([NL], []);
    hide CString, Record;
    ghost var out := con.out;
    con.FdPuts(fname);
    con.FdPuts([0x3A] + [NUL]);
    assert data[start..] == data[start..end] + [NUL] + data[end + 1..];
    con.FdPuts(data[start..]);
    con.FdPuts([NL] + [NUL]);
    if NulFree(data[start..end]) {
      Terminated(data[start..end], data[end + 1..]);
      RecordInParts(out, CString(fname), data[start..end]);
    }
  }

  lemma {:induction false} RecordInParts(out: seq<byte>, name: seq<byte>, line: seq<byte>)
    ensures out + name + [0x3A] + line + [NL] == out + Record(name, line)
  {
  }

  // Search the line data[start..end] and write it, behind the file's name, at
  // the first occurrence of the pattern.
  method SearchLine(con: Console, data: array<byte>, s: seq<byte>, fname: seq<byte>, start: nat, end: nat)
    requires NUL in s && NUL in fname
    requires start <= end < data.Length && data[end] == NUL
    modifies con
    ensures NulFree(data[start..end]) ==>
              con.out == old(con.out) + Hit(CString(fname), CString(s), data[start..end])
  {
    var sLen := StrLen(s);
    ghost var line, pat := data[start..end], CString(s);
    var check := start;
    while check < end
      invariant start <= check <= end
      invariant con.out == old(con.out)
      invariant NulFree(line) && pat != [] ==> forall k :: 0 <= k < check - start ==> !OccursAt(line, pat, k)
    {
      assert data[check] == line[check - start] && data[check..][end - check] == NUL;
      OccursInLine(data[..], start, end, pat, check);
      var cmp := NCmp(data, check, s, sLen);
      if s[0] == data[check] && cmp == 0 {
        PrintLine(con, data, fname, start, end);
        assert NulFree(line) ==> pat != [] && OccursAt(line, pat, check - start);
        return;
      }
      if s[0] != data[check] && pat != [] {
        Mismatch(line, pat, check - start, 0);
      }
      check := check + 1;
    }
  }

  lemma {:induction false} StepLine(name: seq<byte>, pat: seq<byte>, buf: seq<byte>, start: nat, end: nat, last: nat, rest: seq<byte>)
    requires start <= end < last <= |buf| && end - start < BUFSIZE
    requires OneLine(buf[start..end]) && buf[end] == NL
    ensures Grepped(name, pat, buf[start..last] + rest)
         == Hit(name, pat, buf[start..end]) + Grepped(name, pat, buf[end + 1..last] + rest)
  {
    var line, more := buf[start..end], buf[end + 1..last] + rest;
    assert buf[start..last] + rest == line + [NL] + more;
    GreppedLine(name, pat, line, more);
  }

  lemma {:induction false} StepUnended(name: seq<byte>, pat: seq<byte>, line: seq<byte>, rest: seq<byte>)
    requires OneLine(line) && |line| <= BUFSIZE
    requires |line| < BUFSIZE ==> rest == []
    ensures Grepped(name, pat, line + rest) == Hit(name, pat, line) + Grepped(name, pat, rest)
  {
    if |line| == BUFSIZE {
      GreppedFull(name, pat, line, rest);
    } else {
      assert line + rest == line;
      GreppedLast(name, pat, line);
      GreppedNothing(name, pat);
    }
  }

  // The byte past a full buffer, where the search for a newline can end, is
  // none itself.  No read reaches it, and at first the stack decides.
  predicate Sealed(data: seq<byte>)
    requires |data| == BUFSIZE + 1
  {
    data[BUFSIZE] != NL
  }

  // A full buffer ends inside a line.
  predicate EndsInside(data: seq<byte>, last: nat)
    requires |data| == BUFSIZE + 1
  {
    last == BUFSIZE && data[BUFSIZE - 1] != NL
  }

  method LineEnd(data: array<byte>, start: nat, last: nat) returns (end: nat)
    requires start <= last < data.Length
    ensures start <= end <= last && OneLine(data[start..end])
    ensures end < last ==> data[end] == NL
  {
    end := start;
    while end < last && data[end] != NL
      invariant start <= end <= last
      invariant OneLine(data[start..end])
    {
      end := end + 1;
    }
  }

  // Move the unfinished line data[start..last] to the front.
  method CarryDown(data: array<byte>, start: nat, last: nat, end: nat)
    requires start <= end <= last < data.Length == BUFSIZE + 1
    modifies data
    ensures data[BUFSIZE] == if end == BUFSIZE then NUL else old(data[BUFSIZE])
    ensures end == last && NulFree(old(data[start..last])) ==> data[..last - start] == old(data[start..last])
  {
    data[end] := NUL;
    FindBounded(data[start..], NUL, end - start);
    ghost var was := data[..];
    ghost var len := Find(was[start..], NUL);
    assert was[start..][len] == was[start + len];
    assert forall k :: start <= k < start + len ==> was[k] == was[start..][k - start];
    assert was[start..end] == old(data[start..end]);
    StrCpyDown(data, start, len);
    if end == last {
      CarryResult(was, data[..], start, last, len);
    }
  }

  lemma {:induction false} CarryResult(was: seq<byte>, after: seq<byte>, start: nat, last: nat, len: nat)
    requires start + len <= last < |was| == |after|
    requires was[last] == NUL && was[start + len] == NUL
    requires forall k :: 0 <= k <= len ==> after[k] == was[start + k]
    requires forall k :: len < k < |after| ==> after[k] == was[k]
    ensures NulFree(was[start..last]) ==> after[..last - start] == was[start..last]
  {
    assert forall k :: start <= k < last ==> was[k] == was[start..last][k - start];
  }

  // Close the line data[start..end] and search it.
  method ScanLine(con: Console, data: array<byte>, s: seq<byte>, fname: seq<byte>, start: nat, end: nat, last: nat,
                  ghost rest: seq<byte>, ghost good: bool)
    requires NUL in s && NUL in fname
    requires start <= end <= last < data.Length == BUFSIZE + 1 && OneLine(data[start..end])
    requires end < last ==> data[end] == NL
    requires good ==> NulFree(data[start..last])
    requires good && end == last && end - start < BUFSIZE ==> rest == []
    modifies con, data
    ensures data[BUFSIZE] == if end == BUFSIZE then NUL else old(data[BUFSIZE])
    ensures data[Min(end + 1, last)..last] == old(data[Min(end + 1, last)..last])
    ensures good ==> NulFree(data[Min(end + 1, last)..last])
    ensures good ==> con.out + Grepped(CString(fname), CString(s), data[Min(end + 1, last)..last] + rest) ==
                     old(con.out + Grepped(CString(fname), CString(s), data[start..last] + rest))
  {
    hide Grepped, Hit, CString;
    ghost var name, pat := CString(fname), CString(s);
    ghost var was := data[..];
    ghost var line := was[start..end];
    data[end] := NUL;
    assert data[start..end] == line;
    SearchLine(con, data, s, fname, start, end);
    ghost var next := Min(end + 1, last);
    assert data[next..last] == was[next..last];
    if good {
      assert forall k :: start <= k < last ==> was[k] == was[start..last][k - start];
      assert con.out == old(con.out) + Hit(name, pat, line);
      if end < last {
        StepLine(name, pat, was, start, end, last, rest);
      } else {
        StepUnended(name, pat, line, rest);
        assert was[next..last] + rest == rest;
      }
      assert con.out + Grepped(name, pat, was[next..last] + rest) ==
             old(con.out) + (Hit(name, pat, line) + Grepped(name, pat, was[next..last] + rest));
    }
  }

  lemma {:induction false} LastOfSlice(a: seq<byte>, b: seq<byte>, lo: nat, hi: nat)
    requires lo < hi <= |a| == |b| && a[lo..hi] == b[lo..hi]
    ensures a[hi - 1] == b[hi - 1]
  {
    assert a[lo..hi][hi - lo - 1] == b[lo..hi][hi - lo - 1];
  }

  // The buffer holds `last` bytes, the final `cnt` of them just read, and
  // `rest` is still in the file.  Search every line that is complete and keep
  // what may continue in the next read.  What has been written and what is
  // still to be written always add up to the same report.  `good` says that
  // the text has no NUL bytes, and the buffer is sealed or the file at its end.
  method ScanBuffer(con: Console, data: array<byte>, s: seq<byte>, fname: seq<byte>, last: nat, cnt: nat,
                    ghost rest: seq<byte>, ghost good: bool) returns (left: nat)
    requires NUL in s && NUL in fname
    requires data.Length == BUFSIZE + 1 && cnt <= last <= BUFSIZE && (cnt == 0 ==> last < BUFSIZE)
    requires good ==> NulFree(data[..last]) && (Sealed(data[..]) || rest == [])
    requires good && last < BUFSIZE ==> rest == []
    modifies con, data
    ensures left < BUFSIZE && (cnt == 0 ==> left == 0)
    ensures Sealed(data[..]) == old(Sealed(data[..]) || EndsInside(data[..], last))
    ensures !old(Sealed(data[..])) && last == BUFSIZE ==> left == 0
    ensures good ==> NulFree(data[..left])
    ensures good ==> con.out + Grepped(CString(fname), CString(s), data[..left] + rest) ==
                     old(con.out + Grepped(CString(fname), CString(s), data[..last] + rest))
  {
    hide Grepped, CString;
    ghost var name, pat := CString(fname), CString(s);
    ghost var total := con.out + Grepped(name, pat, data[..last] + rest);
    var start := 0;
    assert data[0..last] == data[..last];
    while true
      invariant 0 <= start <= last && (start == 0 || start < last)
      invariant data[BUFSIZE] == old(data[BUFSIZE]) && data[start..last] == old(data[start..last])
      invariant good ==> NulFree(data[start..last])
      invariant good ==> con.out + Grepped(name, pat, data[start..last] + rest) == total
      decreases last - start
    {
      var end := LineEnd(data, start, last);
      if start < last {
        LastOfSlice(data[..], old(data[..]), start, last);
        assert data[last - 1] == old(data[..])[last - 1];
        assert end == last ==> data[start..end][end - start - 1] == data[last - 1] != NL;
      }
      if data[end] != NL && cnt != 0 && start != 0 {
        CarryDown(data, start, last, end);
        left := last - start;
        return;
      }
      ScanLine(con, data, s, fname, start, end, last, rest, good);
      start := end + 1;
      if start >= last {
        left := 0;
        assert data[..left] == data[Min(start, last)..last];
        return;
      }
    }
  }

  predicate Openable(fs: Image, name: seq<byte>) {
    var e := Lookup(fs.entries, name);
    e.Some? && KindOf(e.value.ftype).Some?
  }

  // Every byte of the file can be read.
  ghost predicate CanRead(fs: Image, name: seq<byte>)
    requires ValidImage(fs)
  {
    && Openable(fs, name)
    && var e := Lookup(fs.entries, name).value;
       e.ftype == FTYPE_FILE ==> Readable(fs, e.inode)
  }

  ghost function ContentOf(fs: Image, name: seq<byte>): seq<byte>
    requires ValidImage(fs) && CanRead(fs, name)
  {
    var e := Lookup(fs.entries, name).value;
    match KindOf(e.ftype).value
    case Rtc => []
    case Dir => Listing(fs)
    case File => FileBytes(fs, e.inode)
  }

  method OpenFile(fs: Image, fname: seq<byte>) returns (d: Descriptor?)
    requires ValidImage(fs) && NUL in fname
    ensures d == null <==> !Openable(fs, CString(fname))
    ensures d != null ==> fresh(d) && d.Valid() && d.fs == fs && d.pos == 0
    ensures d != null ==> var e := Lookup(fs.entries, CString(fname)).value;
                          KindOf(e.ftype) == Some(d.kind) && d.inode == e.inode
  {
    var dentry := ReadDentryByName(fs, fname);
    if dentry.None? {
      return null;
    }
    var kind := KindOf(dentry.value.ftype);
    if kind.None? {
      return null;
    }
    d := new Descriptor(fs, kind.value, dentry.value.inode);
  }

  const OPEN_FAILED: seq<byte> := [0x66, 0x69, 0x6C, 0x65, 0x20, 0x6F, 0x70, 0x65, 0x6E, 0x20, 0x66, 0x61, 0x69, 0x6C, 0x65, 0x64, NL]
  const READ_FAILED: seq<byte> := [0x66, 0x69, 0x6C, 0x65, 0x20, 0x72, 0x65, 0x61, 0x64, 0x20, 0x66, 0x61, 0x69, 0x6C, 0x65, 0x64, NL]

  // A newline behind the buffer ends the line that the first full buffer ends
  // inside of: how much of the text comes before that cut.
  function StaleCut(t: seq<byte>): (k: nat)
    ensures k <= |t|
    decreases |t|
  {
    if |t| < BUFSIZE then |t|
    else if t[BUFSIZE - 1] != NL then BUFSIZE
    else BUFSIZE + StaleCut(t[BUFSIZE..])
  }

  // What the program writes about a file, for a sealed buffer and for any other.
  function Written(name: seq<byte>, pat: seq<byte>, t: seq<byte>, seal: bool): seq<byte> {
    if seal then Grepped(name, pat, t)
    else Grepped(name, pat, t[..StaleCut(t)]) + Grepped(name, pat, t[StaleCut(t)..])
  }

  // That makes no difference to a text that does not fill the buffer.
  lemma {:induction false} ShortIsWritten(name: seq<byte>, pat: seq<byte>, t: seq<byte>, seal: bool)
    requires |t| < BUFSIZE
    ensures Written(name, pat, t, seal) == Grepped(name, pat, t)
  {
    assert t[..|t|] == t && t[|t|..] == [];
    GreppedNothing(name, pat);
  }

  // Complete lines are reported by themselves.
  lemma {:induction false} GreppedLines(name: seq<byte>, pat: seq<byte>, a: seq<byte>, b: seq<byte>)
    requires a == [] || a[|a| - 1] == NL
    ensures Grepped(name, pat, a + b) == Grepped(name, pat, a) + Grepped(name, pat, b)
    decreases |a|
  {
    hide Grepped, Hit;
    if a == [] {
      assert a + b == b;
      GreppedNothing(name, pat);
    } else {
      var k := Find(a, NL);
      if k < BUFSIZE {
        var line, u := a[..k], a[k + 1..];
        assert a == line + [NL] + u && a + b == line + [NL] + (u + b);
        GreppedLine(name, pat, line, u);
        GreppedLine(name, pat, line, u + b);
        GreppedLines(name, pat, u, b);
      } else {
        var line, u := a[..BUFSIZE], a[BUFSIZE..];
        assert OneLine(line) by {
          assert forall i :: 0 <= i < BUFSIZE ==> line[i] == a[i] != NL;
        }
        assert a == line + u && a + b == line + (u + b);
        GreppedFull(name, pat, line, u);
        GreppedFull(name, pat, line, u + b);
        GreppedLines(name, pat, u, b);
      }
    }
  }

  // An unsealed buffer, once it is full, is reported by itself.
  lemma {:induction false} WrittenFull(name: seq<byte>, pat: seq<byte>, x: seq<byte>, u: seq<byte>)
    requires |x| == BUFSIZE
    ensures Written(name, pat, x + u, false) == Grepped(name, pat, x) + Written(name, pat, u, x[BUFSIZE - 1] != NL)
  {
    hide Grepped;
    assert (x + u)[..BUFSIZE] == x && (x + u)[BUFSIZE..] == u;
    if x[BUFSIZE - 1] == NL {
      var k := StaleCut(u);
      assert (x + u)[..BUFSIZE + k] == x + u[..k] && (x + u)[BUFSIZE + k..] == u[k..];
      GreppedLines(name, pat, x, u[..k]);
    }
  }

  // Search one file.  It succeeds exactly when the file can be read to its
  // end; then, if the file has no NUL bytes, what it has written is the report
  // on the file's pieces, cut once more if the buffer is not sealed.  The
  // buffer holds whatever the stack did.  Termination: every read asks for at
  // least one byte.
  method DoOneFile(fs: Image, con: Console, s: seq<byte>, fname: seq<byte>) returns (ret: int, ghost seal: bool)
    requires ValidImage(fs) && NUL in s && NUL in fname
    modifies con
    ensures ret == if CanRead(fs, CString(fname)) then 0 else -1
    ensures !Openable(fs, CString(fname)) ==> con.out == old(con.out) + OPEN_FAILED
    ensures CanRead(fs, CString(fname)) && NulFree(ContentOf(fs, CString(fname))) ==>
              con.out == old(con.out) + Written(CString(fname), CString(s), ContentOf(fs, CString(fname)), seal)
  {
    var data := new byte[BUFSIZE + 1];
    seal := Sealed(data[..]);
    var d := OpenFile(fs, fname);
    if d == null {
      Terminated(OPEN_FAILED, []);
      con.FdPuts(OPEN_FAILED + [NUL]);
      return -1, seal;
    }
    ghost var good := d.WellFormed() && NulFree(d.Content());
    ret := SearchFile(d, con, s, fname, data, if good then d.Content() else [], good);
  }

  // What is still to be read can be cut only if a buffer starts with it.
  ghost predicate AtCut(data: seq<byte>, last: nat, d: Descriptor)
    requires |data| == BUFSIZE + 1
    reads d
  {
    Sealed(data) || last == 0 || d.pos == d.Length()
  }

  // The read loop.
  method SearchFile(d: Descriptor, con: Console, s: seq<byte>, fname: seq<byte>, data: array<byte>,
                    ghost file: seq<byte>, ghost good: bool) returns (ret: int)
    requires d.Valid() && d.pos == 0 && NUL in s && NUL in fname
    requires data.Length == BUFSIZE + 1
    requires good ==> d.WellFormed() && file == d.Content() && NulFree(file)
    modifies con, data, d`pos
    ensures ret == if d.WellFormed() then 0 else -1
    ensures good ==> con.out == old(con.out) + Written(CString(fname), CString(s), file, old(Sealed(data[..])))
  {
    ghost var total := con.out + Written(CString(fname), CString(s), file, Sealed(data[..]));
    var last: nat := 0;
    assert data[..0] + file[0..] == file;
    hide Written, Grepped;
    while true
      invariant last < BUFSIZE && d.Valid()
      invariant good ==> NulFree(data[..last]) && AtCut(data[..], last, d)
      invariant good ==> con.out + Written(CString(fname), CString(s), data[..last] + file[d.pos..], Sealed(data[..])) == total
      decreases d.Length() - d.pos
    {
      var cnt;
      cnt, last := Round(d, con, s, fname, data, last, file, good);
      if cnt == -1 {
        con.FdPuts(READ_FAILED + [NUL]);
        return -1;
      }
      if cnt == 0 {
        if good {
          assert data[..last] + file[d.pos..] == [];
          ShortIsWritten(CString(fname), CString(s), [], Sealed(data[..]));
          GreppedNothing(CString(fname), CString(s));
        }
        return 0;
      }
    }
  }

  // One round: read, then search what is in the buffer.
  method Round(d: Descriptor, con: Console, s: seq<byte>, fname: seq<byte>, data: array<byte>, last: nat,
               ghost file: seq<byte>, ghost good: bool) returns (cnt: int, left: nat)
    requires d.Valid() && NUL in s && NUL in fname
    requires data.Length == BUFSIZE + 1 && last < BUFSIZE
    requires good ==> d.WellFormed() && file == d.Content() && NulFree(file)
    requires good ==> NulFree(data[..last]) && AtCut(data[..], last, d)
    modifies con, data, d`pos
    ensures d.Valid() && left < BUFSIZE
    ensures cnt == -1 ==> !d.WellFormed()
    ensures cnt != -1 ==> cnt >= 0 && d.pos == old(d.pos) + cnt
    ensures cnt == 0 ==> d.WellFormed() && left == 0 && d.pos == d.Length()
    ensures good ==> NulFree(data[..left]) && AtCut(data[..], left, d)
    ensures good ==> con.out + Written(CString(fname), CString(s), data[..left] + file[d.pos..], Sealed(data[..])) ==
                     old(con.out + Written(CString(fname), CString(s), data[..last] + file[d.pos..], Sealed(data[..])))
  {
    hide Written, Grepped;
    cnt := Fill(d, data, last, file, good);
    left := last;
    if cnt != -1 {
      ghost var text := data[..last + cnt];
      ghost var more := if good then file[d.pos..] else [];
      ghost var rest := if Sealed(data[..]) then more else [];
      ghost var seal, out := Sealed(data[..]), con.out;
      left := ScanBuffer(con, data, s, fname, last + cnt, cnt, rest, good);
      if good {
        RoundBalance(CString(fname), CString(s), out, con.out, text, data[..left], more, seal, Sealed(data[..]));
      }
    }
  }

  // Nothing is lost between one full buffer and the next.
  lemma {:induction false} RoundBalance(name: seq<byte>, pat: seq<byte>, before: seq<byte>, after: seq<byte>,
                                        text: seq<byte>, left: seq<byte>, more: seq<byte>, was: bool, seal: bool)
    requires |text| <= BUFSIZE && |left| < BUFSIZE && (|text| < BUFSIZE ==> more == [])
    requires seal == (was || (|text| == BUFSIZE && text[BUFSIZE - 1] != NL))
    requires !was && |text| == BUFSIZE ==> left == []
    requires var rest := if was then more else [];
             after + Grepped(name, pat, left + rest) == before + Grepped(name, pat, text + rest)
    ensures after + Written(name, pat, left + more, seal) == before + Written(name, pat, text + more, was)
  {
    assert was ==> Written(name, pat, left + more, true) == Grepped(name, pat, left + more);
    assert was ==> Written(name, pat, text + more, true) == Grepped(name, pat, text + more);
    hide Grepped, Written;
    if !was {
      assert left + [] == left && text + [] == text;
      if |text| < BUFSIZE {
        assert left + more == left && text + more == text;
        ShortIsWritten(name, pat, left, seal);
        ShortIsWritten(name, pat, text, was);
      } else {
        FullBalance(name, pat, before, after, text, left, more, seal);
      }
    }
  }

  lemma {:induction false} FullBalance(name: seq<byte>, pat: seq<byte>, before: seq<byte>, after: seq<byte>,
                                       text: seq<byte>, left: seq<byte>, more: seq<byte>, seal: bool)
    requires |text| == BUFSIZE && left == [] && seal == (text[BUFSIZE - 1] != NL)
    requires after + Grepped(name, pat, []) == before + Grepped(name, pat, text)
    ensures after + Written(name, pat, left + more, seal) == before + Written(name, pat, text + more, false)
  {
    hide Written;
    GreppedNothing(name, pat);
    hide Grepped;
    assert left + more == more && after + [] == after;
    WrittenFull(name, pat, text, more);
    var g, w := Grepped(name, pat, text), Written(name, pat, more, seal);
    assert before + g + w == before + (g + w);
  }

  // Read as much as the buffer has room for behind its first `last` bytes.
  method Fill(d: Descriptor, data: array<byte>, last: nat, ghost file: seq<byte>, ghost good: bool) returns (cnt: int)
    requires d.Valid() && data.Length == BUFSIZE + 1 && last < BUFSIZE
    requires good ==> d.WellFormed() && file == d.Content() && NulFree(file)
    requires good ==> NulFree(data[..last])
    modifies d`pos, data
    ensures d.Valid()
    ensures cnt == -1 ==> !d.WellFormed()
    ensures cnt != -1 ==> 0 <= cnt <= BUFSIZE - last && d.pos == old(d.pos) + cnt && data[BUFSIZE] == old(data[BUFSIZE])
    ensures cnt != -1 && last + cnt < BUFSIZE ==> d.pos == d.Length()
    ensures cnt == 0 ==> d.WellFormed()
    ensures good ==> data[..last + cnt] + file[d.pos..] == old(data[..last]) + file[old(d.pos)..]
    ensures good ==> NulFree(data[..last + cnt])
  {
    ghost var before, at := data[..], d.pos;
    cnt := d.Read(data, last, BUFSIZE - last);
    assert cnt != -1 ==> data[last + cnt..][BUFSIZE - last - cnt] == before[last + cnt..][BUFSIZE - last - cnt];
    if good {
      FillBalance(before, data[..], file, last, cnt, at);
    }
  }

  lemma {:induction false} FillBalance(before: seq<byte>, after: seq<byte>, file: seq<byte>, last: nat, cnt: nat, at: nat)
    requires last + cnt <= |before| == |after| && at + cnt <= |file|
    requires after[..last] == before[..last] && after[last + cnt..] == before[last + cnt..]
    requires after[last..last + cnt] == file[at..at + cnt]
    requires NulFree(file) && NulFree(before[..last])
    ensures after[..last + cnt] + file[at + cnt..] == before[..last] + file[at..]
    ensures NulFree(after[..last + cnt])
  {
  }
}
