// The whole program: search every file the directory lists.
module GrepDirectory {
  import opened Text
  import opened FileSystem
  import opened Directory
  import opened Grep
  import K = Kernel

  const SBUFSIZE := 33
  const DIR_OPEN_FAILED: seq<byte> := [0x64, 0x69, 0x72, 0x65, 0x63, 0x74, 0x6F, 0x72, 0x79, 0x20, 0x6F, 0x70, 0x65, 0x6E, 0x20,
                                       0x66, 0x61, 0x69, 0x6C, 0x65, 0x64, NL]

  const ARGUMENT_FAILED: seq<byte> := [0x63, 0x6F, 0x75, 0x6C, 0x64, 0x20, 0x6E, 0x6F, 0x74, 0x20, 0x72, 0x65, 0x61, 0x64, 0x20,
                                       0x61, 0x72, 0x67, 0x75, 0x6D, 0x65, 0x6E, 0x74, NL]

  // Names that begin with a dot are passed over.
  predicate Hidden(e: DirEntry) {
    e.name != [] && e.name[0] == DOT
  }

  ghost predicate Legible(fs: Image, e: DirEntry)
    requires ValidImage(fs)
  {
    Hidden(e) || CanRead(fs, NameOf(e))
  }

  // Files without NUL bytes.
  ghost predicate Textual(fs: Image, e: DirEntry)
    requires ValidImage(fs)
  {
    Hidden(e) || (CanRead(fs, NameOf(e)) && NulFree(ContentOf(fs, NameOf(e))))
  }

  ghost predicate AllLegible(fs: Image, es: seq<DirEntry>)
    requires ValidImage(fs)
  {
    forall i :: 0 <= i < |es| ==> Legible(fs, es[i])
  }

  ghost predicate AllTextual(fs: Image, es: seq<DirEntry>)
    requires ValidImage(fs)
  {
    forall i :: 0 <= i < |es| ==> Textual(fs, es[i])
  }

  // The reports on the listed files, in the directory's order; seals[i] says
  // how the stack found the buffer when file i was searched.
  ghost function Reports(fs: Image, pat: seq<byte>, es: seq<DirEntry>, seals: seq<bool>): seq<byte>
    requires ValidImage(fs) && AllTextual(fs, es) && |seals| == |es|
    decreases |es|
  {
    if es == [] then []
    else
      var n := |es| - 1;
      assert Textual(fs, es[n]);
      Reports(fs, pat, es[..n], seals[..n]) + ReportOn(fs, pat, es[n], seals[n])
  }

  ghost function ReportOn(fs: Image, pat: seq<byte>, e: DirEntry, seal: bool): seq<byte>
    requires ValidImage(fs) && Textual(fs, e)
  {
    if Hidden(e) then [] else Written(NameOf(e), pat, ContentOf(fs, NameOf(e)), seal)
  }

  // A name that begins with a dot is not searched, and every other one is.
  lemma {:induction false} DotIsSkipped(fs: Image, pat: seq<byte>, e: DirEntry, seal: bool)
    requires ValidImage(fs) && Textual(fs, e)
    ensures ReportOn(fs, pat, e, seal) ==
            if e.name != [] && e.name[0] == 0x2E then [] else Written(NameOf(e), pat, ContentOf(fs, NameOf(e)), seal)
  {
  }

  lemma {:induction false} OneMoreReport(fs: Image, pat: seq<byte>, i: nat, seals: seq<bool>, seal: bool)
    requires ValidImage(fs) && AllTextual(fs, fs.entries) && |seals| == i < |fs.entries|
    ensures Textual(fs, fs.entries[i]) && AllTextual(fs, fs.entries[..i]) && AllTextual(fs, fs.entries[..i + 1])
    ensures Reports(fs, pat, fs.entries[..i + 1], seals + [seal]) ==
            Reports(fs, pat, fs.entries[..i], seals) + ReportOn(fs, pat, fs.entries[i], seal)
  {
    assert fs.entries[..i + 1][..i] == fs.entries[..i] && (seals + [seal])[..i] == seals;
  }

  lemma {:induction false} OneMoreLegible(fs: Image, i: nat)
    requires ValidImage(fs) && i < |fs.entries| && AllLegible(fs, fs.entries[..i])
    ensures AllLegible(fs, fs.entries[..i + 1]) <==> Legible(fs, fs.entries[i])
  {
    var es := fs.entries[..i + 1];
    assert es[i] == fs.entries[i] && es[..i] == fs.entries[..i];
    assert forall k :: 0 <= k < i ==> es[k] == fs.entries[..i][k];
  }

  // With every buffer sealed, or every file smaller than one, these are the
  // files' own reports.
  lemma {:induction false} ReportsWhenSealed(fs: Image, pat: seq<byte>, es: seq<DirEntry>, seals: seq<bool>)
    requires ValidImage(fs) && AllTextual(fs, es) && |seals| == |es|
    requires forall i :: 0 <= i < |es| ==> seals[i] || Hidden(es[i]) || |ContentOf(fs, NameOf(es[i]))| < BUFSIZE
    ensures Reports(fs, pat, es, seals) == Reports(fs, pat, es, seq(|es|, _ => true))
    decreases |es|
  {
    if es != [] {
      var n := |es| - 1;
      var all: seq<bool> := seq(|es|, _ => true);
      ReportsWhenSealed(fs, pat, es[..n], seals[..n]);
      assert all[..n] == seq(n, _ => true);
      if !Hidden(es[n]) && !seals[n] {
        ShortIsWritten(NameOf(es[n]), pat, ContentOf(fs, NameOf(es[n])), false);
      }
    }
  }

  // What the running process was given to look for.
  function PatternOf(k: K.Machine): seq<byte>
    requires 0 <= k.current < k.pcbs.Length
    reads k, k.pcbs
  {
    CString(k.pcbs[k.current].argument)
  }

  // The program as the running process: its argument is the pattern, and
  // without one nothing is searched.
  method Search(k: K.Machine, con: Console) returns (ret: int, ghost seals: seq<bool>)
    requires k.Valid() && 0 <= k.current < k.pcbs.Length && NUL in k.pcbs[k.current].argument
    requires ValidImage(k.fs)
    requires Lookup(k.fs.entries, [DOT]).Some? ==> Lookup(k.fs.entries, [DOT]).value.ftype == FTYPE_DIR
    modifies con
    ensures old(PatternOf(k)) == [] ==> ret == 3 && con.out == old(con.out) + ARGUMENT_FAILED
    ensures old(PatternOf(k)) != [] ==>
              if Lookup(k.fs.entries, [DOT]).None? then ret == 2 && con.out == old(con.out) + DIR_OPEN_FAILED
              else
                && ret == (if AllLegible(k.fs, k.fs.entries) then 0 else 3)
                && (AllTextual(k.fs, k.fs.entries) ==>
                      ret == 0 && |seals| == |k.fs.entries| && con.out == old(con.out) + Reports(k.fs, old(PatternOf(k)), k.fs.entries, seals))
  {
    hide Reports, AllTextual, AllLegible, Lookup;
    seals := [];
    var search := ReadPattern(k);
    if search.None? {
      Terminated(ARGUMENT_FAILED, []);
      con.FdPuts(ARGUMENT_FAILED + [NUL]);
      return 3, seals;
    }
    ret, seals := SearchAll(k.fs, con, search.value);
  }

  method ReadPattern(k: K.Machine) returns (search: Option<seq<byte>>)
    requires k.Valid() && 0 <= k.current < k.pcbs.Length && NUL in k.pcbs[k.current].argument
    ensures search.None? <==> PatternOf(k) == []
    ensures search.Some? ==> NUL in search.value && CString(search.value) == PatternOf(k)
  {
    ghost var pat := PatternOf(k);
    PatternFits(k);
    var buf := new byte[BUFSIZE];
    var failed := k.GetArgs(buf, BUFSIZE);
    if failed != 0 {
      return None;
    }
    assert buf[..] == pat + [NUL] + buf[|pat| + 1..];
    Terminated(pat, buf[|pat| + 1..]);
    return Some(buf[..]);
  }

  lemma {:induction false} PatternFits(k: K.Machine)
    requires k.Valid() && 0 <= k.current < k.pcbs.Length && NUL in k.pcbs[k.current].argument
    ensures |PatternOf(k)| < BUFSIZE && NulFree(PatternOf(k))
  {
  }

  // Search everything.  It succeeds exactly when every file listed, but for
  // hidden ones, can be read; then, if none has NUL bytes, it has written the
  // reports on them all, in order.
  method SearchAll(fs: Image, con: Console, search: seq<byte>) returns (ret: int, ghost seals: seq<bool>)
    requires ValidImage(fs) && NUL in search
    requires Lookup(fs.entries, [DOT]).Some? ==> Lookup(fs.entries, [DOT]).value.ftype == FTYPE_DIR
    modifies con
    ensures Lookup(fs.entries, [DOT]).None? ==> ret == 2 && con.out == old(con.out) + DIR_OPEN_FAILED
    ensures Lookup(fs.entries, [DOT]).Some? ==> ret == if AllLegible(fs, fs.entries) then 0 else 3
    ensures Lookup(fs.entries, [DOT]).Some? && AllTextual(fs, fs.entries) ==>
              ret == 0 && |seals| == |fs.entries| && con.out == old(con.out) + Reports(fs, CString(search), fs.entries, seals)
  {
    Terminated([DOT], []);
    seals := [];
    var d := OpenFile(fs, [DOT, NUL]);
    assert [DOT] + [NUL] == [DOT, NUL];
    if d == null {
      Terminated(DIR_OPEN_FAILED, []);
      con.FdPuts(DIR_OPEN_FAILED + [NUL]);
      return 2, seals;
    }
    ret, seals := SearchListed(fs, d, con, search);
  }

  method SearchListed(fs: Image, d: Descriptor, con: Console, search: seq<byte>) returns (ret: int, ghost seals: seq<bool>)
    requires d.Valid() && d.kind.Dir? && d.fs == fs && d.pos == 0 && NUL in search
    modifies con, d`pos
    ensures ret == if AllLegible(fs, fs.entries) then 0 else 3
    ensures AllTextual(fs, fs.entries) ==>
              ret == 0 && |seals| == |fs.entries| && con.out == old(con.out) + Reports(fs, CString(search), fs.entries, seals)
  {
    hide Legible, Textual, AllLegible, AllTextual, Reports, ReportOn, Searched, CString, Written;
    SearchedNone(fs, CString(search), con.out);
    seals := [];
    var buf := new byte[SBUFSIZE];
    ghost var i := 0;
    while true
      invariant d.Valid() && d.kind.Dir? && d.fs == fs && i <= |fs.entries| && d.pos == NAME_LIMIT * i
      invariant Searched(fs, CString(search), i, seals, old(con.out), con.out)
      decreases |fs.entries| - i
    {
      ghost var out := con.out;
      var more, failed, seal := SearchNext(fs, d, con, search, buf, i);
      if !more {
        SearchedAll(fs, CString(search), seals, old(con.out), con.out);
        return 0, seals;
      }
      if failed {
        SearchFailed(fs, i);
        return 3, seals;
      }
      SearchedMore(fs, CString(search), i, seals, seal, old(con.out), out, con.out);
      seals := seals + [seal];
      i := i + 1;
    }
  }

  // The first i files have been searched with success.
  ghost predicate Searched(fs: Image, pat: seq<byte>, i: nat, seals: seq<bool>, before: seq<byte>, out: seq<byte>)
    requires ValidImage(fs)
  {
    && |seals| == i <= |fs.entries| && AllLegible(fs, fs.entries[..i])
    && (AllTextual(fs, fs.entries) ==> AllTextual(fs, fs.entries[..i]) && out == before + Reports(fs, pat, fs.entries[..i], seals))
  }

  lemma {:induction false} SearchedNone(fs: Image, pat: seq<byte>, out: seq<byte>)
    requires ValidImage(fs)
    ensures Searched(fs, pat, 0, [], out, out)
  {
    assert fs.entries[..0] == [];
  }

  lemma {:induction false} SearchedMore(fs: Image, pat: seq<byte>, i: nat, seals: seq<bool>, seal: bool,
                                        before: seq<byte>, was: seq<byte>, out: seq<byte>)
    requires ValidImage(fs) && i < |fs.entries| && Searched(fs, pat, i, seals, before, was) && Legible(fs, fs.entries[i])
    requires Textual(fs, fs.entries[i]) ==> out == was + ReportOn(fs, pat, fs.entries[i], seal)
    ensures Searched(fs, pat, i + 1, seals + [seal], before, out)
  {
    OneMoreLegible(fs, i);
    hide Legible, Textual, ReportOn, AllLegible, AllTextual, Reports;
    if AllTextual(fs, fs.entries) {
      OneMoreReport(fs, pat, i, seals, seal);
      Appended(before, Reports(fs, pat, fs.entries[..i], seals), ReportOn(fs, pat, fs.entries[i], seal));
    }
  }

  lemma {:induction false} Appended(a: seq<byte>, b: seq<byte>, c: seq<byte>)
    ensures a + b + c == a + (b + c)
  {
  }

  lemma {:induction false} SearchedAll(fs: Image, pat: seq<byte>, seals: seq<bool>, before: seq<byte>, out: seq<byte>)
    requires ValidImage(fs) && Searched(fs, pat, |fs.entries|, seals, before, out)
    ensures AllLegible(fs, fs.entries)
    ensures AllTextual(fs, fs.entries) ==> |seals| == |fs.entries| && out == before + Reports(fs, pat, fs.entries, seals)
  {
    assert fs.entries[..|fs.entries|] == fs.entries;
  }

  lemma {:induction false} SearchFailed(fs: Image, i: nat)
    requires ValidImage(fs) && i < |fs.entries| && !Legible(fs, fs.entries[i])
    ensures !AllLegible(fs, fs.entries) && !AllTextual(fs, fs.entries)
  {
    assert !Textual(fs, fs.entries[i]);
  }

  // Read a name and search its file.
  method SearchNext(fs: Image, d: Descriptor, con: Console, search: seq<byte>, buf: array<byte>, ghost i: nat)
      returns (more: bool, failed: bool, ghost seal: bool)
    requires d.Valid() && d.kind.Dir? && d.fs == fs && buf.Length == SBUFSIZE && NUL in search
    requires i <= |fs.entries| && d.pos == NAME_LIMIT * i
    modifies con, d`pos, buf
    ensures d.Valid() && (more <==> i < |fs.entries|)
    ensures !more ==> con.out == old(con.out)
    ensures more ==> d.pos == NAME_LIMIT * (i + 1) && (failed <==> !Legible(fs, fs.entries[i]))
    ensures more && Textual(fs, fs.entries[i]) ==> con.out == old(con.out) + ReportOn(fs, CString(search), fs.entries[i], seal)
  {
    seal, failed := true, false;
    var cnt := NextName(fs, d, buf, i);
    more := cnt != 0;
    if more {
      var ret;
      ret, seal := SearchOne(fs, con, search, buf[..], fs.entries[i]);
      failed := ret != 0;
    }
  }

  // Read the next name of the directory into buf, terminated.
  method NextName(fs: Image, d: Descriptor, buf: array<byte>, ghost i: nat) returns (cnt: nat)
    requires d.Valid() && d.kind.Dir? && d.fs == fs && buf.Length == SBUFSIZE && i <= |fs.entries| && d.pos == NAME_LIMIT * i
    modifies d`pos, buf
    ensures d.Valid() && (cnt == 0 <==> i == |fs.entries|)
    ensures cnt != 0 ==> d.pos == NAME_LIMIT * (i + 1) && buf[..] == fs.entries[i].name + [NUL]
  {
    cnt := d.DirectoryRead(buf, 0, SBUFSIZE - 1);
    ListingChunk(fs, i);
    if cnt != 0 {
      assert buf[0..cnt] == fs.entries[i].name;
      buf[cnt] := NUL;
      assert buf[..] == buf[0..cnt] + [NUL];
    }
  }

  // One listed name: nothing for a hidden one, else its file is searched.
  method SearchOne(fs: Image, con: Console, search: seq<byte>, name: seq<byte>, ghost e: DirEntry) returns (ret: int, ghost seal: bool)
    requires ValidImage(fs) && NUL in search
    requires |e.name| == NAME_LIMIT && name == e.name + [NUL]
    modifies con
    ensures ret == 0 <==> Legible(fs, e)
    ensures Textual(fs, e) ==> con.out == old(con.out) + ReportOn(fs, CString(search), e, seal)
  {
    seal := true;
    if name[0] == DOT {
      return 0, seal;
    }
    FieldIsName(e);
    ret, seal := DoOneFile(fs, con, search, name);
  }

  lemma {:induction false} FieldIsName(e: DirEntry)
    ensures CString(e.name + [NUL]) == NameOf(e)
  {
    FindUnique(e.name + [NUL], NUL, Find(e.name, NUL));
  }
}
