// When the buffered search is the search a user expects: every line that
// contains the pattern, whole, once, and in order.
module GrepExact {
  import opened Text
  import opened Grep

  // The lines that contain the pattern, an empty pattern included.
  function Matching(pat: seq<byte>, lines: seq<seq<byte>>): seq<seq<byte>> {
    if lines == [] then []
    else (if Contains(lines[0], pat) then [lines[0]] else []) + Matching(pat, lines[1..])
  }

  function Expected(name: seq<byte>, pat: seq<byte>, t: seq<byte>): seq<byte> {
    Report(name, Matching(pat, Lines(t)))
  }

  // The lines of the text that hold the pattern fit the buffer.
  predicate MatchesFit(pat: seq<byte>, lines: seq<seq<byte>>) {
    forall i :: 0 <= i < |lines| ==> Contains(lines[i], pat) ==> |lines[i]| <= BUFSIZE
  }

  predicate AllOneLine(lines: seq<seq<byte>>) {
    forall i :: 0 <= i < |lines| ==> OneLine(lines[i])
  }

  // For every file and every name, what grep writes is what it should write
  // if the pattern is not empty and no line longer than the buffer contains it,
  lemma {:induction false} GrepIsExact(name: seq<byte>, pat: seq<byte>, t: seq<byte>)
    requires pat != [] && MatchesFit(pat, Lines(t))
    ensures Grepped(name, pat, t) == Expected(name, pat, t)
  {
    PiecesAreCutLines(t, BUFSIZE);
    FoundInLines(pat, Lines(t));
  }

  // and only if, for a name without newlines.
  lemma {:induction false} GrepIsExactIff(name: seq<byte>, pat: seq<byte>, t: seq<byte>)
    requires OneLine(name)
    ensures Grepped(name, pat, t) == Expected(name, pat, t) <==> pat != [] && MatchesFit(pat, Lines(t))
  {
    var lines := Lines(t);
    PiecesAreCutLines(t, BUFSIZE);
    LinesOneLine(t);
    if pat == [] {
      FoundEmptyPattern(Pieces(t, BUFSIZE));
      MatchingEmptyPattern(lines);
      assert Report(name, lines) == Record(name, lines[0]) + Report(name, lines[1..]);
    } else if MatchesFit(pat, lines) {
      GrepIsExact(name, pat, t);
    } else {
      var i :| 0 <= i < |lines| && Contains(lines[i], pat) && |lines[i]| > BUFSIZE;
      var found, matching := Found(pat, Pieces(t, BUFSIZE)), Matching(pat, lines);
      PieceLengths(t, BUFSIZE);
      FoundFrom(pat, Pieces(t, BUFSIZE));
      var j := MatchingHas(pat, lines, i);
      assert found != matching by {
        assert j < |found| ==> |found[j]| <= BUFSIZE;
      }
      PiecesOneLine(t, BUFSIZE);
      MatchingFrom(pat, lines);
      if Report(name, found) == Report(name, matching) {
        ReportInjective(name, found, matching);
      }
    }
  }

  // A line of 1025 bytes with the pattern is not reported as it stands.
  lemma {:induction false} LongLineIsCut()
    ensures Grepped([0x66], [0x61], seq(BUFSIZE + 1, _ => 0x61)) != Expected([0x66], [0x61], seq(BUFSIZE + 1, _ => 0x61))
  {
    var pat: seq<byte>, t: seq<byte> := [0x61], seq(BUFSIZE + 1, _ => 0x61);
    assert Find(t, NL) == |t|;
    assert Lines(t) == [t];
    assert OccursAt(Lines(t)[0], pat, 0);
    GrepIsExactIff([0x66], pat, t);
  }

  lemma {:induction false} FoundEmptyPattern(ps: seq<seq<byte>>)
    ensures Found([], ps) == []
  {
    if ps != [] {
      FoundEmptyPattern(ps[1..]);
    }
  }

  lemma {:induction false} MatchingEmptyPattern(lines: seq<seq<byte>>)
    ensures Matching([], lines) == lines
  {
    if lines != [] {
      assert OccursAt(lines[0], [], 0);
      MatchingEmptyPattern(lines[1..]);
    }
  }

  lemma {:induction false} FoundConcat(pat: seq<byte>, ps: seq<seq<byte>>, qs: seq<seq<byte>>)
    ensures Found(pat, ps + qs) == Found(pat, ps) + Found(pat, qs)
  {
    if ps == [] {
      assert ps + qs == qs;
    } else {
      assert (ps + qs)[1..] == ps[1..] + qs;
      FoundConcat(pat, ps[1..], qs);
    }
  }

  // A part of a line without the pattern does not have it either.
  lemma {:induction false} PartHasNoMatch(pat: seq<byte>, line: seq<byte>, lo: nat, hi: nat)
    requires lo <= hi <= |line| && !Contains(line, pat)
    ensures !Contains(line[lo..hi], pat)
  {
    forall k | 0 <= k <= hi - lo
      ensures !OccursAt(line[lo..hi], pat, k)
    {
      assert !OccursAt(line, pat, lo + k);
      if k + |pat| <= hi - lo {
        SliceOfSlice(line, lo, hi, k, |pat|);
      }
    }
  }

  lemma {:induction false} CutHasNoMatch(pat: seq<byte>, line: seq<byte>)
    requires !Contains(line, pat)
    ensures Found(pat, Cut(line, BUFSIZE)) == []
    decreases |line|
  {
    if |line| < BUFSIZE {
      assert [line][1..] == [];
    } else {
      PartHasNoMatch(pat, line, 0, BUFSIZE);
      PartHasNoMatch(pat, line, BUFSIZE, |line|);
      assert line[BUFSIZE..|line|] == line[BUFSIZE..];
      CutHasNoMatch(pat, line[BUFSIZE..]);
    }
  }

  lemma {:induction false} FoundInCut(pat: seq<byte>, line: seq<byte>)
    requires pat != []
    requires Contains(line, pat) ==> |line| <= BUFSIZE
    ensures Found(pat, Cut(line, BUFSIZE)) == if Contains(line, pat) then [line] else []
  {
    if !Contains(line, pat) {
      CutHasNoMatch(pat, line);
    } else if |line| < BUFSIZE {
      assert [line][1..] == [];
    } else {
      assert line[..BUFSIZE] == line && line[BUFSIZE..] == [];
      assert !Contains([], pat);
      CutHasNoMatch(pat, []);
      assert Cut(line, BUFSIZE) == [line] + Cut([], BUFSIZE);
      FoundConcat(pat, [line], Cut([], BUFSIZE));
      assert [line][1..] == [];
    }
  }

  lemma {:induction false} FoundInLines(pat: seq<byte>, lines: seq<seq<byte>>)
    requires pat != [] && MatchesFit(pat, lines)
    ensures Found(pat, CutAll(lines, BUFSIZE)) == Matching(pat, lines)
  {
    if lines != [] {
      FoundInCut(pat, lines[0]);
      FoundInLines(pat, lines[1..]);
      FoundConcat(pat, Cut(lines[0], BUFSIZE), CutAll(lines[1..], BUFSIZE));
    }
  }

  lemma {:induction false} FoundFrom(pat: seq<byte>, ps: seq<seq<byte>>)
    ensures forall j :: 0 <= j < |Found(pat, ps)| ==> Found(pat, ps)[j] in ps
  {
    if ps != [] {
      FoundFrom(pat, ps[1..]);
    }
  }

  lemma {:induction false} MatchingFrom(pat: seq<byte>, ps: seq<seq<byte>>)
    ensures forall j :: 0 <= j < |Matching(pat, ps)| ==> Matching(pat, ps)[j] in ps
  {
    if ps != [] {
      MatchingFrom(pat, ps[1..]);
    }
  }

  lemma {:induction false} MatchingHas(pat: seq<byte>, lines: seq<seq<byte>>, i: nat) returns (j: nat)
    requires i < |lines| && Contains(lines[i], pat)
    ensures j < |Matching(pat, lines)| && Matching(pat, lines)[j] == lines[i]
  {
    if i == 0 {
      j := 0;
    } else {
      j := MatchingHas(pat, lines[1..], i - 1);
      if Contains(lines[0], pat) {
        j := j + 1;
      }
    }
  }

  lemma {:induction false} LinesOneLine(t: seq<byte>)
    ensures AllOneLine(Lines(t))
    decreases |t|
  {
    var k := Find(t, NL);
    if k < |t| {
      LinesOneLine(t[k + 1..]);
    }
  }

  lemma {:induction false} PiecesOneLine(t: seq<byte>, n: nat)
    requires n > 0
    ensures AllOneLine(Pieces(t, n))
    decreases |t|
  {
    var k := Find(t, NL);
    if k < n && k < |t| {
      PiecesOneLine(t[k + 1..], n);
    } else if |t| >= n {
      PiecesOneLine(t[n..], n);
    }
  }

  // A report can be read back: it determines the lines reported.
  lemma {:induction false} ReportInjective(name: seq<byte>, a: seq<seq<byte>>, b: seq<seq<byte>>)
    requires OneLine(name) && AllOneLine(a) && AllOneLine(b)
    requires Report(name, a) == Report(name, b)
    ensures a == b
  {
    if a != [] && b != [] {
      RecordFirst(name, a[0], Report(name, a[1..]));
      RecordFirst(name, b[0], Report(name, b[1..]));
      ReportInjective(name, a[1..], b[1..]);
      assert a == [a[0]] + a[1..] && b == [b[0]] + b[1..];
    }
  }

  lemma {:induction false} RecordFirst(name: seq<byte>, line: seq<byte>, more: seq<byte>)
    requires OneLine(name) && OneLine(line)
    ensures var r := Record(name, line) + more;
            var k := Find(r, NL);
            |name| < k < |r| && r[|name| + 1..k] == line && r[k + 1..] == more
  {
    var r := Record(name, line) + more;
    FindUnique(r, NL, |name| + 1 + |line|);
  }
}
