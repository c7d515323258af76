// What becomes of the search when a newline stands behind the buffer: exactly
// which files it still searches line by line.
module GrepStale {
  import opened Text
  import opened Grep
  import opened GrepExact

  // The line that the cut falls into or beside.
  function CutLine(t: seq<byte>): seq<byte> {
    var k := StaleCut(t);
    LastLine(t[..k]) + Lines(t[k..])[0]
  }

  function LastLine(t: seq<byte>): seq<byte> {
    Lines(t)[|Lines(t)| - 1]
  }

  // The cut takes the end off a line with the pattern.
  predicate SplitsMatch(pat: seq<byte>, t: seq<byte>) {
    var k := StaleCut(t);
    k < |t| && t[k] != NL && Contains(CutLine(t), pat)
  }

  // The lines of two texts put together: the last and the first become one.
  predicate Meet(ls: seq<seq<byte>>, ms: seq<seq<byte>>, all: seq<seq<byte>>)
    requires |ls| >= 1 && |ms| >= 1
  {
    all == ls[..|ls| - 1] + [ls[|ls| - 1] + ms[0]] + ms[1..]
  }

  lemma {:induction false} LinesMeet(u: seq<byte>, w: seq<byte>)
    ensures Meet(Lines(u), Lines(w), Lines(u + w))
    decreases |u|
  {
    hide Meet;
    var k := Find(u, NL);
    if k == |u| {
      LinesMeetFirst(u, w);
      hide Lines;
      MeetOne(u, Lines(w));
    } else {
      var v := u[k + 1..];
      assert (u + w)[..k] == u[..k] && (u + w)[k + 1..] == v + w;
      FindUnique(u + w, NL, k);
      assert Lines(u) == [u[..k]] + Lines(v) && Lines(u + w) == [u[..k]] + Lines(v + w);
      hide Lines, Find;
      LinesMeet(v, w);
      MeetBehind(u[..k], Lines(v), Lines(w), Lines(v + w));
    }
  }

  lemma {:induction false} MeetOne(l: seq<byte>, ms: seq<seq<byte>>)
    requires |ms| >= 1
    ensures Meet([l], ms, [l + ms[0]] + ms[1..])
  {
  }

  lemma {:induction false} MeetBehind(p: seq<byte>, ls: seq<seq<byte>>, ms: seq<seq<byte>>, all: seq<seq<byte>>)
    requires |ls| >= 1 && |ms| >= 1 && Meet(ls, ms, all)
    ensures Meet([p] + ls, ms, [p] + all)
  {
    assert ([p] + ls)[..|ls|] == [p] + ls[..|ls| - 1];
  }

  lemma {:induction false} LinesMeetFirst(u: seq<byte>, w: seq<byte>)
    requires OneLine(u)
    ensures Lines(u) == [u] && Lines(u + w) == [u + Lines(w)[0]] + Lines(w)[1..]
  {
    FindUnique(u, NL, |u|);
    var k := Find(w, NL);
    FindUnique(u + w, NL, |u| + k);
    if k == |w| {
      assert Lines(w) == [w];
    } else {
      assert (u + w)[..|u| + k] == u + w[..k] && (u + w)[|u| + k + 1..] == w[k + 1..];
    }
  }

  lemma {:induction false} ReportConcat(name: seq<byte>, a: seq<seq<byte>>, b: seq<seq<byte>>)
    ensures Report(name, a + b) == Report(name, a) + Report(name, b)
  {
    if a == [] {
      assert a + b == b;
    } else {
      assert (a + b)[1..] == a[1..] + b;
      ReportConcat(name, a[1..], b);
    }
  }

  lemma {:induction false} MatchingConcat(pat: seq<byte>, a: seq<seq<byte>>, b: seq<seq<byte>>)
    ensures Matching(pat, a + b) == Matching(pat, a) + Matching(pat, b)
  {
    if a == [] {
      assert a + b == b;
    } else {
      assert (a + b)[1..] == a[1..] + b;
      MatchingConcat(pat, a[1..], b);
    }
  }

  // The lines reported for an unsealed buffer.
  function FoundCut(pat: seq<byte>, t: seq<byte>): seq<seq<byte>> {
    var k := StaleCut(t);
    Found(pat, Pieces(t[..k], BUFSIZE)) + Found(pat, Pieces(t[k..], BUFSIZE))
  }

  lemma {:induction false} WrittenIsReport(name: seq<byte>, pat: seq<byte>, t: seq<byte>)
    ensures Written(name, pat, t, false) == Report(name, FoundCut(pat, t))
  {
    var k := StaleCut(t);
    ReportConcat(name, Found(pat, Pieces(t[..k], BUFSIZE)), Found(pat, Pieces(t[k..], BUFSIZE)));
  }

  // All lines reported are lines, and none is longer than the buffer.
  lemma {:induction false} FoundFits(pat: seq<byte>, t: seq<byte>)
    ensures AllOneLine(Found(pat, Pieces(t, BUFSIZE)))
    ensures forall j :: 0 <= j < |Found(pat, Pieces(t, BUFSIZE))| ==> |Found(pat, Pieces(t, BUFSIZE))[j]| <= BUFSIZE
  {
    PieceLengths(t, BUFSIZE);
    PiecesOneLine(t, BUFSIZE);
    FoundFrom(pat, Pieces(t, BUFSIZE));
  }

  lemma {:induction false} MatchesAreLines(pat: seq<byte>, t: seq<byte>)
    ensures AllOneLine(Matching(pat, Lines(t)))
  {
    LinesOneLine(t);
    MatchingFrom(pat, Lines(t));
  }

  // The report is the expected one exactly when the lines reported are.
  lemma {:induction false} WrittenIsExpectedIff(name: seq<byte>, pat: seq<byte>, t: seq<byte>)
    requires OneLine(name)
    ensures Written(name, pat, t, false) == Expected(name, pat, t) <==> FoundCut(pat, t) == Matching(pat, Lines(t))
  {
    WrittenIsReport(name, pat, t);
    FoundFits(pat, t[..StaleCut(t)]);
    FoundFits(pat, t[StaleCut(t)..]);
    MatchesAreLines(pat, t);
    if Report(name, FoundCut(pat, t)) == Report(name, Matching(pat, Lines(t))) {
      ReportInjective(name, FoundCut(pat, t), Matching(pat, Lines(t)));
    }
  }

  lemma {:induction false} LongMatchIsMissing(pat: seq<byte>, t: seq<byte>)
    requires !MatchesFit(pat, Lines(t))
    ensures FoundCut(pat, t) != Matching(pat, Lines(t))
  {
    var i :| 0 <= i < |Lines(t)| && Contains(Lines(t)[i], pat) && |Lines(t)[i]| > BUFSIZE;
    var j := MatchingHas(pat, Lines(t), i);
    FoundFits(pat, t[..StaleCut(t)]);
    FoundFits(pat, t[StaleCut(t)..]);
    assert j < |FoundCut(pat, t)| ==> |FoundCut(pat, t)[j]| <= BUFSIZE;
  }

  // A line with one of the parts has what the part has.
  lemma {:induction false} PartsMatch(pat: seq<byte>, a: seq<byte>, b: seq<byte>)
    ensures Contains(a, pat) || Contains(b, pat) ==> Contains(a + b, pat)
  {
    assert (a + b)[0..|a|] == a && (a + b)[|a|..|a + b|] == b;
    if !Contains(a + b, pat) {
      PartHasNoMatch(pat, a + b, 0, |a|);
      PartHasNoMatch(pat, a + b, |a|, |a + b|);
    }
  }

  // When all lines with the pattern fit, the lines reported are those before
  // the cut, what is found in the two parts of the cut line, and those after.
  lemma {:induction false} FoundAroundCut(pat: seq<byte>, u: seq<byte>, w: seq<byte>)
    requires pat != [] && MatchesFit(pat, Lines(u + w))
    ensures var x, a, b, y := Lines(u)[..|Lines(u)| - 1], LastLine(u), Lines(w)[0], Lines(w)[1..];
            && Found(pat, Pieces(u, BUFSIZE)) + Found(pat, Pieces(w, BUFSIZE)) ==
               Matching(pat, x) + (Matching(pat, [a]) + Matching(pat, [b])) + Matching(pat, y)
            && Matching(pat, Lines(u + w)) == Matching(pat, x) + Matching(pat, [a + b]) + Matching(pat, y)
  {
    var x, a, b, y := Lines(u)[..|Lines(u)| - 1], LastLine(u), Lines(w)[0], Lines(w)[1..];
    LinesMeet(u, w);
    PartsMatch(pat, a, b);
    assert Lines(u) == x + [a] && Lines(w) == [b] + y;
    PartsFit(pat, x, a, b, y);
    PiecesAreCutLines(u, BUFSIZE);
    PiecesAreCutLines(w, BUFSIZE);
    FoundInLines(pat, Lines(u));
    FoundInLines(pat, Lines(w));
    hide Matching, Found, Lines, Pieces, CutAll, Contains, MatchesFit;
    MatchingConcat(pat, x, [a]);
    MatchingConcat(pat, [b], y);
    MatchingConcat(pat, x + [a + b], y);
    MatchingConcat(pat, x, [a + b]);
    FourParts(Matching(pat, x), Matching(pat, [a]), Matching(pat, [b]), Matching(pat, y));
  }

  lemma {:induction false} FourParts(x: seq<seq<byte>>, a: seq<seq<byte>>, b: seq<seq<byte>>, y: seq<seq<byte>>)
    ensures x + a + (b + y) == x + (a + b) + y
  {
  }

  lemma {:induction false} PartsFit(pat: seq<byte>, x: seq<seq<byte>>, a: seq<byte>, b: seq<byte>, y: seq<seq<byte>>)
    requires MatchesFit(pat, x + [a + b] + y) && (Contains(a, pat) || Contains(b, pat) ==> Contains(a + b, pat))
    ensures MatchesFit(pat, x + [a]) && MatchesFit(pat, [b] + y)
  {
    var all := x + [a + b] + y;
    assert all[|x|] == a + b;
    assert forall i :: 0 <= i < |x| ==> all[i] == x[i];
    assert forall i :: 0 <= i < |y| ==> all[|x| + 1 + i] == y[i];
  }

  // In place of one line, its parts: the same only when the line does not have
  // the pattern, or one part is all of it.
  lemma {:induction false} PartsInPlaceIff(pat: seq<byte>, x: seq<seq<byte>>, a: seq<byte>, b: seq<byte>, y: seq<seq<byte>>)
    requires pat != [] && a != []
    ensures x + (Matching(pat, [a]) + Matching(pat, [b])) + y == x + Matching(pat, [a + b]) + y <==>
            b == [] || !Contains(a + b, pat)
  {
    PartsMatch(pat, a, b);
    OneMatch(pat, a);
    OneMatch(pat, b);
    OneMatch(pat, a + b);
    var parts := Matching(pat, [a]) + Matching(pat, [b]);
    hide Matching;
    if b == [] {
      assert a + b == a;
      assert !Contains(b, pat);
    } else if Contains(a + b, pat) {
      assert (x + [a + b] + y)[|x|] == a + b;
      if parts != [] {
        assert (x + parts + y)[|x|] == parts[0];
        assert |parts[0]| < |a + b|;
      }
    }
  }

  lemma {:induction false} OneMatch(pat: seq<byte>, line: seq<byte>)
    ensures Matching(pat, [line]) == if Contains(line, pat) then [line] else []
  {
    assert [line][1..] == [];
  }

  lemma {:induction false} FullBufferEndsInside(t: seq<byte>)
    requires StaleCut(t) < |t|
    ensures LastLine(t[..StaleCut(t)]) != []
    decreases |t|
  {
    var k := StaleCut(t);
    CutByte(t);
    LastByte(t[..k]);
  }

  lemma {:induction false} CutByte(t: seq<byte>)
    requires StaleCut(t) < |t|
    ensures StaleCut(t) >= BUFSIZE && t[StaleCut(t) - 1] != NL
    decreases |t|
  {
    if t[BUFSIZE - 1] == NL {
      CutByte(t[BUFSIZE..]);
    }
  }

  lemma {:induction false} LastByte(u: seq<byte>)
    requires u != [] && u[|u| - 1] != NL
    ensures LastLine(u) != []
    decreases |u|
  {
    var k := Find(u, NL);
    if k < |u| {
      LastByte(u[k + 1..]);
    }
  }

  // Even with a newline behind the buffer, what grep writes is what it should
  // write if and only if the pattern is not empty, no line longer than the
  // buffer contains it, and the cut takes the end off no line that does.
  lemma {:induction false} StaleIsExactIff(name: seq<byte>, pat: seq<byte>, t: seq<byte>)
    requires OneLine(name)
    ensures Written(name, pat, t, false) == Expected(name, pat, t) <==>
            pat != [] && MatchesFit(pat, Lines(t)) && !SplitsMatch(pat, t)
  {
    WrittenIsExpectedIff(name, pat, t);
    if pat == [] {
      EmptyPatternIsMissing(t);
    } else if !MatchesFit(pat, Lines(t)) {
      LongMatchIsMissing(pat, t);
    } else {
      hide *;
      FittingIsExactIff(pat, t);
    }
  }

  lemma {:induction false} EmptyPatternIsMissing(t: seq<byte>)
    ensures FoundCut([], t) != Matching([], Lines(t))
  {
    FoundEmptyPattern(Pieces(t[..StaleCut(t)], BUFSIZE));
    FoundEmptyPattern(Pieces(t[StaleCut(t)..], BUFSIZE));
    MatchingEmptyPattern(Lines(t));
  }

  lemma {:induction false} FittingIsExactIff(pat: seq<byte>, t: seq<byte>)
    requires pat != [] && MatchesFit(pat, Lines(t))
    ensures FoundCut(pat, t) == Matching(pat, Lines(t)) <==> !SplitsMatch(pat, t)
  {
    var u, w := t[..StaleCut(t)], t[StaleCut(t)..];
    assert t == u + w;
    assert FoundCut(pat, t) == Found(pat, Pieces(u, BUFSIZE)) + Found(pat, Pieces(w, BUFSIZE));
    hide *;
    FoundAroundCut(pat, u, w);
    CutIsExactIff(pat, t, u, w);
  }

  lemma {:induction false} CutIsExactIff(pat: seq<byte>, t: seq<byte>, u: seq<byte>, w: seq<byte>)
    requires pat != [] && u == t[..StaleCut(t)] && w == t[StaleCut(t)..]
    ensures var x, a, b, y := Lines(u)[..|Lines(u)| - 1], LastLine(u), Lines(w)[0], Lines(w)[1..];
            !SplitsMatch(pat, t) <==>
            Matching(pat, x) + (Matching(pat, [a]) + Matching(pat, [b])) + Matching(pat, y) ==
            Matching(pat, x) + Matching(pat, [a + b]) + Matching(pat, y)
  {
    var x, a, b, y := Lines(u)[..|Lines(u)| - 1], LastLine(u), Lines(w)[0], Lines(w)[1..];
    if w == [] {
      assert b == [] && a + b == a && !Contains(b, pat);
      OneMatch(pat, b);
    } else {
      FullBufferEndsInside(t);
      PartsInPlaceIff(pat, Matching(pat, x), a, b, Matching(pat, y));
      assert b == [] <==> w[0] == NL;
    }
  }

  // A file that a stale newline spoils: the one line with the pattern fits the
  // buffer, but the first full buffer ends inside it.
  lemma {:induction false} StaleNewlineSplitsLine()
    ensures var t := [NL] + seq(BUFSIZE, _ => 0x61);
            && Written([0x66], [0x61], t, true) == Expected([0x66], [0x61], t)
            && Written([0x66], [0x61], t, false) != Expected([0x66], [0x61], t)
  {
    var pat: seq<byte>, line: seq<byte> := [0x61], seq(BUFSIZE, _ => 0x61);
    var t := [NL] + line;
    var u, w := t[..BUFSIZE], t[BUFSIZE..];
    assert u == [NL] + line[..BUFSIZE - 1] && w == [0x61];
    LineBehindNewline(line);
    LineBehindNewline(line[..BUFSIZE - 1]);
    LinesMeetFirst(w, []);
    assert StaleCut(t) == BUFSIZE && CutLine(t) == line[..BUFSIZE - 1] + w;
    hide Lines, Written, StaleCut;
    assert OccursAt(CutLine(t), pat, 0);
    assert MatchesFit(pat, Lines(t));
    StaleIsExactIff([0x66], pat, t);
    GrepIsExact([0x66], pat, t);
  }

  lemma {:induction false} LineBehindNewline(line: seq<byte>)
    requires OneLine(line)
    ensures Lines([NL] + line) == [[], line]
  {
    var t := [NL] + line;
    FindUnique(t, NL, 0);
    LinesMeetFirst(line, []);
    assert t[1..] == line && t[..0] == [];
  }
}
