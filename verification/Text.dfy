// Bytes, C strings and the splitting of text into lines, shared by every
// other module.
module Text {

  type byte = b: int | 0 <= b < 256

  const NUL: byte := 0
  const NL: byte := 10
  const CR: byte := 13
  const SPACE: byte := 32
  const DOT: byte := 0x2E

  predicate NulFree(s: seq<byte>) {
    NUL !in s
  }

  predicate OneLine(s: seq<byte>) {
    NL !in s
  }

  function Min(a: int, b: int): (m: int)
    ensures m <= a && m <= b && (m == a || m == b)
  {
    if a <= b then a else b
  }

  function Max(a: int, b: int): (m: int)
    ensures m >= a && m >= b && (m == a || m == b)
  {
    if a <= b then b else a
  }

  // The index of the first x in s, or |s| when there is none.
  function Find(s: seq<byte>, x: byte): (k: nat)
    ensures k <= |s|
    ensures k < |s| ==> s[k] == x
    ensures forall i :: 0 <= i < k ==> s[i] != x
  {
    if s == [] || s[0] == x then 0 else 1 + Find(s[1..], x)
  }

  lemma FindUnique(s: seq<byte>, x: byte, k: nat)
    requires k <= |s|
    requires forall i :: 0 <= i < k ==> s[i] != x
    requires k < |s| ==> s[k] == x
    ensures Find(s, x) == k
  {
  }

  lemma {:induction false} FindBounded(s: seq<byte>, x: byte, k: nat)
    requires k < |s| && s[k] == x
    ensures Find(s, x) <= k
  {
  }

  lemma FindDrop(s: seq<byte>, x: byte, n: nat)
    requires n <= Find(s, x)
    ensures Find(s[n..], x) == Find(s, x) - n
  {
  }

  // The C string that starts at the beginning of s.
  function CString(s: seq<byte>): seq<byte> {
    s[..Find(s, NUL)]
  }

  lemma {:induction false} SliceOfSlice(s: seq<byte>, lo: nat, hi: nat, k: nat, m: nat)
    requires lo <= hi <= |s| && k + m <= hi - lo
    ensures s[lo..hi][k..k + m] == s[lo + k..lo + k + m]
  {
    var a, b := s[lo..hi][k..k + m], s[lo + k..lo + k + m];
    assert |a| == m && |b| == m;
    forall i | 0 <= i < m
      ensures a[i] == b[i]
    {
      assert a[i] == s[lo..hi][k + i] == s[lo + (k + i)];
      assert b[i] == s[lo + k + i];
    }
    assert a == b;
  }

  // The lines of a text: the pieces between newlines, an unterminated last
  // piece included.  Always at least one.
  function Lines(t: seq<byte>): (ls: seq<seq<byte>>)
    ensures |ls| >= 1
    decreases |t|
  {
    var k := Find(t, NL);
    if k == |t| then [t] else [t[..k]] + Lines(t[k + 1..])
  }

  // A line cut as soon as it holds n bytes; what is left over, possibly
  // nothing, is the last part.
  function Cut(line: seq<byte>, n: nat): (ps: seq<seq<byte>>)
    requires n > 0
    ensures |ps| >= 1
    decreases |line|
  {
    if |line| < n then [line] else [line[..n]] + Cut(line[n..], n)
  }

  function CutAll(lines: seq<seq<byte>>, n: nat): seq<seq<byte>>
    requires n > 0
  {
    if lines == [] then [] else Cut(lines[0], n) + CutAll(lines[1..], n)
  }

  // The text read left to right with a fresh piece after every newline and
  // after every n bytes.  PiecesAreCutLines: cutting the lines is the same thing.
  function Pieces(t: seq<byte>, n: nat): (ps: seq<seq<byte>>)
    requires n > 0
    ensures |ps| >= 1
    decreases |t|
  {
    var k := Find(t, NL);
    if k < n && k < |t| then [t[..k]] + Pieces(t[k + 1..], n)
    else if |t| < n then [t]
    else [t[..n]] + Pieces(t[n..], n)
  }

  lemma {:induction false} PiecesAreCutLines(t: seq<byte>, n: nat)
    requires n > 0
    ensures Pieces(t, n) == CutAll(Lines(t), n)
    decreases |t|
  {
    hide Find;
    var k := Find(t, NL);
    if k < n && k < |t| {
      PiecesAreCutLines(t[k + 1..], n);
      assert Lines(t)[1..] == Lines(t[k + 1..]);
    } else if |t| < n {
      assert CutAll([t], n) == Cut(t, n) + CutAll([], n);
    } else {
      PiecesAreCutLines(t[n..], n);
      CutFullFirst(t, n);
    }
  }

  lemma {:induction false} CutFullFirst(t: seq<byte>, n: nat)
    requires 0 < n <= Find(t, NL)
    ensures CutAll(Lines(t), n) == [t[..n]] + CutAll(Lines(t[n..]), n)
  {
    var k := Find(t, NL);
    var u := t[n..];
    FindDrop(t, NL, n);
    assert Lines(t)[0] == t[..k] && Lines(u)[0] == u[..k - n];
    assert t[..k][..n] == t[..n] && t[..k][n..] == u[..k - n];
    assert Cut(Lines(t)[0], n) == [t[..n]] + Cut(Lines(u)[0], n);
    assert Lines(t)[1..] == Lines(u)[1..] by {
      if k < |t| { assert t[k + 1..] == u[k - n + 1..]; }
    }
    CutAllHead(Lines(t), Lines(u), t[..n], n);
  }

  lemma {:induction false} CutAllHead(ls: seq<seq<byte>>, ms: seq<seq<byte>>, p: seq<byte>, n: nat)
    requires n > 0 && |ls| >= 1 && |ms| >= 1
    requires ls[1..] == ms[1..] && Cut(ls[0], n) == [p] + Cut(ms[0], n)
    ensures CutAll(ls, n) == [p] + CutAll(ms, n)
  {
  }

  // What one more byte does to the pieces.
  function Extend(ps: seq<seq<byte>>, c: byte, n: nat): seq<seq<byte>>
    requires |ps| >= 1
  {
    var last := |ps| - 1;
    if c == NL then ps + [[]]
    else if |ps[last]| + 1 < n then ps[last := ps[last] + [c]]
    else ps[last := ps[last] + [c]] + [[]]
  }

  lemma {:induction false} PiecesExtend(t: seq<byte>, c: byte, n: nat)
    requires n > 0
    ensures Pieces(t + [c], n) == Extend(Pieces(t, n), c, n)
    decreases |t|
  {
    hide Find;
    var k := Find(t, NL);
    var t' := t + [c];
    if k < n && k < |t| {
      assert t'[..k] == t[..k] && t'[k + 1..] == t[k + 1..] + [c];
      FindUnique(t', NL, k);
      PiecesExtend(t[k + 1..], c, n);
      ExtendAfter(t[..k], Pieces(t[k + 1..], n), c, n);
    } else if |t| < n {
      PiecesExtendShort(t, c, n);
    } else {
      FindUnique(t', NL, if k == |t| && c != NL then k + 1 else k);
      assert t'[..n] == t[..n] && t'[n..] == t[n..] + [c];
      PiecesExtend(t[n..], c, n);
      ExtendAfter(t[..n], Pieces(t[n..], n), c, n);
    }
  }

  lemma {:induction false} PiecesExtendShort(t: seq<byte>, c: byte, n: nat)
    requires |t| < n && Find(t, NL) == |t|
    ensures Pieces(t + [c], n) == Extend(Pieces(t, n), c, n)
  {
    var t' := t + [c];
    assert Pieces([], n) == [[]];
    FindUnique(t', NL, if c == NL then |t| else |t| + 1);
    assert t'[..|t|] == t && t'[|t| + 1..] == [];
    if c != NL && |t'| == n {
      assert t'[..n] == t' && t'[n..] == [];
    }
  }

  lemma {:induction false} ExtendAfter(p: seq<byte>, ps: seq<seq<byte>>, c: byte, n: nat)
    requires |ps| >= 1
    ensures Extend([p] + ps, c, n) == [p] + Extend(ps, c, n)
  {
  }

  predicate AtMost(ps: seq<seq<byte>>, n: nat) {
    forall i :: 0 <= i < |ps| ==> |ps[i]| <= n
  }

  // Every piece but the last is closed by a newline or by being full, so all
  // are at most n long, and the last, still open, is shorter.
  lemma {:induction false} PieceLengths(t: seq<byte>, n: nat)
    requires n > 0
    ensures AtMost(Pieces(t, n), n)
    ensures |Pieces(t, n)[|Pieces(t, n)| - 1]| < n
    decreases |t|
  {
    hide Find;
    var k := Find(t, NL);
    if k < n && k < |t| {
      PieceLengths(t[k + 1..], n);
      OneMore(t[..k], Pieces(t[k + 1..], n), n);
    } else if |t| >= n {
      PieceLengths(t[n..], n);
      OneMore(t[..n], Pieces(t[n..], n), n);
    }
  }

  lemma {:induction false} OneMore(p: seq<byte>, ps: seq<seq<byte>>, n: nat)
    requires |p| <= n && AtMost(ps, n) && |ps| >= 1
    ensures AtMost([p] + ps, n) && ([p] + ps)[|[p] + ps| - 1] == ps[|ps| - 1]
  {
  }
}
