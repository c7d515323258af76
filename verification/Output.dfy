// Where the output of processes goes, over whole runs of the kernel.
module Output {
  import opened Text
  import opened Limits
  import opened Layout
  import opened Screens
  import opened Independence
  import E = LineEditor
  import T = Typing
  import opened Process
  import opened Lifecycle
  import opened Reachable

  // The terminal that is written to: the running process's own, and the first
  // while there is none.
  function CurrentTerminal(s: State): (t: nat)
    requires Shaped(s)
    ensures t < TERM_MAX
  {
    if s.current == NONE then 0 else s.pcbs[s.current].term
  }

  // What can happen to the screens between two operations of the kernel.
  datatype Act = Says(text: seq<byte>) | Switches(term: nat)

  function Perform(v: View, s: State, a: Act): (w: View)
    requires Arranged(v) && Shaped(s)
    ensures Arranged(w)
  {
    match a
    case Says(text) => Write(v, CurrentTerminal(s), text)
    case Switches(t) => Show(v, t)
  }

  function PerformAll(v: View, s: State, acts: seq<Act>): (w: View)
    requires Arranged(v) && Shaped(s)
    ensures Arranged(w)
    decreases |acts|
  {
    if acts == [] then v else PerformAll(Perform(v, s, acts[0]), s, acts[1..])
  }

  ghost predicate AllShaped(r: Run) {
    forall i :: 0 <= i < |r.states| ==> Shaped(r.states[i])
  }

  lemma {:induction false} RunIsShaped(r: Run)
    requires FromBoot(r)
    ensures AllShaped(r)
  {
    forall i | 0 <= i < |r.states|
      ensures Shaped(r.states[i])
    {
      var h := RunKeeps(r, i);
    }
  }

  // The screens after the first n stretches, acts[k] in state k of a run.
  ghost function ScreensAfter(v: View, r: Run, acts: seq<seq<Act>>, n: nat): (w: View)
    requires Arranged(v) && AllShaped(r) && n <= |r.states| && n <= |acts|
    ensures Arranged(w)
    decreases n
  {
    if n == 0 then v else PerformAll(ScreensAfter(v, r, acts, n - 1), r.states[n - 1], acts[n - 1])
  }

  // Following parents from p leads to the shell of terminal t.
  ghost predicate InChainOf(s: State, p: int, t: nat)
    requires Shaped(s)
  {
    exists m: nat :: Up(s, p, m) == t
  }

  // Whoever runs belongs to terminal t's chain of processes.
  ghost predicate Speaks(s: State, t: nat)
    requires Shaped(s)
  {
    if s.current == NONE then t == 0 else InChainOf(s, s.current, t)
  }

  function Said(acts: seq<Act>): seq<byte> {
    if acts == [] then [] else (if acts[0].Says? then acts[0].text else []) + Said(acts[1..])
  }

  // Everything the processes of terminal t's chain write.
  ghost function TextOf(r: Run, acts: seq<seq<Act>>, t: nat, n: nat): seq<byte>
    requires AllShaped(r) && n <= |r.states| && n <= |acts|
    decreases n
  {
    if n == 0 then []
    else TextOf(r, acts, t, n - 1) + (if Speaks(r.states[n - 1], t) then Said(acts[n - 1]) else [])
  }

  // A live process is in the chain of one terminal, the one in its PCB.
  lemma {:induction false} ChainIsTerminal(s: State, h: History, p: int, t: nat)
    requires Shaped(s) && Chains(s, h) && IsLive(s, p) && t < TERM_MAX
    ensures InChainOf(s, p, t) <==> s.pcbs[p].term == t
  {
    LiveIsPlaced(s, h, p);
    UpReachesShell(s, h, p);
    if InChainOf(s, p, t) {
      var m: nat :| Up(s, p, m) == t;
      UpKeepsTerminal(s, h, p, m, t);
    }
  }

  lemma {:induction false} UpOfNone(s: State, m: nat)
    requires Shaped(s)
    ensures Up(s, NONE, m) == NONE
  {
  }

  lemma {:induction false} UpKeepsTerminal(s: State, h: History, p: int, m: nat, t: nat)
    requires Shaped(s) && Chains(s, h) && IsLive(s, p) && t < TERM_MAX && Up(s, p, m) == t
    ensures s.pcbs[p].term == t
    decreases m
  {
    LiveIsPlaced(s, h, p);
    if m > 0 {
      UpOfNone(s, m - 1);
      ParentOf(s, h, p);
      UpKeepsTerminal(s, h, s.pcbs[p].parent, m - 1, t);
    }
  }

  lemma {:induction false} SpeaksWhereItRuns(r: Run, n: nat, t: nat)
    requires FromBoot(r) && n < |r.states| && t < TERM_MAX
    ensures Shaped(r.states[n]) && (Speaks(r.states[n], t) <==> CurrentTerminal(r.states[n]) == t)
  {
    var h := RunKeeps(r, n);
    if r.states[n].current != NONE {
      ChainIsTerminal(r.states[n], h, r.states[n].current, t);
    }
  }

  lemma {:induction false} WriteLogTwice(l: Log, a: seq<byte>, b: seq<byte>)
    ensures WriteLog(WriteLog(l, a), b) == WriteLog(l, a + b)
    decreases |a|
  {
    if a == [] {
      assert a + b == b;
    } else {
      assert (a + b)[1..] == a[1..] + b;
      WriteLogTwice(PutLog(l, a[0]), a[1..], b);
    }
  }

  lemma {:induction false} PerformShows(v: View, s: State, a: Act, t: nat, l: Log)
    requires Arranged(v) && Shaped(s) && t < TERM_MAX && Shows(Alone(v, t), l)
    ensures Shows(Alone(Perform(v, s, a), t), WriteLog(l, if a.Says? && CurrentTerminal(s) == t then a.text else []))
  {
    match a {
      case Says(text) =>
        if CurrentTerminal(s) == t {
          E.WriteShows(v, t, l, text);
        } else {
          T.WriteElsewhere(v, CurrentTerminal(s), text, t);
        }
      case Switches(u) => ShowIsInvisible(v, u, t);
    }
  }

  lemma {:induction false} PerformAllShows(v: View, s: State, acts: seq<Act>, t: nat, l: Log)
    requires Arranged(v) && Shaped(s) && t < TERM_MAX && Shows(Alone(v, t), l)
    ensures Shows(Alone(PerformAll(v, s, acts), t), WriteLog(l, if CurrentTerminal(s) == t then Said(acts) else []))
    decreases |acts|
  {
    if acts != [] {
      hide Perform, Shows, Shaped;
      var text := if acts[0].Says? && CurrentTerminal(s) == t then acts[0].text else [];
      PerformShows(v, s, acts[0], t, l);
      PerformAllShows(Perform(v, s, acts[0]), s, acts[1..], t, WriteLog(l, text));
      WriteLogTwice(l, text, if CurrentTerminal(s) == t then Said(acts[1..]) else []);
    }
  }

  // In every run from boot, with any writing and switching between its
  // operations, a terminal shows what it did at first followed by what the
  // processes of its own chain have written, and nothing of the others'.
  lemma {:induction false} OutputStaysInChain(v: View, r: Run, acts: seq<seq<Act>>, n: nat, t: nat, l: Log)
    requires FromBoot(r) && n <= |r.states| && n <= |acts| && Arranged(v) && t < TERM_MAX && Shows(Alone(v, t), l)
    ensures AllShaped(r) && Shows(Alone(ScreensAfter(v, r, acts, n), t), WriteLog(l, TextOf(r, acts, t, n)))
    decreases n
  {
    hide *;
    RunIsShaped(r);
    OneMoreStretch(v, r, acts, n, t, l);
    if n > 0 {
      OutputStaysInChain(v, r, acts, n - 1, t, l);
      ActsShow(ScreensAfter(v, r, acts, n - 1), r, acts[n - 1], n - 1, t, l, TextOf(r, acts, t, n - 1));
    }
  }

  lemma {:induction false} OneMoreStretch(v: View, r: Run, acts: seq<seq<Act>>, n: nat, t: nat, l: Log)
    requires AllShaped(r) && n <= |r.states| && n <= |acts| && Arranged(v)
    ensures if n == 0 then ScreensAfter(v, r, acts, n) == v && WriteLog(l, TextOf(r, acts, t, n)) == l
            else
              && Shaped(r.states[n - 1])
              && ScreensAfter(v, r, acts, n) == PerformAll(ScreensAfter(v, r, acts, n - 1), r.states[n - 1], acts[n - 1])
              && TextOf(r, acts, t, n) == TextOf(r, acts, t, n - 1) + (if Speaks(r.states[n - 1], t) then Said(acts[n - 1]) else [])
  {
  }

  lemma {:induction false} ActsShow(v: View, r: Run, acts: seq<Act>, n: nat, t: nat, l: Log, text: seq<byte>)
    requires FromBoot(r) && n < |r.states| && Arranged(v) && t < TERM_MAX && Shaped(r.states[n])
    requires Shows(Alone(v, t), WriteLog(l, text))
    ensures Shows(Alone(PerformAll(v, r.states[n], acts), t),
                  WriteLog(l, text + (if Speaks(r.states[n], t) then Said(acts) else [])))
  {
    SpeaksWhereItRuns(r, n, t);
    hide FromBoot, Shows, PerformAll, Speaks, Shaped, Alone, CurrentTerminal;
    PerformAllShows(v, r.states[n], acts, t, WriteLog(l, text));
    hide WriteLog;
    WriteLogTwice(l, text, if CurrentTerminal(r.states[n]) == t then Said(acts) else []);
  }
}
