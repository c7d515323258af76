// What holds in every reachable kernel state: three parent chains, one per
// terminal, each with one process that can run.
module Lifecycle {
  import opened Text
  import opened Limits
  import opened FileSystem
  import opened Rtc
  import opened Process

  // Where a live process stands: its terminal, its distance from that
  // terminal's shell, and, when another process started it, the frame of that
  // execute call and the caller's PCB when the call went to sleep.
  datatype Place = Place(term: nat, depth: nat, ebp: int, caller: Option<Pcb>)

  // leaf[t] is the process of terminal t that can run.
  datatype History = History(place: map<int, Place>, leaf: seq<int>)

  ghost predicate Live(h: History, p: int) {
    p in h.place
  }

  // Places are distinct, and every terminal has its shell at depth 0 and its
  // leaf, the deepest process.
  ghost predicate Tree(h: History) {
    && |h.leaf| == TERM_MAX
    && (forall p :: Live(h, p) ==> 0 <= p < PROCESS_NUM && h.place[p].term < TERM_MAX)
    && (forall p, q :: Live(h, p) && Live(h, q) && h.place[p].term == h.place[q].term && h.place[p].depth == h.place[q].depth ==> p == q)
    && (forall t :: 0 <= t < TERM_MAX ==> t in h.place && h.place[t].term == t && h.place[t].depth == 0)
    && (forall t :: 0 <= t < TERM_MAX ==> h.leaf[t] in h.place && h.place[h.leaf[t]].term == t)
  }

  // One live process: its PCB agrees with its place, and its parent is the
  // process one step closer to the shell, unchanged since it called execute.
  ghost predicate Placed(s: State, h: History, p: int)
    requires Shaped(s) && |h.leaf| == TERM_MAX && p in h.place && 0 <= p < PROCESS_NUM
  {
    var at, b := h.place[p], s.pcbs[p];
    && at.term < TERM_MAX && b.term == at.term && b.pid == p
    && (b.rtcFreq == UNSET || Supported(b.rtcFreq))
    && b.fds[STDIN].isOpen && b.fds[STDOUT].isOpen && NUL in b.argument
    && h.leaf[at.term] in h.place && at.depth <= h.place[h.leaf[at.term]].depth
    && s.queue[p] == (if p == h.leaf[at.term] then Scheduled else Loaded)
    && (if at.depth == 0 then p == at.term && b.parent == NONE
        else
          && 0 <= b.parent && b.parent in h.place && h.place[b.parent].term == at.term && h.place[b.parent].depth == at.depth - 1
          && b.basePtr == at.ebp && at.caller == Some(s.pcbs[b.parent]))
  }

  ghost predicate Free(s: State, p: int)
    requires Shaped(s) && 0 <= p < PROCESS_NUM
  {
    s.queue[p] == NotLoaded && AllClosed(s.pcbs[p].fds)
  }

  ghost predicate Chains(s: State, h: History)
    requires Shaped(s)
  {
    && Tree(h)
    && (forall p {:trigger Placed(s, h, p)} {:trigger Free(s, p)} :: 0 <= p < PROCESS_NUM ==>
          if p in h.place then Placed(s, h, p) else Free(s, p))
  }

  predicate AllClosed(fds: seq<Fd>) {
    forall i :: 0 <= i < |fds| ==> !fds[i].isOpen
  }

  // The processor is set up for the running process.
  ghost predicate Running(s: State) {
    s.current != NONE ==>
      && 0 <= s.current < |s.queue| && s.queue[s.current] == Scheduled
      && s.frame == s.current && s.esp0 == StackTop(s.current)
  }

  ghost predicate Inv(s: State, h: History) {
    Shaped(s) && Chains(s, h) && Running(s) && Consistent(s.clock)
  }

  // How a step changes the places.
  ghost function Track(s: State, h: History, e: Event): History
    requires Shaped(s) && Enabled(s, e) && Tree(h) && (s.current == NONE || s.current in h.place)
  {
    if e.Exec? && ExecuteSucceeds(s, e.command, e.program) then
      var p, at := FirstFree(s.queue), h.place[s.current];
      History(h.place[p := Place(at.term, at.depth + 1, e.ebp, Some(Step(s, e).pcbs[s.current]))], h.leaf[at.term := p])
    else if e.Exit? && s.pcbs[s.current].parent != NONE then
      History(h.place - {s.current}, h.leaf[h.place[s.current].term := s.pcbs[s.current].parent])
    else h
  }

  // The kernel's boot: three shells, every descriptor but theirs closed.
  ghost predicate Booted(s: State) {
    && Shaped(s) && s.current == NONE && Consistent(s.clock)
    && (forall p :: 0 <= p < PROCESS_NUM ==> s.queue[p] == if p < TERM_MAX then Scheduled else NotLoaded)
    && (forall p :: TERM_MAX <= p < PROCESS_NUM ==> AllClosed(s.pcbs[p].fds))
    && (forall p :: 0 <= p < TERM_MAX ==>
          var b := s.pcbs[p];
          b.pid == p && b.term == p && b.parent == NONE && b.rtcFreq == UNSET && b.schedBp == 0 && b.fds[STDIN].isOpen && b.fds[STDOUT].isOpen && NUL in b.argument
          && OnlyStdio(b.fds))
  }

  // Standard input and output are the terminal's, and nothing else is open.
  predicate OnlyStdio(fds: seq<Fd>)
    requires |fds| == MAX_NUM_FD
  {
    fds[STDIN].ops == StdinOps && fds[STDOUT].ops == StdoutOps && forall i :: 2 <= i < MAX_NUM_FD ==> !fds[i].isOpen
  }

  const SHELLS := History(map[0 := Place(0, 0, 0, None), 1 := Place(1, 0, 0, None), 2 := Place(2, 0, 0, None)], [0, 1, 2])

  lemma {:induction false} BootEstablishes(s: State)
    requires Booted(s)
    ensures Inv(s, SHELLS)
  {
    ShellsTree();
    forall p | 0 <= p < PROCESS_NUM
      ensures if p in SHELLS.place then Placed(s, SHELLS, p) else Free(s, p)
    {
      assert s.queue[p] == if p < TERM_MAX then Scheduled else NotLoaded;
    }
  }

  lemma {:induction false} ShellsTree()
    ensures Tree(SHELLS)
    ensures forall p :: p in SHELLS.place <==> 0 <= p < TERM_MAX
    ensures forall p :: 0 <= p < TERM_MAX ==> SHELLS.place[p] == Place(p, 0, 0, None) && SHELLS.leaf[p] == p
  {
    assert SHELLS.place.Keys == {0, 1, 2};
  }

  // The scan of the queue finds the nearest scheduled process: it is
  // scheduled, and no scheduled process comes sooner.
  lemma {:induction false} NextNearest(queue: seq<Load>, cur: int, i: int, k: int) returns (j: int)
    requires |queue| == PROCESS_NUM && 1 <= i <= k <= 5 && -1 <= cur
    requires queue[(cur + k) % PROCESS_NUM].Scheduled?
    ensures queue[Next(queue, cur, i)].Scheduled?
    ensures i <= j <= k && Next(queue, cur, i) == (cur + j) % PROCESS_NUM
    decreases 5 - i
  {
    if queue[(cur + i) % PROCESS_NUM].Scheduled? {
      j := i;
    } else {
      j := NextNearest(queue, cur, i + 1, k);
    }
  }

  // How far q comes after cur in cyclic order.
  function Distance(q: int, cur: int): (d: int)
    ensures 0 <= d < PROCESS_NUM
  {
    (q - cur) % PROCESS_NUM
  }

  lemma {:induction false} NextIsCloser(queue: seq<Load>, cur: int, q: int)
    requires |queue| == PROCESS_NUM && 0 <= cur < PROCESS_NUM && 0 <= q < PROCESS_NUM && q != cur
    requires queue[q].Scheduled?
    ensures var n := Next(queue, cur, 1);
            queue[n].Scheduled? && n != cur && (n == q || Distance(q, n) < Distance(q, cur))
  {
    var k := Distance(q, cur);
    assert (cur + k) % PROCESS_NUM == q;
    var j := NextNearest(queue, cur, 1, k);
  }

  // Whatever process is set aside, another one can run.
  lemma {:induction false} SomeOther(s: State, h: History, cur: int) returns (q: int)
    requires Shaped(s) && Chains(s, h)
    ensures 0 <= q < PROCESS_NUM && q != cur && s.queue[q].Scheduled?
  {
    q := if h.leaf[0] != cur then h.leaf[0] else h.leaf[1];
    assert Placed(s, h, q);
  }

  lemma {:induction false} SchedFinds(s: State, q: int)
    requires Shaped(s) && 0 <= q < PROCESS_NUM && q != s.current && s.queue[q].Scheduled?
    requires s.current == NONE ==> q < 5
    ensures s.queue[Next(s.queue, s.current, 1)].Scheduled?
  {
    if s.current == NONE {
      var j := NextNearest(s.queue, -1, 1, q + 1);
    } else {
      NextIsCloser(s.queue, s.current, q);
    }
  }

  lemma {:induction false} SchedKeeps(s: State, h: History, bp: int, sp: int)
    requires Inv(s, h)
    ensures Inv(Sched(s, bp, sp), h)
  {
    var q := SomeOther(s, h, if s.current == NONE then 5 else s.current);
    SchedFinds(s, q);
    var r := Sched(s, bp, sp);
    SetFreqReachesHardware(s.clock, r.pcbs[r.current].rtcFreq);
    if s.current == NONE {
      SamePcbs(s, h, r);
    } else {
      RunnerIsNobodysParent(s, h);
      RunnerMayChange(s, h, r);
    }
  }

  lemma {:induction false} PlacedOrFree(s: State, h: History, p: int)
    requires Shaped(s) && Chains(s, h) && 0 <= p < PROCESS_NUM
    ensures if p in h.place then Placed(s, h, p) else Free(s, p)
  {
  }

  lemma {:induction false} UnloadedIsFree(s: State, h: History, p: int)
    requires Shaped(s) && Chains(s, h) && 0 <= p < PROCESS_NUM && s.queue[p] == NotLoaded
    ensures p !in h.place && Free(s, p)
  {
    PlacedOrFree(s, h, p);
  }

  // The running process has no child, so no place remembers its PCB.
  lemma {:induction false} RunnerIsNobodysParent(s: State, h: History)
    requires Shaped(s) && Chains(s, h) && Running(s) && s.current != NONE
    ensures s.current in h.place && Placed(s, h, s.current) && h.leaf[h.place[s.current].term] == s.current
    ensures forall p :: 0 <= p < PROCESS_NUM && p in h.place ==> s.pcbs[p].parent != s.current
  {
    PlacedOrFree(s, h, s.current);
    forall p | 0 <= p < PROCESS_NUM && p in h.place
      ensures s.pcbs[p].parent != s.current
    {
      assert Placed(s, h, p);
    }
  }

  lemma {:induction false} SamePcbs(s: State, h: History, r: State)
    requires Shaped(s) && Chains(s, h) && Shaped(r) && r.queue == s.queue && r.pcbs == s.pcbs
    ensures Chains(r, h)
  {
    forall p | 0 <= p < PROCESS_NUM
      ensures if p in h.place then Placed(r, h, p) else Free(r, p)
    {
      assert if p in h.place then Placed(s, h, p) else Free(s, p);
    }
  }

  // Nothing but the running process's own saved registers, open files (0 and
  // 1 stay open) and clock rate has changed.
  ghost predicate OnlyRunnerChanges(s: State, r: State)
    requires Shaped(s) && Shaped(r) && s.current != NONE
  {
    var b, c := s.pcbs[s.current], r.pcbs[s.current];
    && r.queue == s.queue
    && (forall p :: 0 <= p < PROCESS_NUM && p != s.current ==> r.pcbs[p] == s.pcbs[p])
    && c.argument == b.argument && c.term == b.term && c.pid == b.pid && c.parent == b.parent && c.basePtr == b.basePtr
    && (c.rtcFreq == UNSET || Supported(c.rtcFreq))
    && c.fds[STDIN].isOpen && c.fds[STDOUT].isOpen
  }

  // That keeps the chains.
  lemma {:induction false} RunnerMayChange(s: State, h: History, r: State)
    requires Shaped(s) && Chains(s, h) && Running(s) && s.current != NONE
    requires Shaped(r) && OnlyRunnerChanges(s, r)
    ensures Chains(r, h)
  {
    RunnerIsNobodysParent(s, h);
    forall p | 0 <= p < PROCESS_NUM
      ensures if p in h.place then Placed(r, h, p) else Free(r, p)
    {
      assert if p in h.place then Placed(s, h, p) else Free(s, p);
    }
  }

  // Nor does it hurt to change a free PCB, as long as its files stay closed.
  lemma {:induction false} FreeMayChange(s: State, h: History, r: State, p: int)
    requires Shaped(s) && Chains(s, h) && 0 <= p < PROCESS_NUM && s.queue[p] == NotLoaded
    requires Shaped(r) && r.queue == s.queue && r.pcbs[p].fds == s.pcbs[p].fds
    requires forall q :: 0 <= q < PROCESS_NUM && q != p ==> r.pcbs[q] == s.pcbs[q]
    ensures Chains(r, h)
  {
    UnloadedIsFree(s, h, p);
    forall q | 0 <= q < PROCESS_NUM
      ensures if q in h.place then Placed(r, h, q) else Free(r, q)
    {
      assert if q in h.place then Placed(s, h, q) else Free(s, q);
    }
  }

  lemma {:induction false} ExecuteFailureKeeps(s: State, h: History, e: Event)
    requires Inv(s, h) && Enabled(s, e) && e.Exec? && !ExecuteSucceeds(s, e.command, e.program)
    ensures Inv(Step(s, e), h)
  {
    hide Chains;
    var p := FirstFree(s.queue);
    if p < PROCESS_NUM {
      FreeMayChange(s, h, Step(s, e), p);
    }
  }

  // The tree once the leaf c of terminal t has a child p.
  lemma {:induction false} TreeGrows(s: State, h: History, c: int, p: int, ebp: int, caller: Option<Pcb>)
    requires Shaped(s) && Chains(s, h) && c in h.place && 0 <= p < PROCESS_NUM && p !in h.place
    requires h.leaf[h.place[c].term] == c
    ensures var at := h.place[c];
            Tree(History(h.place[p := Place(at.term, at.depth + 1, ebp, caller)], h.leaf[at.term := p]))
  {
    assert Tree(h);
    forall x | Live(h, x) && h.place[x].term == h.place[c].term
      ensures h.place[x].depth <= h.place[c].depth
    {
      assert Placed(s, h, x);
    }
    TreeWith(h, c, p, ebp, caller);
  }

  lemma {:induction false} TreeWith(h: History, c: int, p: int, ebp: int, caller: Option<Pcb>)
    requires Tree(h) && c in h.place && 0 <= p < PROCESS_NUM && p !in h.place
    requires forall x :: Live(h, x) && h.place[x].term == h.place[c].term ==> h.place[x].depth <= h.place[c].depth
    ensures var at := h.place[c];
            Tree(History(h.place[p := Place(at.term, at.depth + 1, ebp, caller)], h.leaf[at.term := p]))
  {
    assert Live(h, c);
    var at := h.place[c];
    var h' := History(h.place[p := Place(at.term, at.depth + 1, ebp, caller)], h.leaf[at.term := p]);
    forall x, y | Live(h', x) && Live(h', y) && h'.place[x].term == h'.place[y].term && h'.place[x].depth == h'.place[y].depth
      ensures x == y
    {
      assert x != p ==> Live(h, x);
      assert y != p ==> Live(h, y);
    }
    forall x | Live(h', x)
      ensures 0 <= x < PROCESS_NUM && h'.place[x].term < TERM_MAX
    {
      if x != p { assert Live(h, x); }
    }
  }

  // What a successful execute by c, with child p, does to queue and PCBs.
  ghost predicate Spawns(s: State, r: State, c: int, p: int, ebp: int)
    requires Shaped(s) && Shaped(r) && 0 <= c < PROCESS_NUM && 0 <= p < PROCESS_NUM
  {
    && r.queue == s.queue[c := Loaded][p := Scheduled]
    && (forall q :: 0 <= q < PROCESS_NUM && q != c && q != p ==> r.pcbs[q] == s.pcbs[q])
    && r.pcbs[c] == s.pcbs[c].(schedBp := r.pcbs[c].schedBp, stackPtr := r.pcbs[c].stackPtr)
    && var b := r.pcbs[p];
       && b.pid == p && b.parent == c && b.term == s.pcbs[c].term && b.basePtr == ebp && b.rtcFreq == UNSET && NUL in b.argument
       && b.fds == WithStdio(s.pcbs[p].fds)
  }

  lemma {:induction false} ExecuteSpawns(s: State, e: Event)
    requires Shaped(s) && Enabled(s, e) && e.Exec? && ExecuteSucceeds(s, e.command, e.program)
    requires s.queue[s.current] != NotLoaded
    ensures Spawns(s, Step(s, e), s.current, FirstFree(s.queue), e.ebp)
  {
  }

  // One process q, before and after c spawns p.
  lemma {:induction false} SpawnPlaces(s: State, h: History, r: State, h': History, c: int, p: int, ebp: int, q: int)
    requires Shaped(s) && Shaped(r) && 0 <= c < PROCESS_NUM && 0 <= p < PROCESS_NUM && 0 <= q < PROCESS_NUM
    requires |h.leaf| == TERM_MAX && c in h.place && p !in h.place && Placed(s, h, c) && h.leaf[h.place[c].term] == c
    requires AllClosed(s.pcbs[p].fds) && Spawns(s, r, c, p, ebp)
    requires var at := h.place[c];
             h' == History(h.place[p := Place(at.term, at.depth + 1, ebp, Some(r.pcbs[c]))], h.leaf[at.term := p])
    requires if q in h.place then Placed(s, h, q) && s.pcbs[q].parent != c else Free(s, q)
    ensures if q in h'.place then Placed(r, h', q) else Free(r, q)
  {
    if q in h.place && h.place[q].depth > 0 {
      assert s.pcbs[q].parent in h.place;
    }
  }

  lemma {:induction false} SpawnPlacesAll(s: State, h: History, r: State, h': History, c: int, p: int, ebp: int)
    requires Shaped(s) && Chains(s, h) && Shaped(r) && c in h.place && 0 <= c < PROCESS_NUM && 0 <= p < PROCESS_NUM
    requires Placed(s, h, c) && h.leaf[h.place[c].term] == c && p !in h.place
    requires forall q :: 0 <= q < PROCESS_NUM && q in h.place ==> s.pcbs[q].parent != c
    requires Spawns(s, r, c, p, ebp)
    requires var at := h.place[c];
             h' == History(h.place[p := Place(at.term, at.depth + 1, ebp, Some(r.pcbs[c]))], h.leaf[at.term := p])
    ensures |h'.leaf| == TERM_MAX
    ensures forall q {:trigger Placed(r, h', q)} {:trigger Free(r, q)} :: 0 <= q < PROCESS_NUM ==>
              if q in h'.place then Placed(r, h', q) else Free(r, q)
  {
    assert AllClosed(s.pcbs[p].fds) by {
      assert Free(s, p);
    }
    forall q | 0 <= q < PROCESS_NUM
      ensures if q in h'.place then Placed(r, h', q) else Free(r, q)
    {
      assert if q in h.place then Placed(s, h, q) else Free(s, q);
      assert q in h.place ==> s.pcbs[q].parent != c;
      hide Placed, Free, Spawns, AllClosed;
      SpawnPlaces(s, h, r, h', c, p, ebp, q);
    }
  }

  lemma {:induction false} SpawnKeeps(s: State, h: History, r: State, c: int, p: int, ebp: int)
    requires Shaped(s) && Chains(s, h) && Shaped(r) && c in h.place && 0 <= c < PROCESS_NUM && 0 <= p < PROCESS_NUM
    requires Placed(s, h, c) && h.leaf[h.place[c].term] == c && p !in h.place
    requires forall q :: 0 <= q < PROCESS_NUM && q in h.place ==> s.pcbs[q].parent != c
    requires Spawns(s, r, c, p, ebp)
    ensures var at := h.place[c];
            Chains(r, History(h.place[p := Place(at.term, at.depth + 1, ebp, Some(r.pcbs[c]))], h.leaf[at.term := p]))
  {
    hide Placed, Free, Spawns;
    var at := h.place[c];
    var h' := History(h.place[p := Place(at.term, at.depth + 1, ebp, Some(r.pcbs[c]))], h.leaf[at.term := p]);
    SpawnPlacesAll(s, h, r, h', c, p, ebp);
    TreeGrows(s, h, c, p, ebp, Some(r.pcbs[c]));
  }

  lemma {:induction false} TrackExecute(s: State, h: History, e: Event)
    requires Shaped(s) && Enabled(s, e) && Tree(h) && s.current in h.place
    requires e.Exec? && ExecuteSucceeds(s, e.command, e.program)
    ensures var p, at := FirstFree(s.queue), h.place[s.current];
            Track(s, h, e) == History(h.place[p := Place(at.term, at.depth + 1, e.ebp, Some(Step(s, e).pcbs[s.current]))], h.leaf[at.term := p])
  {
  }

  lemma {:induction false} ExecuteKeeps(s: State, h: History, e: Event)
    requires Inv(s, h) && Enabled(s, e) && e.Exec? && ExecuteSucceeds(s, e.command, e.program)
    requires s.current in h.place
    ensures Chains(Step(s, e), Track(s, h, e))
  {
    ExecuteSpawns(s, e);
    TrackExecute(s, h, e);
    ExecuteKeepsChains(s, h, Step(s, e), FirstFree(s.queue), e.ebp);
  }

  lemma {:induction false} ExecuteKeepsChains(s: State, h: History, r: State, p: int, ebp: int)
    requires Shaped(s) && Chains(s, h) && Running(s) && Shaped(r) && s.current in h.place && s.current != NONE
    requires 0 <= p < PROCESS_NUM && s.queue[p] == NotLoaded && Spawns(s, r, s.current, p, ebp)
    ensures var at := h.place[s.current];
            Chains(r, History(h.place[p := Place(at.term, at.depth + 1, ebp, Some(r.pcbs[s.current]))], h.leaf[at.term := p]))
  {
    hide Chains, Tree, Placed, Spawns, Free, Running;
    RunnerIsNobodysParent(s, h);
    UnloadedIsFree(s, h, p);
    SpawnKeeps(s, h, r, s.current, p, ebp);
  }

  // The scheduler that ends a successful execute finds a process to run.
  lemma {:induction false} SchedAfterExecute(s: State, e: Event)
    requires Shaped(s) && Enabled(s, e) && Running(s) && Consistent(s.clock)
    requires e.Exec? && ExecuteSucceeds(s, e.command, e.program)
    ensures Running(Step(s, e)) && Consistent(Step(s, e).clock)
    ensures Step(s, e).current != s.current
  {
    var c, p, r := s.current, FirstFree(s.queue), Step(s, e);
    NextIsCloser(r.queue, c, p);
    SetFreqReachesHardware(s.clock, r.pcbs[r.current].rtcFreq);
  }

  // The tree once the leaf c is gone and its parent q is the leaf again.
  lemma {:induction false} TreeShrinks(s: State, h: History, c: int, q: int)
    requires Shaped(s) && Chains(s, h) && c in h.place && q in h.place && 0 <= c < PROCESS_NUM
    requires h.leaf[h.place[c].term] == c && h.place[q].term == h.place[c].term && h.place[q].depth + 1 == h.place[c].depth
    ensures Tree(History(h.place - {c}, h.leaf[h.place[c].term := q]))
    ensures forall x :: 0 <= x < PROCESS_NUM && x in h.place && x != c && h.place[x].term == h.place[c].term ==>
              h.place[x].depth <= h.place[q].depth && (h.place[x].depth == h.place[q].depth ==> x == q)
  {
    assert Tree(h);
    forall x | Live(h, x) && h.place[x].term == h.place[c].term
      ensures h.place[x].depth <= h.place[c].depth
    {
      assert Placed(s, h, x);
    }
    hide Chains, Placed;
    TreeWithout(h, c, q);
  }

  lemma {:induction false} TreeWithout(h: History, c: int, q: int)
    requires Tree(h) && c in h.place && q in h.place
    requires h.leaf[h.place[c].term] == c && h.place[q].term == h.place[c].term && h.place[q].depth + 1 == h.place[c].depth
    requires forall x :: Live(h, x) && h.place[x].term == h.place[c].term ==> h.place[x].depth <= h.place[c].depth
    ensures Tree(History(h.place - {c}, h.leaf[h.place[c].term := q]))
    ensures forall x :: 0 <= x < PROCESS_NUM && x in h.place && x != c && h.place[x].term == h.place[c].term ==>
              h.place[x].depth <= h.place[q].depth && (h.place[x].depth == h.place[q].depth ==> x == q)
  {
    assert Live(h, c) && Live(h, q);
    var h' := History(h.place - {c}, h.leaf[h.place[c].term := q]);
    forall x | 0 <= x < PROCESS_NUM && x in h.place && x != c && h.place[x].term == h.place[c].term
      ensures h.place[x].depth <= h.place[q].depth && (h.place[x].depth == h.place[q].depth ==> x == q)
    {
      assert Live(h, x);
    }
    forall x, y | Live(h', x) && Live(h', y) && h'.place[x].term == h'.place[y].term && h'.place[x].depth == h'.place[y].depth
      ensures x == y
    {
      assert Live(h, x) && Live(h, y);
    }
    forall x | Live(h', x)
      ensures 0 <= x < PROCESS_NUM && h'.place[x].term < TERM_MAX
    {
      assert Live(h, x);
    }
  }

  // One process x, before and after c ends and its parent q goes on.
  lemma {:induction false} ExitPlaces(s: State, h: History, r: State, h': History, c: int, q: int, x: int)
    requires Shaped(s) && Shaped(r) && 0 <= c < PROCESS_NUM && 0 <= q < PROCESS_NUM && 0 <= x < PROCESS_NUM
    requires |h.leaf| == TERM_MAX && c in h.place && q in h.place && Placed(s, h, c)
    requires h.leaf[h.place[c].term] == c && s.pcbs[c].parent == q && q != c && h.place[q].term == h.place[c].term
    requires r.queue == s.queue[c := NotLoaded][q := Scheduled] && AllClosed(r.pcbs[c].fds)
    requires forall x :: 0 <= x < PROCESS_NUM && x != c ==> r.pcbs[x] == s.pcbs[x]
    requires h' == History(h.place - {c}, h.leaf[h.place[c].term := q])
    requires if x in h.place then Placed(s, h, x) && s.pcbs[x].parent != c else Free(s, x)
    requires x in h.place ==> h.leaf[h.place[x].term] in h.place && h.place[h.leaf[h.place[x].term]].term == h.place[x].term
    requires x in h.place && x != c && h.place[x].term == h.place[c].term ==> h.place[x].depth <= h.place[q].depth
    ensures if x in h'.place then Placed(r, h', x) else Free(r, x)
  {
    if x in h.place && x != c && h.place[x].depth > 0 {
      assert s.pcbs[x].parent in h.place;
    }
  }

  lemma {:induction false} ExitKeepsChains(s: State, h: History, r: State, c: int, q: int)
    requires Shaped(s) && Chains(s, h) && Shaped(r) && c in h.place && 0 <= c < PROCESS_NUM && 0 <= q < PROCESS_NUM
    requires Placed(s, h, c) && h.leaf[h.place[c].term] == c && s.pcbs[c].parent == q
    requires forall x :: 0 <= x < PROCESS_NUM && x in h.place ==> s.pcbs[x].parent != c
    requires r.queue == s.queue[c := NotLoaded][q := Scheduled] && AllClosed(r.pcbs[c].fds)
    requires forall x :: 0 <= x < PROCESS_NUM && x != c ==> r.pcbs[x] == s.pcbs[x]
    ensures Chains(r, History(h.place - {c}, h.leaf[h.place[c].term := q]))
  {
    var h' := History(h.place - {c}, h.leaf[h.place[c].term := q]);
    TreeShrinks(s, h, c, q);
    forall x | 0 <= x < PROCESS_NUM
      ensures if x in h'.place then Placed(r, h', x) else Free(r, x)
    {
      assert if x in h.place then Placed(s, h, x) else Free(s, x);
      ExitPlaces(s, h, r, h', c, q, x);
    }
  }

  lemma {:induction false} HaltKeeps(s: State, h: History, e: Event)
    requires Inv(s, h) && Enabled(s, e) && e.Exit? && s.current in h.place
    ensures Inv(Step(s, e), Track(s, h, e))
  {
    var c, r := s.current, Step(s, e);
    RunnerIsNobodysParent(s, h);
    if s.pcbs[c].parent == NONE {
      RunnerMayChange(s, h, r);
    } else {
      assert r.pcbs[c] == ClosedBelow(s.pcbs[c], MAX_NUM_FD);
      ExitKeepsChains(s, h, r, c, s.pcbs[c].parent);
    }
  }

  lemma {:induction false} CallKeeps(s: State, h: History, e: Event)
    requires Inv(s, h) && Enabled(s, e) && (e.OpenCall? || e.CloseCall? || e.WriteRtc? || e.ReadCall?)
    ensures Inv(Step(s, e), h)
  {
    RunnerIsNobodysParent(s, h);
    hide Chains;
    CallChangesRunner(s, e);
    RunnerMayChange(s, h, Step(s, e));
  }

  lemma {:induction false} CallChangesRunner(s: State, e: Event)
    requires Shaped(s) && Enabled(s, e) && (e.OpenCall? || e.CloseCall? || e.WriteRtc? || e.ReadCall?)
    requires Consistent(s.clock) && OnlyRunnerChanges(s, s)
    ensures var r := Step(s, e);
            && OnlyRunnerChanges(s, r) && Consistent(r.clock)
            && r.current == s.current && r.frame == s.frame && r.esp0 == s.esp0
  {
    SetFreqReachesHardware(s.clock, 2);
    if e.WriteRtc? {
      SetFreqReachesHardware(s.clock, e.freq);
    }
  }

  // Every step keeps the invariant.
  lemma {:induction false} StepKeeps(s: State, h: History, e: Event)
    requires Inv(s, h) && Enabled(s, e)
    ensures s.current == NONE || s.current in h.place
    ensures Inv(Step(s, e), Track(s, h, e))
  {
    if s.current != NONE {
      RunnerIsNobodysParent(s, h);
    }
    match e {
      case Tick(bp, sp) => SchedKeeps(s, h, bp, sp);
      case Exec(_, _, _, _, _, _) =>
        if ExecuteSucceeds(s, e.command, e.program) {
          ExecuteKeeps(s, h, e);
          SchedAfterExecute(s, e);
        } else {
          ExecuteFailureKeeps(s, h, e);
        }
      case Exit(_, _) => HaltKeeps(s, h, e);
      case _ => CallKeeps(s, h, e);
    }
  }

  // A run from boot, of any length.
  ghost predicate FromBoot(r: Run) {
    && |r.states| == |r.events| + 1 && Booted(r.states[0])
    && forall i {:trigger Follows(r, i)} :: 0 <= i < |r.events| ==> Follows(r, i)
  }

  // So it holds in every state of every run.
  lemma {:induction false} RunKeeps(r: Run, n: nat) returns (h: History)
    requires FromBoot(r) && n < |r.states|
    ensures Inv(r.states[n], h)
    decreases n
  {
    if n == 0 {
      BootEstablishes(r.states[0]);
      h := SHELLS;
    } else {
      h := RunKeeps(r, n - 1);
      assert Follows(r, n - 1);
      StepKeeps(r.states[n - 1], h, r.events[n - 1]);
      h := Track(r.states[n - 1], h, r.events[n - 1]);
    }
  }
}
