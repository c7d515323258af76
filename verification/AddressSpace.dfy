// What the page tables let the running process reach.
module AddressSpace {
  import opened FileSystem
  import opened Limits
  import P = Process
  import L = Lifecycle
  import R = Reachable
  import opened Paging
  import S = Screens
  import D = Directory

  // The page tables beside the terminals.
  datatype Memory = Memory(tables: Tables, view: S.View)

  // User mode finds every terminal on the page the kernel draws it on.
  ghost predicate Agrees(m: Memory, pid: nat) {
    S.Arranged(m.view) && Mapping(m.tables, pid, m.view.mapped)
  }

  // A terminal operation; only switching touches the tables.
  function Draws(m: Memory, op: S.Operation): Memory
    requires S.Arranged(m.view) && (op.ShowOp? || op.term < TERM_MAX) && Shaped(m.tables)
  {
    Memory(if op.ShowOp? && op.term < TERM_MAX && op.term != m.view.display
           then Switched(m.tables, op.term, m.view.display) else m.tables,
           S.Do(m.view, op))
  }

  function DrawsAll(m: Memory, ops: seq<S.Operation>): (r: Memory)
    requires S.Arranged(m.view) && S.InRange(ops) && Shaped(m.tables)
    ensures S.Arranged(r.view) && Shaped(r.tables) && r.view == S.DoAll(m.view, ops)
    decreases |ops|
  {
    if ops == [] then m else DrawsAll(Draws(m, ops[0]), ops[1..])
  }

  // Memory after n kernel operations of a run, with any terminal operations
  // between them. A kernel operation leaves the process page on the frame the
  // kernel has recorded.
  ghost function MemoryAfter(m: Memory, r: P.Run, between: seq<seq<S.Operation>>, n: nat): (w: Memory)
    requires n < |r.states| && n < |between| && S.Arranged(m.view) && Shaped(m.tables)
    requires forall i :: 0 <= i <= n ==> 0 <= r.states[i].frame && S.InRange(between[i])
    ensures S.Arranged(w.view) && Shaped(w.tables)
    decreases n
  {
    if n == 0 then DrawsAll(m, between[0])
    else
      var w := MemoryAfter(m, r, between, n - 1);
      DrawsAll(w.(tables := WithFrame(w.tables, r.states[n].frame)), between[n])
  }

  lemma {:induction false} FrameIsPid(r: P.Run, n: nat)
    requires L.FromBoot(r) && n < |r.states| && 0 <= r.states[0].frame
    ensures 0 <= r.states[n].frame
    decreases n
  {
    if n > 0 {
      FrameIsPid(r, n - 1);
      assert P.Follows(r, n - 1);
      StepFrame(r.states[n - 1], r.events[n - 1]);
    }
  }

  lemma {:induction false} StepFrame(s: P.State, e: P.Event)
    requires P.Shaped(s) && P.Enabled(s, e) && 0 <= s.frame
    ensures 0 <= P.Step(s, e).frame
  {
  }

  lemma {:induction false} DrawsAgrees(m: Memory, pid: nat, op: S.Operation)
    requires Agrees(m, pid) && (op.ShowOp? || op.term < TERM_MAX)
    ensures Agrees(Draws(m, op), pid)
  {
    if op.ShowOp? && op.term < TERM_MAX && op.term != m.view.display {
      SwitchedMaps(m.tables, pid, m.view.mapped, op.term, m.view.display);
    }
  }

  lemma {:induction false} DrawsAllAgrees(m: Memory, pid: nat, ops: seq<S.Operation>)
    requires Agrees(m, pid) && S.InRange(ops)
    ensures Agrees(DrawsAll(m, ops), pid)
    decreases |ops|
  {
    if ops != [] {
      DrawsAgrees(m, pid, ops[0]);
      DrawsAllAgrees(Draws(m, ops[0]), pid, ops[1..]);
    }
  }

  lemma {:induction false} MemoryAgrees(m: Memory, r: P.Run, between: seq<seq<S.Operation>>, n: nat)
    requires n < |r.states| && n < |between|
    requires forall i :: 0 <= i <= n ==> 0 <= r.states[i].frame && S.InRange(between[i])
    requires Agrees(m, r.states[0].frame)
    ensures Agrees(MemoryAfter(m, r, between, n), r.states[n].frame)
    decreases n
  {
    if n == 0 {
      DrawsAllAgrees(m, r.states[0].frame, between[0]);
    } else {
      MemoryAgrees(m, r, between, n - 1);
      var w := MemoryAfter(m, r, between, n - 1);
      WithFrameMaps(w.tables, r.states[n - 1].frame, w.view.mapped, r.states[n].frame);
      DrawsAllAgrees(w.(tables := WithFrame(w.tables, r.states[n].frame)), r.states[n].frame, between[n]);
    }
  }

  // After every operation of every run from boot, with any printing, clearing
  // and switching of terminals in between, user addresses from 128 MB to
  // 132 MB reach the running process's own frame, byte for byte, each
  // terminal's address the page that terminal is drawn on at that moment, and
  // no other address is open; the stack the processor switches to on an
  // interrupt is that process's too.
  lemma {:induction false} RunningProcessSeesItsFrame(m: Memory, r: P.Run, between: seq<seq<S.Operation>>, n: nat, va: uint32)
    requires L.FromBoot(r) && 0 < n < |r.states| && n < |between| && 0 <= r.states[0].frame
    requires forall i :: 0 <= i <= n ==> S.InRange(between[i])
    requires Agrees(m, r.states[0].frame)
    ensures 0 <= r.states[n].current && r.states[n].esp0 == P.StackTop(r.states[n].current)
    ensures forall i :: 0 <= i <= n ==> 0 <= r.states[i].frame
    ensures var w := MemoryAfter(m, r, between, n);
            UserTranslate(w.tables, va) == UserView(r.states[n].current, DrawnPages(w.view), va)
  {
    forall i | 0 <= i <= n
      ensures 0 <= r.states[i].frame
    {
      FrameIsPid(r, i);
    }
    R.RunnerStays(r, n);
    var h := L.RunKeeps(r, n);
    MemoryAgrees(m, r, between, n);
    var w := MemoryAfter(m, r, between, n);
    assert DrawnPages(w.view) == w.view.mapped;
    TranslationIsExact(w.tables, r.states[n].frame, w.view.mapped, va);
  }

  // The physical page each terminal is drawn on.
  function DrawnPages(v: S.View): (pages: seq<nat>)
    ensures |pages| == |v.terms|
  {
    seq(|v.terms|, t requires 0 <= t < |v.terms| => VMEM_MAP + v.terms[t].video)
  }

  // Switching keeps it so that kernel and user mode name one page.
  lemma {:induction false} SwitchKeepsPagesShared(t: Tables, pid: nat, v: S.View, term: nat)
    requires S.Arranged(v) && Mapping(t, pid, v.mapped) && term < TERM_MAX && term != v.display
    ensures Mapping(Switched(t, term, v.display), pid, DrawnPages(S.Show(v, term)))
  {
    SwitchedMaps(t, pid, v.mapped, term, v.display);
    assert S.Show(v, term).mapped == DrawnPages(S.Show(v, term));
  }

  // A program runs at 0x0804_8000, which is where its file lies in its frame.
  lemma {:induction false} ProgramIsMapped(t: Tables, pid: nat, screens: seq<nat>, k: nat)
    requires |screens| == TERM_MAX && Mapping(t, pid, screens) && D.LOAD_OFFSET + k < D.PAGE_BYTES
    ensures UserTranslate(t, 0x0804_8000 + k) == Some(0x80_0000 + 0x40_0000 * pid + D.LOAD_OFFSET + k)
  {
    TranslationIsExact(t, pid, screens, 0x0804_8000 + k);
  }

  // Through the address vidmap hands out, a process reaches the very page its
  // terminal is drawn on, displayed or not.
  lemma {:induction false} VidmapReachesDrawnPage(t: Tables, pid: nat, v: S.View, term: nat, offset: nat)
    requires S.Arranged(v) && Mapping(t, pid, v.mapped) && term < TERM_MAX && offset < PAGE_SIZE
    ensures UserTranslate(t, USER_VMEM_VADDR + TermPage(term) * PAGE_SIZE + offset) ==
            Some((VMEM_MAP + v.terms[term].video) * PAGE_SIZE + offset)
  {
  }
}
