// Execute and halt bracket each other, and sleeping processes wake where they
// slept, whatever the processes of all terminals do in between.
module Bracketing {
  import opened Text
  import opened Rtc
  import opened Process
  import opened Lifecycle
  import opened Reachable

  // No operation touches the PCB of a live process other than the one running.
  lemma {:induction false} OthersUntouched(s: State, h: History, e: Event, q: int)
    requires Inv(s, h) && Enabled(s, e) && IsLive(s, q) && q != s.current
    ensures Step(s, e).pcbs[q] == s.pcbs[q]
    ensures IsLive(Step(s, e), q) && (s.queue[q] == Scheduled ==> Step(s, e).queue[q] == Scheduled)
  {
    if e.Exec? {
      ExecuteLeavesOthers(s, e, q);
    }
  }

  lemma {:induction false} ExecuteLeavesOthers(s: State, e: Event, q: int)
    requires Shaped(s) && Enabled(s, e) && e.Exec? && IsLive(s, q) && q != s.current
    ensures Step(s, e).pcbs[q] == s.pcbs[q]
    ensures IsLive(Step(s, e), q) && Step(s, e).queue[q] == s.queue[q]
  {
    hide ArgumentOf, StoreString, WithStdio, SetFreq, Next;
    var p := FirstFree(s.queue);
    if p < PROCESS_NUM {
      var s' := Prepared(s, p, e.command, e.program, e.ebp, e.esp);
      assert s'.pcbs[q] == s.pcbs[q] && s'.queue[q] == s.queue[q];
    }
  }

  // The running process itself, unless it ends, can change only its open
  // files, its clock rate, its entry point and its saved registers.
  lemma {:induction false} RunnerKeepsIdentity(s: State, e: Event)
    requires Shaped(s) && Enabled(s, e) && s.current != NONE && IsLive(s, s.current)
    requires !(e.Exit? && s.pcbs[s.current].parent != NONE)
    ensures var b, r := s.pcbs[s.current], Step(s, e);
            && IsLive(r, s.current)
            && r.pcbs[s.current].(fds := b.fds, rtcFreq := b.rtcFreq, entry := b.entry, schedBp := b.schedBp, stackPtr := b.stackPtr) == b
  {
    if e.Exec? {
      ExecuteKeepsCaller(s, e);
    }
  }

  lemma {:induction false} ExecuteKeepsCaller(s: State, e: Event)
    requires Shaped(s) && Enabled(s, e) && e.Exec? && IsLive(s, s.current)
    ensures var b, r := s.pcbs[s.current], Step(s, e);
            IsLive(r, s.current) && r.pcbs[s.current].(schedBp := b.schedBp, stackPtr := b.stackPtr) == b
  {
    hide ArgumentOf, StoreString, WithStdio, SetFreq, Next;
  }

  // A child keeps its parent, the frame to return to, and its parent's PCB,
  // until it ends itself.
  lemma {:induction false} ChildStable(s: State, h: History, e: Event, p: int)
    requires Inv(s, h) && Enabled(s, e) && IsLive(s, p) && s.pcbs[p].parent != NONE
    requires !(e.Exit? && s.current == p)
    ensures var r, c := Step(s, e), s.pcbs[p].parent;
            && IsLive(r, p) && r.pcbs[p].parent == c && r.pcbs[c] == s.pcbs[c]
            && r.pcbs[p].basePtr == s.pcbs[p].basePtr && r.pcbs[p].argument == s.pcbs[p].argument
  {
    ParentOf(s, h, p);
    OthersUntouched(s, h, e, s.pcbs[p].parent);
    if p != s.current {
      OthersUntouched(s, h, e, p);
    } else {
      RunnerKeepsIdentity(s, e);
    }
  }

  // Process p does not end strictly between operations i and j.
  predicate KeepsRunning(r: Run, p: int, i: nat, j: nat)
    requires j <= |r.events| < |r.states|
  {
    forall k {:trigger r.events[k]} :: i < k < j ==> !(r.events[k].Exit? && r.states[k].current == p)
  }

  // Operation i is an execute that starts a process.
  predicate Starts(r: Run, i: nat)
    requires i < |r.events| < |r.states|
  {
    r.events[i].Exec? && ExecuteSucceeds(r.states[i], r.events[i].command, r.events[i].program)
  }

  // What is kept of a child p of c from one state to a later one.
  ghost predicate ChildKept(s: State, t: State, p: int, c: int)
    requires Shaped(s) && Shaped(t) && 0 <= p < PROCESS_NUM && 0 <= c < PROCESS_NUM
  {
    && IsLive(t, p) && t.pcbs[p].parent == c && t.pcbs[c] == s.pcbs[c]
    && t.pcbs[p].basePtr == s.pcbs[p].basePtr && t.pcbs[p].argument == s.pcbs[p].argument
  }

  lemma {:induction false} ChildStableRun(r: Run, i: nat, j: nat, p: int, c: int)
    requires FromBoot(r) && i < j < |r.states| && KeepsRunning(r, p, i, j)
    requires 0 <= p < PROCESS_NUM && 0 <= c < PROCESS_NUM && Shaped(r.states[i + 1]) && ChildKept(r.states[i + 1], r.states[i + 1], p, c)
    ensures Shaped(r.states[j]) && ChildKept(r.states[i + 1], r.states[j], p, c)
    decreases j
  {
    if j > i + 1 {
      ChildStableRun(r, i, j - 1, p, c);
      var h := StepOfRun(r, j - 1);
      ChildStable(r.states[j - 1], h, r.events[j - 1], p);
    }
  }

  // The state after a successful execute: the caller c sleeps, its child p is
  // new.
  lemma {:induction false} ChildStarts(r: Run, i: nat)
    requires FromBoot(r) && i < |r.events| && Starts(r, i)
    ensures var s, t, c, p := r.states[i], r.states[i + 1], r.states[i].current, FirstFree(r.states[i].queue);
            && Shaped(s) && Shaped(t) && 0 <= c < PROCESS_NUM && p < PROCESS_NUM
            && Enabled(s, r.events[i]) && t == Step(s, r.events[i]) && Spawns(s, t, c, p, r.events[i].ebp)
            && ChildKept(t, t, p, c)
  {
    var h := StepOfRun(r, i);
    RunnerIsNobodysParent(r.states[i], h);
    ExecuteSpawns(r.states[i], r.events[i]);
  }

  // Operation i of a run, by process c, starts p, and operation j is the first
  // that ends p.  Whatever happened in between in any terminal, c runs again,
  // out of that very execute call, on its own stack and frame, with its PCB
  // as it was but for the registers the scheduler saved.
  lemma {:induction false} ExecuteReturnsToCaller(r: Run, i: nat, j: nat)
    requires FromBoot(r) && i < j < |r.events| && Starts(r, i)
    requires r.events[j].Exit? && r.states[j].current == FirstFree(r.states[i].queue)
    requires KeepsRunning(r, FirstFree(r.states[i].queue), i, j)
    ensures var s, t, c, p := r.states[i], r.states[j + 1], r.states[i].current, FirstFree(r.states[i].queue);
            && Shaped(s) && Shaped(t) && 0 <= c < PROCESS_NUM && p < PROCESS_NUM
            && t.current == c && t.jump == ExecuteReturn(r.events[i].ebp, r.events[j].status)
            && t.esp0 == StackTop(c) && t.frame == c
            && t.pcbs[c].(schedBp := s.pcbs[c].schedBp, stackPtr := s.pcbs[c].stackPtr) == s.pcbs[c]
            && t.queue[c] == Scheduled && t.queue[p] == NotLoaded && AllClosed(t.pcbs[p].fds)
  {
    var c, p := r.states[i].current, FirstFree(r.states[i].queue);
    ChildStarts(r, i);
    ChildStableRun(r, i, j, p, c);
    var h := StepOfRun(r, j);
    ParentOf(r.states[j], h, p);
    ExitReturns(r.states[j], r.events[j]);
  }

  lemma {:induction false} ExitReturns(s: State, e: Event)
    requires Shaped(s) && e.Exit? && s.current != NONE && s.pcbs[s.current].parent != NONE && s.pcbs[s.current].parent != s.current
    ensures var b, r := s.pcbs[s.current], Step(s, e);
            && r.current == b.parent && r.jump == ExecuteReturn(b.basePtr, e.status)
            && r.esp0 == StackTop(b.parent) && r.frame == b.parent
            && r.pcbs[b.parent] == s.pcbs[b.parent]
            && r.queue[b.parent] == Scheduled && r.queue[s.current] == NotLoaded && AllClosed(r.pcbs[s.current].fds)
  {
  }

  // As long as a child lives, its argument buffer holds the argument its
  // command line was given.
  lemma {:induction false} ChildKeepsArgument(r: Run, i: nat, j: nat)
    requires FromBoot(r) && i < j < |r.states| && Starts(r, i)
    requires KeepsRunning(r, FirstFree(r.states[i].queue), i, j)
    ensures var p := FirstFree(r.states[i].queue);
            Shaped(r.states[j]) && p < PROCESS_NUM && CString(r.states[j].pcbs[p].argument) == ArgumentOf(r.events[i].command.value)
  {
    ChildStarts(r, i);
    ArgumentStored(r.states[i], r.events[i]);
    hide Step, Spawns, FromBoot, CString, ArgumentOf;
    ChildStableRun(r, i, j, FirstFree(r.states[i].queue), r.states[i].current);
  }

  lemma {:induction false} ArgumentStored(s: State, e: Event)
    requires Shaped(s) && Enabled(s, e) && e.Exec? && ExecuteSucceeds(s, e.command, e.program)
    ensures CString(Step(s, e).pcbs[FirstFree(s.queue)].argument) == ArgumentOf(e.command.value)
  {
    var p, a := FirstFree(s.queue), ArgumentOf(e.command.value);
    assert Step(s, e).pcbs[p].argument == StoreString(s.pcbs[p].argument, a);
    StoredString(s.pcbs[p].argument, a);
  }

  lemma {:induction false} StoredString(buf: seq<byte>, a: seq<byte>)
    requires |a| < |buf| && NulFree(a)
    ensures CString(StoreString(buf, a)) == a
  {
  }

  // Process q does not run from state i to state j.
  predicate Asleep(r: Run, q: int, i: nat, j: nat)
    requires j < |r.states|
  {
    forall k {:trigger r.states[k]} :: i <= k <= j ==> r.states[k].current != q
  }

  // A sleeping process that can run keeps its PCB and can still run.
  ghost predicate Untouched(s: State, t: State, q: int)
    requires Shaped(s) && Shaped(t) && 0 <= q < PROCESS_NUM
  {
    t.pcbs[q] == s.pcbs[q] && t.queue[q] == Scheduled
  }

  lemma {:induction false} AsleepUntouched(r: Run, i: nat, j: nat, q: int)
    requires FromBoot(r) && i <= j < |r.states| && Asleep(r, q, i, j)
    requires 0 <= q < PROCESS_NUM && Shaped(r.states[i]) && r.states[i].queue[q] == Scheduled
    ensures Shaped(r.states[j]) && Untouched(r.states[i], r.states[j], q)
    decreases j
  {
    if j > i {
      AsleepUntouched(r, i, j - 1, q);
      assert r.states[j - 1].current != q;
      var h := StepOfRun(r, j - 1);
      OthersUntouched(r.states[j - 1], h, r.events[j - 1], q);
    }
  }

  // A process put to sleep by a tick goes on, when it next runs, exactly where
  // that tick interrupted it.
  lemma {:induction false} SleepThenWake(r: Run, i: nat, j: nat)
    requires FromBoot(r) && i < j < |r.events| && r.events[i].Tick? && r.events[i].bp != 0
    requires r.states[i].current != NONE && Asleep(r, r.states[i].current, i + 1, j)
    requires r.states[j + 1].current == r.states[i].current
    ensures r.states[j + 1].jump == SchedReturn(r.events[i].sp, r.events[i].bp)
  {
    var q := r.states[i].current;
    var h := StepOfRun(r, i);
    RunnerIsNobodysParent(r.states[i], h);
    TickSaves(r.states[i], r.events[i]);
    AsleepUntouched(r, i + 1, j, q);
    assert r.states[j].current != q;
    h := StepOfRun(r, j);
    WakeJumps(r.states[j], h, r.events[j], q);
  }

  lemma {:induction false} TickSaves(s: State, e: Event)
    requires Shaped(s) && s.current != NONE && e.Tick?
    ensures var b := Step(s, e).pcbs[s.current];
            b.schedBp == e.bp && b.stackPtr == e.sp && Step(s, e).queue == s.queue
  {
  }

  // Only the scheduler chooses a process that can run but does not.
  lemma {:induction false} WakeJumps(s: State, h: History, e: Event, q: int)
    requires Inv(s, h) && Enabled(s, e) && 0 <= q < PROCESS_NUM && s.queue[q] == Scheduled
    requires s.current != q && Step(s, e).current == q && s.pcbs[q].schedBp != 0
    ensures Step(s, e).jump == SchedReturn(s.pcbs[q].stackPtr, s.pcbs[q].schedBp)
  {
    if e.Exit? {
      RunnerIsNobodysParent(s, h);
      if s.pcbs[s.current].parent != NONE {
        ParentOf(s, h, s.current);
        assert false;
      }
    }
  }

  // The descriptors of a new process: standard input and output, no others.
  lemma {:induction false} NewProcessHasStdio(r: Run, i: nat)
    requires FromBoot(r) && i < |r.events| && Starts(r, i)
    ensures var p := FirstFree(r.states[i].queue);
            && Shaped(r.states[i + 1]) && p < PROCESS_NUM
            && var fds := r.states[i + 1].pcbs[p].fds;
               forall k :: 0 <= k < MAX_NUM_FD ==> (fds[k].isOpen <==> k == STDIN || k == STDOUT)
  {
    var h := StepOfRun(r, i);
    ChildStarts(r, i);
    LiveIsPlaced(r.states[i], h, FirstFree(r.states[i].queue));
  }

  // A failing execute changes nothing but the PCB of a free process.
  lemma {:induction false} FailedExecuteChangesNothing(s: State, e: Event)
    requires Shaped(s) && Enabled(s, e) && e.Exec? && !ExecuteSucceeds(s, e.command, e.program)
    ensures Step(s, e).(pcbs := s.pcbs) == s
    ensures forall q :: IsLive(s, q) ==> Step(s, e).pcbs[q] == s.pcbs[q]
  {
  }

  // Open takes the lowest closed descriptor, never 0 or 1, and leaves the
  // others alone; a failing open changes nothing.
  lemma {:induction false} OpenTakesLowest(r: Run, n: nat)
    requires FromBoot(r) && n < |r.events| && r.events[n].OpenCall?
    ensures var s, t, c := r.states[n], r.states[n + 1], r.states[n].current;
            && Shaped(s) && Shaped(t) && 0 <= c < PROCESS_NUM
            && if CanOpen(s.pcbs[c], r.events[n].found) then
                 exists i :: 2 <= i < MAX_NUM_FD && Opened(s.pcbs[c].fds, t.pcbs[c].fds, i)
               else t == s
  {
    var h := StepOfRun(r, n);
    var s := r.states[n];
    LowestIsFree(s, h);
    if CanOpen(s.pcbs[s.current], r.events[n].found) {
      assert Opened(s.pcbs[s.current].fds, r.states[n + 1].pcbs[s.current].fds, LowestClosed(s.pcbs[s.current].fds));
    }
  }

  // Descriptor i, the lowest that was closed, is open at the file's start.
  predicate Opened(before: seq<Fd>, after: seq<Fd>, i: nat) {
    && |before| == |after| && i < |before|
    && !before[i].isOpen && after[i].isOpen && after[i].pos == 0
    && (forall k :: 0 <= k < i ==> before[k].isOpen)
    && (forall k :: 0 <= k < |before| && k != i ==> after[k] == before[k])
  }

  lemma {:induction false} LowestIsFree(s: State, h: History)
    requires Inv(s, h) && s.current != NONE
    ensures LowestClosed(s.pcbs[s.current].fds) >= 2
  {
    RunnerIsNobodysParent(s, h);
    assert Placed(s, h, s.current);
  }

  // The hardware clock runs at the running process's rate, if it has one.
  predicate RateOk(s: State)
    requires Shaped(s)
  {
    s.current != NONE && s.pcbs[s.current].rtcFreq != UNSET ==> Hertz(s.clock.regA) == s.pcbs[s.current].rtcFreq
  }

  // Every reschedule establishes this, and every other operation keeps it,
  // but for one: a process that ends leaves the clock as it was, so its
  // parent has the right rate exactly when it happens to be the one set.
  lemma {:induction false} RateFollowsProcess(r: Run, n: nat)
    requires FromBoot(r) && n < |r.events|
    ensures var s, t, e := r.states[n], r.states[n + 1], r.events[n];
            && Shaped(s) && Shaped(t)
            && if Reschedules(s, e) then RateOk(t)
               else if EndsProcess(s, e) then RateOk(t) <==> s.pcbs[s.pcbs[s.current].parent].rtcFreq in {UNSET, s.clock.cached}
               else RateOk(s) ==> RateOk(t)
  {
    var h := StepOfRun(r, n);
    var s, t, e := r.states[n], r.states[n + 1], r.events[n];
    if Reschedules(s, e) {
      hide Step, RateOk, Inv, FromBoot;
      ChosenHasRate(r, n + 1);
      ReschedulingSetsRate(s, e);
    } else {
      RunnerIsNobodysParent(s, h);
      RateStays(s, e);
    }
  }

  lemma {:induction false} ChosenHasRate(r: Run, n: nat)
    requires FromBoot(r) && 0 < n < |r.states|
    ensures Shaped(r.states[n]) && 0 <= r.states[n].current < PROCESS_NUM
    ensures var b := r.states[n].pcbs[r.states[n].current]; b.rtcFreq == UNSET || Supported(b.rtcFreq)
  {
    var h := RunKeeps(r, n);
    RunnerStays(r, n);
    LiveIsPlaced(r.states[n], h, r.states[n].current);
  }

  lemma {:induction false} ReschedulingSetsRate(s: State, e: Event)
    requires Shaped(s) && Enabled(s, e) && Consistent(s.clock) && Reschedules(s, e)
    ensures var t := Step(s, e);
            && 0 <= t.current < PROCESS_NUM
            && (t.pcbs[t.current].rtcFreq == UNSET || Supported(t.pcbs[t.current].rtcFreq) ==> RateOk(t))
  {
    hide Next, SetFreq, Supported;
    if e.Tick? {
      SchedSetsRate(s, e.bp, e.sp);
    } else {
      SchedSetsRate(Prepared(s, FirstFree(s.queue), e.command, e.program, e.ebp, e.esp), e.bp, e.sp);
    }
  }

  lemma {:induction false} SchedSetsRate(s: State, bp: int, sp: int)
    requires Shaped(s) && Consistent(s.clock)
    ensures var t := Sched(s, bp, sp);
            t.pcbs[t.current].rtcFreq == UNSET || Supported(t.pcbs[t.current].rtcFreq) ==> RateOk(t)
  {
    var t := Sched(s, bp, sp);
    SetFreqReachesHardware(s.clock, t.pcbs[t.current].rtcFreq);
  }

  lemma {:induction false} RateStays(s: State, e: Event)
    requires Shaped(s) && Enabled(s, e) && Consistent(s.clock) && s.current != NONE && IsLive(s, s.current)
    requires !Reschedules(s, e) && s.pcbs[s.current].parent != s.current
    requires s.pcbs[s.current].parent == NONE ==> s.pcbs[s.current].term == s.current
    ensures var r := Step(s, e);
            if EndsProcess(s, e) then RateOk(r) <==> s.pcbs[s.pcbs[s.current].parent].rtcFreq in {UNSET, s.clock.cached}
            else RateOk(s) ==> RateOk(r)
  {
    SetFreqReachesHardware(s.clock, 2);
    if e.WriteRtc? {
      SetFreqReachesHardware(s.clock, e.freq);
    }
  }

  // The blocks tile the memory below 8 MB, one after the other downwards.
  lemma {:induction false} BlocksTile(p: int)
    ensures StackTop(0) == 0x80_0000 && StackTop(p) - PcbAddress(p) == 0x2000 && StackTop(p + 1) == PcbAddress(p)
  {
  }

  // PCB and kernel stack blocks of distinct processes never overlap, and all
  // lie in the kernel's own 4 MB page.
  lemma {:induction false} StacksDisjoint(p: int, q: int, a: int)
    requires 0 <= p < PROCESS_NUM && 0 <= q < PROCESS_NUM && PcbAddress(p) <= a < StackTop(p)
    ensures PcbAddress(q) <= a < StackTop(q) <==> p == q
    ensures 0x40_0000 <= a < 0x80_0000
  {
  }
}
