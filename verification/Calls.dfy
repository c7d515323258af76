// What the system calls do to the process that makes them, and where a
// process starts, over whole runs.
module Calls {
  import opened Text
  import opened Limits
  import opened FileSystem
  import opened Rtc
  import opened Process
  import opened Lifecycle
  import opened Reachable
  import opened Bracketing

  // A process that has never run, ready to start at its entry point.
  ghost predicate Fresh(s: State, p: int, entry: int)
    requires Shaped(s)
  {
    IsLive(s, p) && s.queue[p] == Scheduled && s.pcbs[p].schedBp == 0 && s.pcbs[p].entry == entry
  }

  // As long as another process runs it stays so,
  lemma {:induction false} FreshStays(r: Run, i: nat, k: nat, p: int, entry: int)
    requires FromBoot(r) && i <= k < |r.states| && Shaped(r.states[i]) && Fresh(r.states[i], p, entry) && Asleep(r, p, i, k)
    ensures Shaped(r.states[k]) && Fresh(r.states[k], p, entry)
  {
    AsleepUntouched(r, i, k, p);
  }

  // and when it runs first, it is at its entry point.
  lemma {:induction false} FreshStarts(s: State, h: History, e: Event, p: int, entry: int)
    requires Inv(s, h) && Enabled(s, e) && Fresh(s, p, entry) && s.current != p && Step(s, e).current == p
    ensures Step(s, e).jump == ToUser(entry)
  {
    if e.Exit? {
      RunnerIsNobodysParent(s, h);
      if s.pcbs[s.current].parent != NONE {
        ParentOf(s, h, s.current);
        assert false;
      }
    }
  }

  lemma {:induction false} FirstRun(r: Run, i: nat, k: nat, p: int, entry: int)
    requires FromBoot(r) && i < k < |r.states| && Shaped(r.states[i]) && Fresh(r.states[i], p, entry) && Asleep(r, p, i, k - 1)
    requires r.states[k].current == p
    ensures r.states[k].jump == ToUser(entry)
  {
    FreshStays(r, i, k - 1, p, entry);
    var h := StepOfRun(r, k - 1);
    assert r.states[k - 1].current != p;
    FreshStarts(r.states[k - 1], h, r.events[k - 1], p, entry);
  }

  // A process started by operation i starts, whenever it first runs, at its
  // program's entry point.
  lemma {:induction false} ChildStartsAtEntry(r: Run, i: nat, k: nat)
    requires FromBoot(r) && i < |r.events| && Starts(r, i) && i < k < |r.states|
    requires r.states[k].current == FirstFree(r.states[i].queue)
    requires forall m :: i < m < k ==> r.states[m].current != FirstFree(r.states[i].queue)
    ensures r.states[k].jump == ToUser(r.events[i].program.value)
  {
    var p := FirstFree(r.states[i].queue);
    ChildIsFresh(r, i);
    if k > i + 1 {
      assert r.states[i + 1].current != p;
      hide FromBoot, Starts, Fresh;
      FirstRun(r, i + 1, k, p, r.events[i].program.value);
    }
  }

  lemma {:induction false} ChildIsFresh(r: Run, i: nat)
    requires FromBoot(r) && i < |r.events| && Starts(r, i)
    ensures var p, t, entry := FirstFree(r.states[i].queue), r.states[i + 1], r.events[i].program.value;
            && Shaped(t) && p < PROCESS_NUM
            && (if t.current == p then t.jump == ToUser(entry) else Fresh(t, p, entry))
  {
    var h := StepOfRun(r, i);
    ChildStarts(r, i);
    hide FromBoot, Inv, Step;
    ExecuteFills(r.states[i], r.events[i]);
  }

  // The new process's whole PCB, but for the argument's unused bytes; and its
  // entry point, if it is the one that runs now.
  lemma {:induction false} ExecuteFills(s: State, e: Event)
    requires Shaped(s) && Enabled(s, e) && e.Exec? && ExecuteSucceeds(s, e.command, e.program) && IsLive(s, s.current)
    ensures var p, t := FirstFree(s.queue), Step(s, e);
            var b := t.pcbs[p];
            && b.pid == p && b.parent == s.current && b.term == s.pcbs[s.current].term && b.entry == e.program.value
            && b.basePtr == e.ebp && b.stackPtr == e.esp && b.schedBp == 0 && b.rtcFreq == UNSET
            && CString(b.argument) == ArgumentOf(e.command.value)
            && (t.current == p ==> t.jump == ToUser(e.program.value))
  {
    ArgumentStored(s, e);
  }

  // The shells start at theirs.
  lemma {:induction false} ShellStartsAtEntry(r: Run, t: nat, k: nat)
    requires FromBoot(r) && t < TERM_MAX && 0 < k < |r.states| && r.states[k].current == t
    requires forall m :: 0 < m < k ==> r.states[m].current != t
    ensures r.states[k].jump == ToUser(r.states[0].pcbs[t].entry)
  {
    FirstRun(r, 0, k, t, r.states[0].pcbs[t].entry);
  }

  // A shell that ends runs again from its entry point, and nothing else
  // changes.
  lemma {:induction false} ShellRestarts(r: Run, n: nat)
    requires FromBoot(r) && n < |r.events| && r.events[n].Exit? && Shaped(r.states[n]) && 0 <= r.states[n].current < PROCESS_NUM
    requires r.states[n].pcbs[r.states[n].current].parent == NONE
    ensures var s, t, c := r.states[n], r.states[n + 1], r.states[n].current;
            && t.jump == ToUser(r.events[n].shell)
            && t == s.(jump := t.jump, pcbs := s.pcbs[c := s.pcbs[c].(entry := r.events[n].shell)])
  {
    var h := StepOfRun(r, n);
    RunnerIsNobodysParent(r.states[n], h);
  }

  // A process that ends gives up every descriptor, and the clock with one; its
  // PCB keeps the rest.
  lemma {:induction false} EndGivesUp(r: Run, n: nat)
    requires FromBoot(r) && n < |r.events| && Shaped(r.states[n]) && EndsProcess(r.states[n], r.events[n])
    ensures Shaped(r.states[n + 1])
    ensures var b, c := r.states[n].pcbs[r.states[n].current], r.states[n + 1].pcbs[r.states[n].current];
            && |c.fds| == MAX_NUM_FD && (forall i :: 0 <= i < MAX_NUM_FD ==> c.fds[i] == b.fds[i].(isOpen := false))
            && c == b.(fds := c.fds, rtcFreq := c.rtcFreq)
            && c.rtcFreq == (if exists i :: 2 <= i < MAX_NUM_FD && HoldsClock(b.fds[i]) then UNSET else b.rtcFreq)
  {
    var h := StepOfRun(r, n);
    RunnerIsNobodysParent(r.states[n], h);
    ExitClosesAll(r.states[n], r.events[n]);
    ClosedBelowIs(r.states[n].pcbs[r.states[n].current], MAX_NUM_FD);
  }

  predicate HoldsClock(f: Fd) {
    f.isOpen && f.ops == RtcOps
  }

  lemma {:induction false} ExitClosesAll(s: State, e: Event)
    requires Shaped(s) && Enabled(s, e) && EndsProcess(s, e) && s.pcbs[s.current].parent != s.current
    ensures Step(s, e).pcbs[s.current] == ClosedBelow(s.pcbs[s.current], MAX_NUM_FD)
  {
  }

  lemma {:induction false} ClosedBelowIs(b: Pcb, n: nat)
    requires |b.fds| == MAX_NUM_FD && n <= MAX_NUM_FD
    ensures var c := ClosedBelow(b, n);
            && (forall i :: 0 <= i < n ==> c.fds[i] == b.fds[i].(isOpen := false))
            && c.rtcFreq == (if exists i :: 2 <= i < n && HoldsClock(b.fds[i]) then UNSET else b.rtcFreq)
  {
    if n > 0 {
      ClosedBelowIs(b, n - 1);
      if n > 2 && HoldsClock(b.fds[n - 1]) {
        assert HoldsClock(b.fds[n - 1]);
      }
    }
  }

  // Close closes an open descriptor other than 0 and 1, and only that; with
  // the clock's the rate is given up, and the hardware goes on as it did.
  // Any other close changes nothing.
  lemma {:induction false} CloseClosesOne(r: Run, n: nat)
    requires FromBoot(r) && n < |r.events| && r.events[n].CloseCall?
    ensures var s, t, c, fd := r.states[n], r.states[n + 1], r.states[n].current, r.events[n].fd;
            && Shaped(s) && Shaped(t) && 0 <= c < PROCESS_NUM
            && var b := s.pcbs[c];
               if 2 <= fd < MAX_NUM_FD && b.fds[fd].isOpen then
                 t == s.(pcbs := s.pcbs[c := b.(fds := b.fds[fd := b.fds[fd].(isOpen := false)],
                                                rtcFreq := if HoldsClock(b.fds[fd]) then UNSET else b.rtcFreq)])
               else t == s
  {
    var h := StepOfRun(r, n);
    RunnerIsNobodysParent(r.states[n], h);
  }

  // Open succeeds exactly when one of the descriptors 2 to 7 is closed and the
  // name stands for the clock, a directory or a file.
  lemma {:induction false} OpenSucceedsIff(r: Run, n: nat)
    requires FromBoot(r) && n < |r.events| && r.events[n].OpenCall? && Shaped(r.states[n]) && 0 <= r.states[n].current < PROCESS_NUM
    ensures var b, found := r.states[n].pcbs[r.states[n].current], r.events[n].found;
            CanOpen(b, found) <==> (exists i :: 2 <= i < 8 && !b.fds[i].isOpen) && found.Some? && 0 <= found.value.ftype <= 2
  {
    var h := StepOfRun(r, n);
    LowestIsFree(r.states[n], h);
  }

  // Opening the clock asks for 2 Hz, and the hardware then runs at that;
  // opening anything else leaves rate and clock alone.  What is opened serves
  // the new descriptor.
  lemma {:induction false} OpenFillsDescriptor(r: Run, n: nat)
    requires FromBoot(r) && n < |r.events| && r.events[n].OpenCall? && Shaped(r.states[n]) && 0 <= r.states[n].current < PROCESS_NUM
    requires CanOpen(r.states[n].pcbs[r.states[n].current], r.events[n].found)
    ensures var s, t, c, e := r.states[n], r.states[n + 1], r.states[n].current, r.events[n].found.value;
            && Shaped(t) && t == s.(pcbs := t.pcbs, clock := t.clock)
            && (exists i :: 2 <= i < MAX_NUM_FD && Opened(s.pcbs[c].fds, t.pcbs[c].fds, i) && Serves(t.pcbs[c].fds[i], e))
            && t.pcbs == s.pcbs[c := s.pcbs[c].(fds := t.pcbs[c].fds, rtcFreq := t.pcbs[c].rtcFreq)]
            && (if e.ftype == FTYPE_RTC then t.pcbs[c].rtcFreq == 2 && Hertz(t.clock.regA) == 2
                else t.pcbs[c].rtcFreq == s.pcbs[c].rtcFreq && t.clock == s.clock)
  {
    var h := StepOfRun(r, n);
    var s, t := r.states[n], r.states[n + 1];
    LowestIsFree(s, h);
    SetFreqReachesHardware(s.clock, 2);
    var i := LowestClosed(s.pcbs[s.current].fds);
    assert Opened(s.pcbs[s.current].fds, t.pcbs[s.current].fds, i) && Serves(t.pcbs[s.current].fds[i], r.events[n].found.value);
  }

  // A descriptor belongs to what a directory entry stands for.
  predicate Serves(f: Fd, e: DirEntry) {
    && f.inode == e.inode
    && (f.ops == RtcOps <==> e.ftype == FTYPE_RTC) && (f.ops == DirOps <==> e.ftype == FTYPE_DIR)
    && (f.ops == FileOps <==> e.ftype == FTYPE_FILE)
  }

  // Writing a rate that exists to the clock makes it the process's and the
  // hardware's; any other rate changes nothing.
  lemma {:induction false} WriteSetsRate(r: Run, n: nat)
    requires FromBoot(r) && n < |r.events| && r.events[n].WriteRtc?
    ensures var s, t, c, freq := r.states[n], r.states[n + 1], r.states[n].current, r.events[n].freq;
            && Shaped(s) && Shaped(t) && 0 <= c < PROCESS_NUM
            && if freq in {2, 4, 8, 16, 32, 64, 128, 256, 512, 1024} then
                 Hertz(t.clock.regA) == freq && t == s.(clock := t.clock, pcbs := s.pcbs[c := s.pcbs[c].(rtcFreq := freq)])
               else t == s
  {
    var h := StepOfRun(r, n);
    RunnerIsNobodysParent(r.states[n], h);
    SetFreqReachesHardware(r.states[n].clock, r.events[n].freq);
  }
}
