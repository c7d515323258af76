// A run from boot after which the hardware clock does not run at the rate the
// running process asked for.
module ClockDrift {
  import opened Text
  import opened Limits
  import opened FileSystem
  import opened Rtc
  import opened Process
  import opened Lifecycle
  import opened Bracketing

  const CLOSED := Fd(NoOps, 0, 0, false)

  function Fds(stdio: bool): (fds: seq<Fd>)
    ensures |fds| == MAX_NUM_FD
  {
    [Fd(StdinOps, 0, 0, stdio), Fd(StdoutOps, 0, 0, stdio), CLOSED, CLOSED, CLOSED, CLOSED, CLOSED, CLOSED]
  }

  function BootPcb(p: nat): (b: Pcb)
    requires p < PROCESS_NUM
    ensures ShapedPcb(b) && b.pid == p && b.schedBp == 0 && b.rtcFreq == UNSET && b.parent == NONE && NUL in b.argument
    ensures p < TERM_MAX ==> b.term == p && b.fds[STDIN].isOpen && b.fds[STDOUT].isOpen && OnlyStdio(b.fds)
    ensures p >= TERM_MAX ==> AllClosed(b.fds)
  {
    var argument := seq(MAX_ARGS, _ => NUL);
    assert argument[0] == NUL;
    Pcb(Fds(p < TERM_MAX), p, 0, 0, 0, NONE, 0, if p < TERM_MAX then p else 0, argument, UNSET)
  }

  function Boot(): (s: State)
    ensures Shaped(s)
  {
    State([Scheduled, Scheduled, Scheduled, NotLoaded, NotLoaded, NotLoaded],
          [BootPcb(0), BootPcb(1), BootPcb(2), BootPcb(3), BootPcb(4), BootPcb(5)],
          NONE, StackTop(0), 2, SetFreq(Clock(UNSET, 0), 2), Nowhere)
  }

  lemma {:induction false} BootIsBooted()
    ensures Booted(Boot())
  {
    hide BootPcb, OnlyStdio, AllClosed, SetFreq, Consistent;
    InitIsConsistent(0);
    forall p | 0 <= p < PROCESS_NUM
      ensures Boot().pcbs[p] == BootPcb(p)
    {
    }
  }

  const CLOCK_FILE := Some(DirEntry([], FTYPE_RTC, 0))
  const PROGRAM: seq<byte> := [0x61]
  const TICK := Tick(1, 0)
  const OPEN := OpenCall(CLOCK_FILE)
  const WRITE := WriteRtc(1024)
  const EXEC := Exec(Some(PROGRAM), Some(0), 1, 0, 1, 0)
  const EXIT := Exit(0, 0)

  // What matters of a state: who runs, who can, the rates asked for, and what
  // the clock is set to.
  predicate At(s: State, current: int, child: Load, rate0: int, rate3: int, cached: int) {
    && Shaped(s) && s.current == current && Consistent(s.clock) && s.clock.cached == cached
    && s.queue[1] == s.queue[2] == Scheduled && s.queue[3] == child && s.queue[4] == s.queue[5] == NotLoaded
    && s.queue[0] == (if child == NotLoaded then Scheduled else Loaded)
    && s.pcbs[0].rtcFreq == rate0 && s.pcbs[1].rtcFreq == s.pcbs[2].rtcFreq == UNSET
    && (child == Scheduled ==> s.pcbs[3].parent == 0 && s.pcbs[3].rtcFreq == rate3)
    && (rate0 == UNSET ==> !s.pcbs[0].fds[2].isOpen)
    && (rate3 == UNSET ==> !s.pcbs[3].fds[2].isOpen)
  }

  lemma {:induction false} Started()
    ensures At(Step(Boot(), TICK), 0, NotLoaded, UNSET, UNSET, 2)
  {
    InitIsConsistent(0);
    assert Next(Boot().queue, NONE, 1) == 0;
  }

  lemma {:induction false} Opens(s: State, child: Load, rate0: int, rate3: int, cached: int)
    requires At(s, s.current, child, rate0, rate3, cached)
    requires (s.current == 0 && rate0 == UNSET) || (s.current == 3 && rate3 == UNSET)
    ensures At(Step(s, OPEN), s.current, child, if s.current == 0 then 2 else rate0, if s.current == 3 then 2 else rate3, 2)
  {
    var fds := s.pcbs[s.current].fds;
    assert LowestClosed(fds) <= 2;
    SetFreqReachesHardware(s.clock, 2);
  }

  lemma {:induction false} Writes(s: State)
    requires At(s, 0, NotLoaded, 2, UNSET, 2)
    ensures At(Step(s, WRITE), 0, NotLoaded, 1024, UNSET, 1024)
  {
    SetFreqReachesHardware(s.clock, 1024);
  }

  lemma {:induction false} ProgramFits()
    ensures Fits(PROGRAM)
  {
  }

  lemma {:induction false} Executes(s: State)
    requires At(s, 0, NotLoaded, 1024, UNSET, 1024)
    ensures Enabled(s, EXEC) && At(Step(s, EXEC), 1, Scheduled, 1024, UNSET, 1024)
  {
    ProgramFits();
    hide Fits, ArgumentOf, StoreString;
    assert FirstFree(s.queue) == 3;
  }

  lemma {:induction false} Ticks(s: State)
    requires At(s, s.current, Scheduled, 1024, UNSET, 1024) && 1 <= s.current <= 2
    ensures At(Step(s, TICK), s.current + 1, Scheduled, 1024, UNSET, 1024)
  {
    assert Next(s.queue, s.current, 1) == s.current + 1;
  }

  lemma {:induction false} Ends(s: State)
    requires At(s, 3, Scheduled, 1024, 2, 2)
    ensures EndsProcess(s, EXIT) && !RateOk(Step(s, EXIT))
  {
  }

  function Last(r: Run): State
    requires |r.states| == |r.events| + 1
  {
    r.states[|r.events|]
  }

  // A run goes on with one more operation.
  lemma {:induction false} Extended(r: Run, e: Event) returns (q: Run)
    requires FromBoot(r) && Shaped(Last(r)) && Enabled(Last(r), e)
    ensures FromBoot(q) && |q.events| == |r.events| + 1 && q.events[|r.events|] == e
    ensures q.states[|r.events|] == Last(r) && Last(q) == Step(Last(r), e)
  {
    hide Step, Booted, Enabled, Shaped;
    q := Run(r.states + [Step(Last(r), e)], r.events + [e]);
    forall i | 0 <= i < |q.events|
      ensures Follows(q, i)
    {
      if i < |r.events| {
        assert Follows(r, i);
      }
    }
  }

  // Shell 0 opens the clock, sets 1024 Hz and starts a program.
  lemma {:induction false} FirstHalf() returns (r: Run)
    ensures FromBoot(r) && |r.events| == 4 && At(Last(r), 1, Scheduled, 1024, UNSET, 1024)
  {
    BootIsBooted();
    Started();
    hide Boot, Booted, Step, Fits;
    r := Run([Boot()], []);
    r := Extended(r, TICK);
    Opens(Last(r), NotLoaded, UNSET, UNSET, 2);
    r := Extended(r, OPEN);
    Writes(Last(r));
    r := Extended(r, WRITE);
    Executes(Last(r));
    r := Extended(r, EXEC);
  }

  // So the rate is wrong in a reachable state: when that program runs it opens
  // the clock, which sets 2 Hz, and ends; and the shell goes on with the clock
  // at 2 Hz.
  lemma {:induction false} RateCanBeWrong() returns (r: Run)
    ensures FromBoot(r) && |r.events| == 8
    ensures EndsProcess(r.states[7], r.events[7]) && Shaped(r.states[8]) && !RateOk(r.states[8])
  {
    r := FirstHalf();
    hide Step, EndsProcess, RateOk;
    Ticks(Last(r));
    r := Extended(r, TICK);
    Ticks(Last(r));
    r := Extended(r, TICK);
    Opens(Last(r), Scheduled, 1024, UNSET, 1024);
    r := Extended(r, OPEN);
    Ends(Last(r));
    r := Extended(r, EXIT);
  }
}
