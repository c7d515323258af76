// Process control blocks, the process queue, and what each kernel operation
// does to them, as functions of the whole kernel state.
module Process {
  import opened Text
  import opened FileSystem
  import opened Rtc
  import opened Limits

  const PROCESS_NUM := 6
  const MAX_NUM_FD := 8
  const MAX_ARGS := 128
  const STDIN := 0
  const STDOUT := 1
  const NONE := -1

  // Loaded: in memory, but waiting for a child.
  datatype Load = NotLoaded | Loaded | Scheduled

  datatype Ops = NoOps | StdinOps | StdoutOps | RtcOps | DirOps | FileOps

  datatype Fd = Fd(ops: Ops, inode: uint32, pos: nat, isOpen: bool)

  datatype Pcb = Pcb(fds: seq<Fd>, pid: int, stackPtr: int, basePtr: int, schedBp: int, parent: int,
                     entry: int, term: int, argument: seq<byte>, rtcFreq: int)

  // How the kernel last left an operation: into a program's entry point, back
  // into the sched() frame of a process, or back out of an execute() call.
  datatype Jump = Nowhere | ToUser(entry: int) | SchedReturn(stackPtr: int, bp: int) | ExecuteReturn(bp: int, status: int)

  // frame is the process whose 4 MB frame the process page maps.
  datatype State = State(queue: seq<Load>, pcbs: seq<Pcb>, current: int, esp0: int, frame: int, clock: Clock, jump: Jump)

  predicate ShapedPcb(b: Pcb) {
    |b.fds| == MAX_NUM_FD && |b.argument| == MAX_ARGS && 0 <= b.term < TERM_MAX && -1 <= b.parent < PROCESS_NUM
  }

  predicate Shaped(s: State) {
    && |s.queue| == PROCESS_NUM && |s.pcbs| == PROCESS_NUM && -1 <= s.current < PROCESS_NUM
    && forall p :: 0 <= p < PROCESS_NUM ==> ShapedPcb(s.pcbs[p])
  }

  // The 8 KB blocks below 8 MB that hold a PCB at the bottom and a kernel
  // stack growing down from the top.
  const PCB_OFFSET := 0x80_0000
  const PROCESS_DATA_SIZE := 0x2000

  function StackTop(pid: int): int {
    PCB_OFFSET - PROCESS_DATA_SIZE * pid
  }

  function PcbAddress(pid: int): int {
    PCB_OFFSET - PROCESS_DATA_SIZE * (pid + 1)
  }

  // The first free pid, or PROCESS_NUM.
  function FirstFree(queue: seq<Load>): (p: nat)
    ensures p <= |queue|
    ensures p < |queue| ==> queue[p].NotLoaded?
    ensures forall i :: 0 <= i < p ==> !queue[i].NotLoaded?
  {
    if queue == [] || queue[0].NotLoaded? then 0 else 1 + FirstFree(queue[1..])
  }

  // The first scheduled pid among the five that follow cur in cyclic order;
  // failing that, the fifth.
  function Next(queue: seq<Load>, cur: int, i: int): (p: int)
    requires |queue| == PROCESS_NUM && 1 <= i <= 5 && -1 <= cur
    ensures 0 <= p < PROCESS_NUM
    decreases 5 - i
  {
    var p := (cur + i) % PROCESS_NUM;
    if queue[p].Scheduled? || i == 5 then p else Next(queue, cur, i + 1)
  }

  // Put the running process to sleep and run the next scheduled one.
  function Sched(s: State, bp: int, sp: int): (r: State)
    requires Shaped(s)
    ensures Shaped(r)
  {
    var pcbs := if s.current == NONE then s.pcbs else s.pcbs[s.current := s.pcbs[s.current].(schedBp := bp, stackPtr := sp)];
    var p := Next(s.queue, s.current, 1);
    var b := pcbs[p];
    s.(pcbs := pcbs, current := p, esp0 := StackTop(p), frame := p,
       clock := if b.rtcFreq == UNSET then s.clock else SetFreq(s.clock, b.rtcFreq),
       jump := if b.schedBp == 0 then ToUser(b.entry) else SchedReturn(b.stackPtr, b.schedBp))
  }

  // A command line: blanks, the program's name, blanks, its argument.
  function Blanks(s: seq<byte>): (n: nat)
    ensures n <= |s|
    ensures forall i :: 0 <= i < n ==> s[i] == SPACE
    ensures n < |s| ==> s[n] != SPACE
  {
    if s != [] && s[0] == SPACE then 1 + Blanks(s[1..]) else 0
  }

  function ProgramOf(command: seq<byte>): seq<byte> {
    var rest := command[Blanks(command)..];
    rest[..Find(rest, SPACE)]
  }

  function ArgumentOf(command: seq<byte>): seq<byte> {
    var rest := command[Blanks(command)..];
    var tail := rest[Find(rest, SPACE)..];
    tail[Blanks(tail)..]
  }

  // A command line that fits the kernel's buffers.
  predicate Fits(command: seq<byte>) {
    NulFree(command) && |ProgramOf(command)| <= KB_BUF_SIZE && |ArgumentOf(command)| < MAX_ARGS
  }

  function StoreString(buf: seq<byte>, s: seq<byte>): (r: seq<byte>)
    requires |s| < |buf|
    ensures |r| == |buf| && r[|s|] == NUL
  {
    s + [NUL] + buf[|s| + 1..]
  }

  // A program's standard input and output.
  function WithStdio(fds: seq<Fd>): seq<Fd>
    requires |fds| == MAX_NUM_FD
  {
    fds[STDIN := fds[STDIN].(ops := StdinOps, isOpen := true)][STDOUT := fds[STDOUT].(ops := StdoutOps, isOpen := true)]
  }

  // The state in which a new process is ready to be scheduled.
  function Launched(s: State, p: nat, entry: uint32, ebp: int, esp: int): (r: State)
    requires Shaped(s) && p < PROCESS_NUM && s.current != NONE
    ensures |r.queue| == PROCESS_NUM && Shaped(r)
  {
    var d := s.pcbs[p].(pid := p, parent := s.current, fds := WithStdio(s.pcbs[p].fds), entry := entry, schedBp := 0,
                        rtcFreq := UNSET, basePtr := ebp, stackPtr := esp);
    s.(pcbs := s.pcbs[p := d], queue := s.queue[s.current := Loaded][p := Scheduled], frame := p, esp0 := StackTop(s.current))
  }

  predicate ExecuteSucceeds(s: State, command: Option<seq<byte>>, program: Option<uint32>) {
    FirstFree(s.queue) < |s.queue| && command.Some? && program.Some?
  }

  // A command given to process p: its terminal is the running process's, then
  // its argument is set, and if the program is executable it becomes ready.
  function Prepared(s: State, p: nat, command: Option<seq<byte>>, program: Option<uint32>, ebp: int, esp: int): (r: State)
    requires Shaped(s) && s.current != NONE && p < PROCESS_NUM
    requires command.Some? ==> Fits(command.value)
    ensures Shaped(r)
  {
    var b := s.pcbs[p].(term := s.pcbs[s.current].term);
    if command.None? then s.(pcbs := s.pcbs[p := b])
    else
      var c := b.(argument := StoreString(b.argument, ArgumentOf(command.value)));
      var s' := s.(pcbs := s.pcbs[p := c]);
      if program.None? then s' else Launched(s', p, program.value, ebp, esp)
  }

  // Run a command as a child of the running process.  `program` is the entry
  // point of the program named, if it is executable; ebp and esp are those of
  // this call, bp and sp those of the call of the scheduler in it.
  function Execute(s: State, command: Option<seq<byte>>, program: Option<uint32>, ebp: int, esp: int, bp: int, sp: int): (r: State)
    requires Shaped(s) && s.current != NONE
    requires command.Some? ==> Fits(command.value)
    ensures Shaped(r)
  {
    var p := FirstFree(s.queue);
    if p == PROCESS_NUM then s
    else
      var s' := Prepared(s, p, command, program, ebp, esp);
      if command.Some? && program.Some? then Sched(s', bp, sp) else s'
  }

  // Close a descriptor of the running process; 0 and 1 cannot be closed.
  function Close(s: State, fd: int): (r: State)
    requires Shaped(s) && s.current != NONE
    ensures Shaped(r)
  {
    var b := s.pcbs[s.current];
    if fd < 2 || fd >= MAX_NUM_FD || !b.fds[fd].isOpen then s
    else s.(pcbs := s.pcbs[s.current := ClosedOne(b, fd)])
  }

  function ClosedOne(b: Pcb, fd: nat): Pcb
    requires fd < |b.fds|
  {
    b.(fds := b.fds[fd := b.fds[fd].(isOpen := false)],
       rtcFreq := if b.fds[fd].ops == RtcOps then UNSET else b.rtcFreq)
  }

  // The PCB once its first n descriptors are closed.
  function ClosedBelow(b: Pcb, n: nat): (r: Pcb)
    requires n <= |b.fds|
    ensures |r.fds| == |b.fds| && r.(fds := b.fds, rtcFreq := b.rtcFreq) == b
    ensures forall i :: 0 <= i < n ==> !r.fds[i].isOpen
    ensures forall i :: n <= i < |b.fds| ==> r.fds[i] == b.fds[i]
  {
    if n == 0 then b
    else
      var r := ClosedBelow(b, n - 1);
      var fd := n - 1;
      if fd < 2 then r.(fds := r.fds[fd := r.fds[fd].(isOpen := false)])
      else if r.fds[fd].isOpen then ClosedOne(r, fd)
      else r
  }

  // End the running process.  A shell is started afresh instead.
  function Halt(s: State, status: int, shell: uint32): (r: State)
    requires Shaped(s) && s.current != NONE
    ensures Shaped(r)
  {
    var b := s.pcbs[s.current];
    if b.parent == NONE then
      s.(current := b.term, pcbs := s.pcbs[s.current := b.(entry := shell)], jump := ToUser(shell))
    else
      s.(pcbs := s.pcbs[s.current := ClosedBelow(b, MAX_NUM_FD)],
         queue := s.queue[s.current := NotLoaded][b.parent := Scheduled],
         current := b.parent, esp0 := StackTop(b.parent), frame := b.parent,
         jump := ExecuteReturn(b.basePtr, status))
  }

  // The lowest closed descriptor, or the table's size.
  function LowestClosed(fds: seq<Fd>): (i: nat)
    ensures i <= |fds|
    ensures i < |fds| ==> !fds[i].isOpen
    ensures forall k :: 0 <= k < i ==> fds[k].isOpen
  {
    if fds == [] || !fds[0].isOpen then 0 else 1 + LowestClosed(fds[1..])
  }

  function OpsOf(ftype: uint32): Option<Ops> {
    var kind := KindOf(ftype);
    if kind.None? then None
    else Some(if kind.value.Rtc? then RtcOps else if kind.value.Dir? then DirOps else FileOps)
  }

  // Whether the open call succeeds, given what the name was found to be.
  predicate CanOpen(b: Pcb, found: Option<DirEntry>) {
    LowestClosed(b.fds) < |b.fds| && found.Some? && OpsOf(found.value.ftype).Some?
  }

  function Open(s: State, found: Option<DirEntry>): (r: State)
    requires Shaped(s) && s.current != NONE
    ensures Shaped(r)
  {
    var b := s.pcbs[s.current];
    if !CanOpen(b, found) then s
    else
      var fd := Fd(OpsOf(found.value.ftype).value, found.value.inode, 0, true);
      var c := b.(fds := b.fds[LowestClosed(b.fds) := fd]);
      if fd.ops == RtcOps then s.(pcbs := s.pcbs[s.current := c.(rtcFreq := 2)], clock := SetFreq(s.clock, 2))
      else s.(pcbs := s.pcbs[s.current := c])
  }

  // Write a frequency to the clock.
  function RtcWrite(s: State, freq: int): (r: State)
    requires Shaped(s) && s.current != NONE
    ensures Shaped(r)
  {
    if freq == s.clock.cached || Supported(freq) then
      s.(clock := SetFreq(s.clock, freq), pcbs := s.pcbs[s.current := s.pcbs[s.current].(rtcFreq := freq)])
    else s
  }

  // A read that advances the position of a descriptor.
  function Advance(s: State, fd: nat, n: nat): (r: State)
    requires Shaped(s) && s.current != NONE && fd < MAX_NUM_FD
    ensures Shaped(r)
  {
    var b := s.pcbs[s.current];
    s.(pcbs := s.pcbs[s.current := b.(fds := b.fds[fd := b.fds[fd].(pos := b.fds[fd].pos + n)])])
  }

  // Descriptor fd is one a file or the directory can be read through.
  predicate ReadsFile(b: Pcb, fd: int) {
    0 <= fd < |b.fds| && b.fds[fd].isOpen && (b.fds[fd].ops == FileOps || b.fds[fd].ops == DirOps)
  }

  // One atomic kernel operation.
  datatype Event =
    | Tick(bp: int, sp: int)
    | Exec(command: Option<seq<byte>>, program: Option<uint32>, ebp: int, esp: int, bp: int, sp: int)
    | Exit(status: int, shell: uint32)
    | OpenCall(found: Option<DirEntry>)
    | CloseCall(fd: int)
    | WriteRtc(freq: int)
    | ReadCall(slot: nat, asked: uint32, n: nat)

  // Only a running process makes system calls, commands fit the buffers, and
  // only what is open is read.
  predicate Enabled(s: State, e: Event)
    requires Shaped(s)
  {
    && (s.current != NONE || e.Tick?)
    && (e.Exec? && e.command.Some? ==> Fits(e.command.value))
    && (e.ReadCall? ==> ReadsFile(s.pcbs[s.current], e.slot))
  }

  function Step(s: State, e: Event): (r: State)
    requires Shaped(s) && Enabled(s, e)
    ensures Shaped(r)
  {
    match e
    case Tick(bp, sp) => Sched(s, bp, sp)
    case Exec(command, program, ebp, esp, bp, sp) => Execute(s, command, program, ebp, esp, bp, sp)
    case Exit(status, shell) => Halt(s, status, shell)
    case OpenCall(found) => Open(s, found)
    case CloseCall(fd) => Close(s, fd)
    case WriteRtc(freq) => RtcWrite(s, freq)
    case ReadCall(slot, _, n) => Advance(s, slot, n)
  }

  // How many bytes an image holds behind a descriptor.
  function LengthOf(fs: Image, f: Fd): nat {
    match f.ops
    case DirOps => NAME_LIMIT * |fs.entries|
    case FileOps => if f.inode < |fs.inodes| then fs.inodes[f.inode].length else 0
    case _ => 0
  }

  // A read that succeeds returns as many of the bytes asked for as there are,
  // none asked for in a bad block.
  ghost predicate Returns(fs: Image, f: Fd, asked: uint32, n: nat)
    requires ValidImage(fs)
  {
    && n == Avail(LengthOf(fs, f), f.pos, asked)
    && (f.ops == FileOps ==> f.inode < |fs.inodes| && GoodBetween(fs, f.inode, f.pos, f.pos + asked))
  }

  // The bytes it delivers.
  ghost function BytesRead(fs: Image, f: Fd, asked: uint32, n: nat): (bytes: seq<byte>)
    requires ValidImage(fs) && (f.ops == FileOps || f.ops == DirOps) && Returns(fs, f, asked, n)
    ensures |bytes| == n
  {
    if n == 0 then []
    else if f.ops == DirOps then Listing(fs)[f.pos..f.pos + n]
    else BytesFrom(fs, f.inode, f.pos, n)
  }

  // An operation that returns what the image holds.
  ghost predicate Served(fs: Image, s: State, e: Event)
    requires ValidImage(fs) && Shaped(s) && Enabled(s, e)
  {
    e.ReadCall? ==> Returns(fs, s.pcbs[s.current].fds[e.slot], e.asked, e.n)
  }

  // The operation runs the scheduler.
  predicate Reschedules(s: State, e: Event) {
    e.Tick? || (e.Exec? && ExecuteSucceeds(s, e.command, e.program))
  }

  // The operation ends a process; a shell is restarted instead.
  predicate EndsProcess(s: State, e: Event) {
    e.Exit? && 0 <= s.current < |s.pcbs| && s.pcbs[s.current].parent != NONE
  }

  // A run: the operations, and the states before, between and after them.
  datatype Run = Run(states: seq<State>, events: seq<Event>)

  ghost predicate Follows(r: Run, i: nat)
    requires i < |r.events| && |r.states| == |r.events| + 1
  {
    Shaped(r.states[i]) && Enabled(r.states[i], r.events[i]) && r.states[i + 1] == Step(r.states[i], r.events[i])
  }
}
