// The kernel itself: arrays of queue slots and PCBs updated in place, the page
// directory, the clock and the process pages.  Every operation is proved to do
// what Process says it does.
module Kernel {
  import opened Text
  import opened Limits
  import opened FileSystem
  import opened Directory
  import opened Rtc
  import opened Paging
  import L = Lifecycle
  import opened Process

  const SHELL: seq<byte> := [0x73, 0x68, 0x65, 0x6C, 0x6C]

  // There is a shell, and it fits a process page.
  predicate Bootable(fs: Image) {
    Lookup(fs.entries, SHELL).Some? && Loadable(fs, SHELL)
  }

  // If there is a file of that name, it fits a process page.
  predicate Loadable(fs: Image, name: seq<byte>) {
    Lookup(fs.entries, name).Some? ==> FitsPage(fs, Lookup(fs.entries, name).value.inode)
  }

  // The entry point of the program of that name, when it is taken for one.
  // The two words are what the kernel's stack held before it read over them.
  ghost function EntryOf(fs: Image, name: seq<byte>, header: seq<byte>, word: seq<byte>): Option<uint32>
    requires ValidImage(fs) && |header| == 4 && |word| == 4
  {
    if Lookup(fs.entries, name).None? then None
    else if WordOf(fs, Lookup(fs.entries, name).value.inode, 0, header) == ELF_HEADER then Some(EntryPoint(fs, name, word))
    else None
  }

  ghost function EntryPoint(fs: Image, name: seq<byte>, word: seq<byte>): uint32
    requires ValidImage(fs) && Lookup(fs.entries, name).Some? && |word| == 4
  {
    LittleEndian(WordOf(fs, Lookup(fs.entries, name).value.inode, ENTRY_OFFSET, word))
  }

  // The program's file, when there is one and it can be read, lies in the page.
  ghost predicate Holds(fs: Image, name: seq<byte>, page: seq<byte>)
    requires ValidImage(fs)
  {
    Lookup(fs.entries, name).Some? && Readable(fs, Lookup(fs.entries, name).value.inode) ==>
      var file := FileBytes(fs, Lookup(fs.entries, name).value.inode);
      LOAD_OFFSET + |file| <= |page| && page[LOAD_OFFSET..LOAD_OFFSET + |file|] == file
  }

  // So the bytes of the file stand at 0x4_8000 and after.
  lemma {:induction false} HeldAt(fs: Image, name: seq<byte>, page: seq<byte>, k: nat)
    requires ValidImage(fs) && Holds(fs, name, page) && Lookup(fs.entries, name).Some?
    requires Readable(fs, Lookup(fs.entries, name).value.inode)
    requires k < |FileBytes(fs, Lookup(fs.entries, name).value.inode)|
    ensures 0x4_8000 + k < |page| && page[0x4_8000 + k] == FileBytes(fs, Lookup(fs.entries, name).value.inode)[k]
  {
    var file := FileBytes(fs, Lookup(fs.entries, name).value.inode);
    assert page[LOAD_OFFSET..LOAD_OFFSET + |file|][k] == file[k];
  }

  method SkipBlanks(command: seq<byte>, at: nat) returns (i: nat)
    requires NUL in command && at <= Find(command, NUL)
    ensures i == at + Blanks(CString(command)[at..]) <= Find(command, NUL)
  {
    ghost var cmd := CString(command);
    i := at;
    while command[i] == SPACE
      invariant at <= i <= |cmd| < |command| && command[|cmd|] == NUL
      invariant at + Blanks(cmd[at..]) == i + Blanks(cmd[i..])
      decreases |cmd| - i
    {
      assert cmd[i..][1..] == cmd[i + 1..];
      i := i + 1;
    }
  }

  // Copy the word at command[at..] to a buffer, and terminate it.
  method CopyWord(command: seq<byte>, at: nat, program: array<byte>) returns (i: nat)
    requires NUL in command && at <= Find(command, NUL)
    requires Find(CString(command)[at..], SPACE) < program.Length
    modifies program
    ensures i == at + Find(CString(command)[at..], SPACE) <= Find(command, NUL)
    ensures CString(program[..]) == CString(command)[at..i] && NUL in program[..]
  {
    ghost var cmd := CString(command);
    ghost var w := Find(cmd[at..], SPACE);
    var j := 0;
    i := at;
    assert forall k :: at <= k < at + w ==> command[k] == cmd[at..][k - at] != SPACE;
    while command[i] != SPACE && command[i] != NUL
      invariant i == at + j && j <= w && at + w <= |cmd| < |command| && command[|cmd|] == NUL
      invariant program[..j] == cmd[at..i]
      decreases w - j
    {
      program[j] := command[i];
      assert program[..j + 1] == program[..j] + [cmd[i]];
      j := j + 1;
      i := i + 1;
    }
    assert j == w;
    program[j] := NUL;
    assert program[..][..j] == cmd[at..i];
    WordAt(program[..], command, at, i);
  }

  lemma {:induction false} WordAt(s: seq<byte>, command: seq<byte>, from: nat, to: nat)
    requires from <= to <= Find(command, NUL) && to - from < |s|
    requires s[..to - from] == CString(command)[from..to] && s[to - from] == NUL
    ensures CString(s) == CString(command)[from..to] && NUL in s
  {
    assert forall k :: from <= k < to ==> CString(command)[from..to][k - from] == command[k];
    StringAt(s, to - from);
  }

  lemma {:induction false} StringAt(s: seq<byte>, n: nat)
    requires n < |s| && s[n] == NUL && NulFree(s[..n])
    ensures CString(s) == s[..n]
  {
  }

  // Where the parts of a command line lie.
  lemma {:induction false} ProgramAt(cmd: seq<byte>, i: nat, w: nat)
    requires i == Blanks(cmd) && w == Find(cmd[i..], SPACE)
    ensures i + w <= |cmd| && ProgramOf(cmd) == cmd[i..i + w]
  {
    SliceOfTail(cmd, i, w);
  }

  lemma {:induction false} ArgumentAt(cmd: seq<byte>, i: nat, w: nat, k: nat)
    requires i == Blanks(cmd) && w == Find(cmd[i..], SPACE) && k == Blanks(cmd[i + w..])
    ensures i + w + k <= |cmd| && ArgumentOf(cmd) == cmd[i + w + k..]
  {
    SliceOfTail(cmd, i, w);
    SliceOfTail(cmd, i + w, k);
  }

  method ParseName(command: seq<byte>) returns (program: seq<byte>, k: nat)
    requires NUL in command && |ProgramOf(CString(command))| <= KB_BUF_SIZE
    ensures NUL in program && CString(program) == ProgramOf(CString(command))
    ensures k <= Find(command, NUL) && CString(command)[k..] == ArgumentOf(CString(command))
  {
    hide ProgramOf, ArgumentOf, Blanks;
    ghost var cmd := CString(command);
    var i := SkipBlanks(command, 0);
    assert cmd[0..] == cmd;
    ProgramAt(cmd, i, Find(cmd[i..], SPACE));
    var buffer := new byte[KB_BUF_SIZE + 1];
    var j := CopyWord(command, i, buffer);
    program := buffer[..];
    k := SkipBlanks(command, j);
    ArgumentAt(cmd, i, j - i, k - j);
  }

  lemma {:induction false} SliceOfTail(s: seq<byte>, i: nat, n: nat)
    requires i <= |s| && n <= |s| - i
    ensures s[i..][..n] == s[i..i + n] && s[i..][n..] == s[i + n..]
  {
  }

  class Machine {
    const fs: Image
    const queue: array<Load>
    const pcbs: array<Pcb>
    const rtc: Device
    const paging: PageTables
    const pages: seq<array<byte>>
    var current: int
    var esp0: int
    var jump: Jump

    ghost predicate Valid()
      reads this, queue, pcbs, rtc, paging.dir
    {
      && queue.Length == PROCESS_NUM && pcbs.Length == PROCESS_NUM
      && paging.Valid() && 2 <= paging.dir[PROC_PAGE_INDEX].base < 2 + PROCESS_NUM
      && Process.Shaped(View())
    }

    // The file system image and the process pages, which never change place.
    ghost predicate Media() {
      && ValidImage(fs) && Bootable(fs) && |pages| == PROCESS_NUM
      && (forall p :: 0 <= p < PROCESS_NUM ==> pages[p].Length == PAGE_BYTES)
      && (forall p, q :: 0 <= p < q < PROCESS_NUM ==> pages[p] != pages[q])
    }

    ghost function View(): State
      requires paging.Valid()
      reads this, queue, pcbs, rtc, paging.dir
    {
      State(queue[..], pcbs[..], current, esp0, paging.dir[PROC_PAGE_INDEX].base - 2, rtc.clock, jump)
    }

    // The memory the kernel finds at boot.
    constructor (fs: Image, queue: array<Load>, pcbs: array<Pcb>, rtc: Device, paging: PageTables, pages: seq<array<byte>>)
      requires queue.Length == PROCESS_NUM && pcbs.Length == PROCESS_NUM
      requires paging.Valid() && paging.dir[PROC_PAGE_INDEX].base == 2
      requires forall p :: 0 <= p < PROCESS_NUM ==> ShapedPcb(pcbs[p])
      ensures Valid() && current == NONE && View() == State(queue[..], pcbs[..], NONE, 0x80_0000, 0, rtc.clock, Nowhere)
      ensures this.fs == fs && this.queue == queue && this.pcbs == pcbs && this.rtc == rtc && this.paging == paging && this.pages == pages
    {
      this.fs, this.queue, this.pcbs, this.rtc, this.paging, this.pages := fs, queue, pcbs, rtc, paging, pages;
      current, esp0, jump := NONE, 0x80_0000, Nowhere;
    }

    method GetAvailablePid() returns (p: int)
      requires Valid()
      ensures p == if FirstFree(queue[..]) < PROCESS_NUM then FirstFree(queue[..]) else -1
    {
      var i := 0;
      while i < PROCESS_NUM
        invariant 0 <= i <= PROCESS_NUM
        invariant FirstFree(queue[..]) >= i
      {
        if queue[i] == NotLoaded {
          return i;
        }
        i := i + 1;
      }
      return -1;
    }

    // Take one process out of the round and put another one in.
    method SchedQueueProcess(stop: int, exec: int, remove: bool)
      requires Valid() && -1 <= stop < PROCESS_NUM && 0 <= exec < PROCESS_NUM
      modifies queue
      ensures queue[..] == old(if stop == NONE then queue[..] else queue[..][stop := if remove then NotLoaded else Loaded])[exec := Scheduled]
    {
      if stop == NONE {
        queue[exec] := Scheduled;
      } else {
        if remove {
          queue[stop] := NotLoaded;
        } else {
          queue[stop] := Loaded;
        }
        queue[exec] := Scheduled;
      }
    }

    method FindNext() returns (p: int)
      requires Valid()
      ensures 0 <= p < PROCESS_NUM && p == Next(queue[..], current, 1)
    {
      var i := 1;
      p := 0;
      while i < PROCESS_NUM
        invariant 1 <= i <= PROCESS_NUM
        invariant i < PROCESS_NUM ==> Next(queue[..], current, 1) == Next(queue[..], current, i)
        invariant i == PROCESS_NUM ==> p == Next(queue[..], current, 1)
      {
        p := (current + i) % PROCESS_NUM;
        if queue[p] == Scheduled {
          break;
        }
        i := i + 1;
      }
    }

    method Sched(bp: int, sp: int)
      requires Valid()
      modifies this, pcbs, rtc, paging.dir
      ensures Valid() && View() == Process.Sched(old(View()), bp, sp)
      ensures paging.View() == WithFrame(old(paging.View()), current)
    {
      if current != NONE {
        pcbs[current] := pcbs[current].(schedBp := bp, stackPtr := sp);
      }
      var p := FindNext();
      paging.MapUser(p);
      esp0 := StackTop(p);
      current := p;
      var b := pcbs[p];
      if b.rtcFreq != UNSET {
        var _ := rtc.SetFrequency(b.rtcFreq);
      }
      if b.schedBp == 0 {
        jump := ToUser(b.entry);
      } else {
        jump := SchedReturn(b.stackPtr, b.schedBp);
      }
    }

    // Copy the rest of a command line into the argument buffer of process p.
    method StoreArgument(command: seq<byte>, at: nat, p: nat)
      requires p < pcbs.Length && |pcbs[p].argument| == MAX_ARGS
      requires NUL in command && at <= Find(command, NUL) && Find(command, NUL) - at < MAX_ARGS
      modifies pcbs
      ensures pcbs[..] == old(pcbs[..])[p := old(pcbs[p]).(argument := StoreString(old(pcbs[p].argument), CString(command)[at..]))]
    {
      hide Covered, StoreString;
      ghost var cmd, b := CString(command), pcbs[p];
      ghost var a := b.argument;
      var i, j := at, 0;
      CoverNothing(a, cmd, at);
      while command[i] != NUL
        invariant i == at + j <= |cmd| < |command| && command[|cmd|] == NUL
        invariant |a| == MAX_ARGS && a == Covered(b.argument, cmd[at..i])
        invariant pcbs[..] == old(pcbs[..])[p := b.(argument := a)]
        decreases |cmd| - i
      {
        CoverOneMore(cmd, b.argument, at, i);
        a := a[j := cmd[i]];
        pcbs[p] := pcbs[p].(argument := pcbs[p].argument[j := command[i]]);
        i, j := i + 1, j + 1;
      }
      assert cmd[at..i] == cmd[at..];
      CoveredEnds(b.argument, cmd[at..]);
      pcbs[p] := pcbs[p].(argument := pcbs[p].argument[j := NUL]);
    }

    // Load a program through the process page, wherever that is mapped.
    method LoadMapped(program: seq<byte>, word: seq<byte>) returns (entry: uint32)
      requires Valid() && Media() && NUL in program && |word| == 4
      requires Lookup(fs.entries, CString(program)).Some? && Loadable(fs, CString(program))
      modifies pages[paging.dir[PROC_PAGE_INDEX].base - 2]
      ensures entry == EntryPoint(fs, CString(program), word)
      ensures Holds(fs, CString(program), pages[paging.dir[PROC_PAGE_INDEX].base - 2][..])
    {
      entry := ProgramLoad(fs, program, pages[paging.dir[PROC_PAGE_INDEX].base - 2], word);
    }

    method CheckProgram(program: seq<byte>, header: seq<byte>, ghost word: seq<byte>) returns (valid: bool)
      requires Media() && NUL in program && |header| == 4 && |word| == 4
      ensures valid <==> EntryOf(fs, CString(program), header, word).Some?
    {
      valid := ProgramValid(fs, program, header);
    }

    // Fill in the PCB of child p of the running process.
    method Adopt(p: nat, entry: uint32, ebp: int, esp: int)
      requires Valid() && current != NONE && p < PROCESS_NUM
      modifies pcbs, queue
      ensures pcbs[..] == old(pcbs[..])[p := old(pcbs[p]).(pid := p, parent := current, fds := WithStdio(old(pcbs[p]).fds),
                            entry := entry, schedBp := 0, rtcFreq := UNSET, basePtr := ebp, stackPtr := esp)]
      ensures queue[..] == old(queue[..])[current := Loaded][p := Scheduled]
    {
      pcbs[p] := pcbs[p].(pid := p, parent := current);
      pcbs[p] := pcbs[p].(fds := pcbs[p].fds[STDIN := pcbs[p].fds[STDIN].(ops := StdinOps, isOpen := true)]);
      pcbs[p] := pcbs[p].(fds := pcbs[p].fds[STDOUT := pcbs[p].fds[STDOUT].(ops := StdoutOps, isOpen := true)]);
      pcbs[p] := pcbs[p].(entry := entry, schedBp := 0);
      SchedQueueProcess(current, p, false);
      pcbs[p] := pcbs[p].(rtcFreq := UNSET);
      pcbs[p] := pcbs[p].(basePtr := ebp, stackPtr := esp);
    }

    // Take the command apart: the program's name comes back as a C string,
    // the argument goes to process p.
    method ParseCommand(command: seq<byte>, p: nat) returns (program: seq<byte>)
      requires p < pcbs.Length && |pcbs[p].argument| == MAX_ARGS && NUL in command && Fits(CString(command))
      modifies pcbs
      ensures NUL in program && CString(program) == ProgramOf(CString(command))
      ensures pcbs[..] == old(pcbs[..])[p := old(pcbs[p]).(argument := StoreString(old(pcbs[p].argument), ArgumentOf(CString(command))))]
    {
      var k;
      program, k := ParseName(command);
      StoreArgument(command, k, p);
    }

    // Load a valid program into the frame of process p and make p ready.
    method Launch(p: nat, name: seq<byte>, ebp: int, esp: int, ghost header: seq<byte>, word: seq<byte>)
      requires Valid() && Media() && current != NONE && p < PROCESS_NUM && |header| == 4 && |word| == 4
      requires NUL in name && Loadable(fs, CString(name)) && EntryOf(fs, CString(name), header, word).Some?
      modifies this, queue, pcbs, paging.dir, pages[p]
      ensures Valid()
      ensures View() == Launched(old(View()), p, EntryOf(fs, CString(name), header, word).value, ebp, esp)
      ensures paging.View() == WithFrame(old(paging.View()), p)
      ensures Holds(fs, CString(name), pages[p][..])
    {
      hide Holds, EntryPoint;
      paging.MapUser(p);
      var entry := LoadMapped(name, word);
      Adopt(p, entry, ebp, esp);
      esp0 := StackTop(current);
    }

    // The part of execute up to the point where it can no longer fail.
    method Prepare(p: nat, command: Option<seq<byte>>, ebp: int, esp: int, header: seq<byte>, word: seq<byte>,
                   ghost program: Option<uint32>) returns (ok: bool)
      requires Valid() && Media() && current != NONE && p < PROCESS_NUM && |header| == 4 && |word| == 4
      requires command.Some? ==>
                 NUL in command.value && Fits(CString(command.value)) && Loadable(fs, ProgramOf(CString(command.value)))
      requires program == if command.None? then None else EntryOf(fs, ProgramOf(CString(command.value)), header, word)
      modifies this, queue, pcbs, paging.dir, pages[p]
      ensures Valid() && ok == program.Some?
      ensures View() == Prepared(old(View()), p, CommandOf(command), program, ebp, esp)
      ensures paging.View() == if ok then WithFrame(old(paging.View()), p) else old(paging.View())
      ensures if ok then Holds(fs, ProgramOf(CString(command.value)), pages[p][..]) else pages[p][..] == old(pages[p][..])
    {
      hide Holds, EntryOf, StoreString, ProgramOf, ArgumentOf;
      pcbs[p] := pcbs[p].(term := pcbs[current].term);
      if command.None? {
        return false;
      }
      var name := ParseCommand(command.value, p);
      ok := CheckProgram(name, header, word);
      if ok {
        Launch(p, name, ebp, esp, header, word);
      }
    }

    method Execute(command: Option<seq<byte>>, ebp: int, esp: int, bp: int, sp: int, header: seq<byte>, word: seq<byte>)
      returns (r: int, ghost program: Option<uint32>)
      requires Valid() && Media() && current != NONE && |header| == 4 && |word| == 4
      requires command.Some? ==>
                 NUL in command.value && Fits(CString(command.value)) && Loadable(fs, ProgramOf(CString(command.value)))
      modifies this, queue, pcbs, rtc, paging.dir, pages
      ensures Valid()
      ensures program == if command.None? then None else EntryOf(fs, ProgramOf(CString(command.value)), header, word)
      ensures View() == Process.Execute(old(View()), CommandOf(command), program, ebp, esp, bp, sp)
      ensures r == if ExecuteSucceeds(old(View()), CommandOf(command), program) then 0 else -1
      ensures paging.View() == WithFrame(old(paging.View()), View().frame)
      ensures forall q :: 0 <= q < PROCESS_NUM && (r == -1 || q != FirstFree(old(queue[..]))) ==> pages[q][..] == old(pages[q][..])
      ensures r == 0 ==> Holds(fs, ProgramOf(CString(command.value)), pages[FirstFree(old(queue[..]))][..])
    {
      hide Prepared, Process.Sched, Holds, EntryOf;
      program := if command.None? then None else EntryOf(fs, ProgramOf(CString(command.value)), header, word);
      var p := GetAvailablePid();
      if p == -1 {
        return -1, program;
      }
      var ok := StartOn(p, command, ebp, esp, bp, sp, header, word, program);
      return if ok then 0 else -1, program;
    }

    // Execute once a free pid has been found.
    method StartOn(p: nat, command: Option<seq<byte>>, ebp: int, esp: int, bp: int, sp: int, header: seq<byte>, word: seq<byte>,
                   ghost program: Option<uint32>) returns (ok: bool)
      requires Valid() && Media() && current != NONE && p < PROCESS_NUM && |header| == 4 && |word| == 4
      requires command.Some? ==>
                 NUL in command.value && Fits(CString(command.value)) && Loadable(fs, ProgramOf(CString(command.value)))
      requires program == if command.None? then None else EntryOf(fs, ProgramOf(CString(command.value)), header, word)
      modifies this, queue, pcbs, rtc, paging.dir, pages[p]
      ensures Valid() && ok == program.Some?
      ensures View() == var s' := Prepared(old(View()), p, CommandOf(command), program, ebp, esp);
                        if ok then Process.Sched(s', bp, sp) else s'
      ensures paging.View() == WithFrame(old(paging.View()), View().frame)
      ensures if ok then Holds(fs, ProgramOf(CString(command.value)), pages[p][..]) else pages[p][..] == old(pages[p][..])
    {
      hide Prepared, Process.Sched, EntryOf, Holds, ProgramOf, Fits;
      ok := Prepare(p, command, ebp, esp, header, word, program);
      if ok {
        Sched(bp, sp);
      }
    }

    method CloseFile(fd: int) returns (r: int)
      requires Valid() && current != NONE
      modifies pcbs
      ensures Valid() && View() == Process.Close(old(View()), fd)
      ensures r == if 2 <= fd < MAX_NUM_FD && old(pcbs[current].fds)[fd].isOpen then 0 else -1
      ensures forall p :: 0 <= p < PROCESS_NUM && p != current ==> pcbs[p] == old(pcbs[p])
    {
      if fd < 0 || fd >= MAX_NUM_FD || fd == STDOUT || fd == STDIN {
        return -1;
      }
      var b := pcbs[current];
      if !b.fds[fd].isOpen {
        return -1;
      }
      pcbs[current] := b.(fds := b.fds[fd := b.fds[fd].(isOpen := false)]);
      if b.fds[fd].ops == RtcOps {
        pcbs[current] := pcbs[current].(rtcFreq := UNSET);
      }
      return 0;
    }

    // Close whatever the running process has open.
    method CloseAll()
      requires Valid() && current != NONE
      modifies pcbs
      ensures Valid() && View() == old(View()).(pcbs := old(pcbs[..])[current := ClosedBelow(old(pcbs[current]), MAX_NUM_FD)])
    {
      var i := 0;
      while i < MAX_NUM_FD
        invariant 0 <= i <= MAX_NUM_FD && Valid()
        invariant pcbs[current] == ClosedBelow(old(pcbs[current]), i)
        invariant forall p :: 0 <= p < PROCESS_NUM && p != current ==> pcbs[p] == old(pcbs[p])
      {
        ghost var b := pcbs[current];
        if i != STDIN && i != STDOUT {
          var _ := CloseFile(i);
          assert pcbs[current] == View().pcbs[current];
        } else {
          pcbs[current] := pcbs[current].(fds := pcbs[current].fds[i := pcbs[current].fds[i].(isOpen := false)]);
        }
        i := i + 1;
      }
    }

    method RestartShell(word: seq<byte>) returns (entry: uint32)
      requires Valid() && Media() && current != NONE && |word| == 4 && pcbs[current].parent == NONE
      modifies this, pcbs, pages[paging.dir[PROC_PAGE_INDEX].base - 2]
      ensures Valid() && View() == Process.Halt(old(View()), 0, entry)
      ensures entry == EntryPoint(fs, SHELL, word) && Holds(fs, SHELL, pages[View().frame][..])
    {
      var b, old_pid := pcbs[current], current;
      current := b.term;
      StringAt(SHELL + [NUL], |SHELL|);
      entry := LoadMapped(SHELL + [NUL], word);
      pcbs[old_pid] := b.(entry := entry);
      jump := ToUser(entry);
    }

    method EndProcess(status: int)
      requires Valid() && current != NONE && pcbs[current].parent != NONE
      requires pcbs[pcbs[current].parent].pid == pcbs[current].parent
      modifies this, queue, pcbs, paging.dir
      ensures Valid() && View() == Process.Halt(old(View()), status, 0)
      ensures paging.View() == WithFrame(old(paging.View()), View().frame)
    {
      var b := pcbs[current];
      CloseAll();
      var old_pid := current;
      current := b.parent;
      esp0 := StackTop(current);
      SchedQueueProcess(old_pid, pcbs[current].pid, true);
      paging.MapUser(current);
      jump := ExecuteReturn(b.basePtr, status);
    }

    // A live process's PCB holds its own pid in every reachable state.
    method Halt32(status: int, word: seq<byte>) returns (ghost shell: uint32)
      requires Valid() && Media() && current != NONE && |word| == 4
      requires pcbs[current].parent != NONE ==> pcbs[pcbs[current].parent].pid == pcbs[current].parent
      modifies this, queue, pcbs, paging.dir, pages[paging.dir[PROC_PAGE_INDEX].base - 2]
      ensures Valid() && View() == Process.Halt(old(View()), status, shell)
      ensures old(pcbs[current]).parent == NONE ==> shell == EntryPoint(fs, SHELL, word) && Holds(fs, SHELL, pages[View().frame][..])
      ensures paging.View() == WithFrame(old(paging.View()), View().frame)
    {
      shell := 0;
      if pcbs[current].parent == NONE {
        shell := RestartShell(word);
        assert View().frame == old(View()).frame;
      } else {
        EndProcess(status);
      }
    }

    // Take descriptor i of the running process for a file.
    method Attach(i: nat, ops: Ops, inode: uint32)
      requires pcbs.Length == PROCESS_NUM && 0 <= current < PROCESS_NUM && i < |pcbs[current].fds|
      modifies pcbs, rtc
      ensures pcbs[..] == old(pcbs[..])[current := old(pcbs[current]).(fds := old(pcbs[current]).fds[i := Fd(ops, inode, 0, true)],
                            rtcFreq := if ops == RtcOps then 2 else old(pcbs[current]).rtcFreq)]
      ensures rtc.clock == if ops == RtcOps then SetFreq(old(rtc.clock), 2) else old(rtc.clock)
    {
      var b := pcbs[current];
      pcbs[current] := b.(fds := b.fds[i := b.fds[i].(ops := ops, inode := inode, pos := 0)]);
      if ops == RtcOps {
        var _ := rtc.SetFrequency(2);
        pcbs[current] := pcbs[current].(rtcFreq := 2);
      }
      pcbs[current] := pcbs[current].(fds := pcbs[current].fds[i := pcbs[current].fds[i].(isOpen := true)]);
      assert pcbs[current].fds == b.fds[i := Fd(ops, inode, 0, true)];
    }

    method FindDescriptor() returns (i: nat)
      requires 0 <= current < pcbs.Length && |pcbs[current].fds| == MAX_NUM_FD
      ensures i == LowestClosed(pcbs[current].fds)
    {
      var b := pcbs[current];
      i := 0;
      while i < MAX_NUM_FD && b.fds[i].isOpen
        invariant 0 <= i <= MAX_NUM_FD
        invariant LowestClosed(b.fds) >= i
      {
        i := i + 1;
      }
    }

    method OpenFile(filename: Option<seq<byte>>) returns (r: int, ghost found: Option<DirEntry>)
      requires Valid() && ValidImage(fs) && current != NONE
      requires filename.Some? ==> NUL in filename.value
      modifies pcbs, rtc
      ensures found == if filename.None? then None else Lookup(fs.entries, CString(filename.value))
      ensures Valid() && View() == Process.Open(old(View()), found)
      ensures r == if Process.CanOpen(old(pcbs[current]), found) then LowestClosed(old(pcbs[current]).fds) else -1
    {
      found := if filename.None? then None else Lookup(fs.entries, CString(filename.value));
      if filename.None? {
        return -1, found;
      }
      var i := FindDescriptor();
      if i == MAX_NUM_FD {
        return -1, found;
      }
      var dentry := ReadDentryByName(fs, filename.value);
      if dentry.None? {
        return -1, found;
      }
      var ops;
      if dentry.value.ftype == FTYPE_RTC {
        ops := RtcOps;
      } else if dentry.value.ftype == FTYPE_DIR {
        ops := DirOps;
      } else if dentry.value.ftype == FTYPE_FILE {
        ops := FileOps;
      } else {
        return -1, found;
      }
      assert OpsOf(found.value.ftype) == Some(ops);
      Attach(i, ops, dentry.value.inode);
      return i, found;
    }

    method WriteClock(freq: int) returns (result: int)
      requires Valid() && current != NONE
      modifies pcbs, rtc
      ensures Valid() && View() == RtcWrite(old(View()), freq)
      ensures result == if freq == old(rtc.clock).cached then 0 else if Supported(freq) then 1 else -1
    {
      result := rtc.SetFrequency(freq);
      if result != -1 {
        pcbs[current] := pcbs[current].(rtcFreq := freq);
      }
    }

    // Move the position of a descriptor past what was read.
    method MoveOn(fd: nat, n: nat, ghost asked: uint32)
      requires Valid() && current != NONE && ReadsFile(pcbs[current], fd)
      modifies pcbs
      ensures Valid() && Enabled(old(View()), ReadCall(fd, asked, n)) && View() == Step(old(View()), ReadCall(fd, asked, n))
    {
      var d := pcbs[current].fds[fd];
      pcbs[current] := pcbs[current].(fds := pcbs[current].fds[fd := d.(pos := d.pos + n)]);
    }

    // A read of n bytes that returns r bytes in buf is a step of the runs that
    // the image allows, with the bytes it has there.
    twostate predicate Delivers(fd: nat, buf: array<byte>, n: uint32, r: nat)
      requires old(Valid()) && Valid() && ValidImage(fs)
      reads this, queue, pcbs, rtc, paging.dir, buf
    {
      var s, e := old(View()), ReadCall(fd, n, r);
      && Enabled(s, e) && View() == Step(s, e) && Served(fs, s, e)
      && r <= buf.Length && buf[..r] == BytesRead(fs, old(pcbs[current]).fds[fd], n, r)
    }

    // Read an open regular file: the file system's read, at and past the
    // descriptor's position.
    method ReadFile(fd: nat, buf: array<byte>, n: uint32) returns (r: int)
      requires Valid() && ValidImage(fs) && current != NONE && n <= buf.Length
      requires ReadsFile(pcbs[current], fd) && pcbs[current].fds[fd].ops == FileOps && pcbs[current].fds[fd].pos <= FILE_LIMIT
      modifies pcbs, buf
      ensures Valid() && r >= -1
      ensures if r == -1 then View() == old(View()) else Delivers(fd, buf, n, r)
      ensures var d := old(pcbs[current]).fds[fd];
              r == -1 <==> d.inode >= |fs.inodes| || !GoodBetween(fs, d.inode, d.pos, d.pos + n)
    {
      var d := pcbs[current].fds[fd];
      r := ReadData(fs, d.inode, d.pos, buf, 0, n);
      if r != -1 {
        assert buf[..r] == BytesFrom(fs, d.inode, d.pos, r);
        MoveOn(fd, r, n);
      }
    }

    // Read an open directory.
    method ReadDirectory(fd: nat, buf: array<byte>, n: uint32) returns (r: nat)
      requires Valid() && ValidImage(fs) && current != NONE && n <= buf.Length
      requires ReadsFile(pcbs[current], fd) && pcbs[current].fds[fd].ops == DirOps && pcbs[current].fds[fd].pos <= FILE_LIMIT
      modifies pcbs, buf
      ensures Valid() && Delivers(fd, buf, n, r)
    {
      var d := pcbs[current].fds[fd];
      r := ReadDirFile(fs, d.pos, buf, 0, n);
      assert buf[0..r] == buf[..r];
      MoveOn(fd, r, n);
    }

    // The read call, but for the terminal's.  The descriptor must be open, and
    // its operations decide: standard output has no read, and the clock
    // delivers no bytes.
    method Read(fd: int, buf: array?<byte>, n: uint32) returns (r: int)
      requires Valid() && ValidImage(fs) && current != NONE && (buf != null ==> n <= buf.Length)
      requires ReadsFile(pcbs[current], fd) ==> pcbs[current].fds[fd].pos <= FILE_LIMIT
      requires 0 <= fd < MAX_NUM_FD && pcbs[current].fds[fd].isOpen ==> pcbs[current].fds[fd].ops != StdinOps
      modifies pcbs, buf
      ensures Valid() && r >= -1
      ensures if buf != null && r != -1 && ReadsFile(old(pcbs[current]), fd) then Delivers(fd, buf, n, r) else View() == old(View())
      ensures buf == null || !(0 <= fd < MAX_NUM_FD) || !old(pcbs[current]).fds[fd].isOpen ==> r == -1
      ensures buf != null && 0 <= fd < MAX_NUM_FD && old(pcbs[current]).fds[fd].isOpen ==>
                var d := old(pcbs[current]).fds[fd];
                match d.ops
                case FileOps => r == -1 <==> d.inode >= |fs.inodes| || !GoodBetween(fs, d.inode, d.pos, d.pos + n)
                case DirOps => r != -1
                case RtcOps => r == 0
                case _ => r == -1
    {
      if buf == null || fd < 0 || fd >= MAX_NUM_FD {
        return -1;
      }
      if !pcbs[current].fds[fd].isOpen {
        return -1;
      }
      match pcbs[current].fds[fd].ops {
        case FileOps => r := ReadFile(fd, buf, n);
        case DirOps => r := ReadDirectory(fd, buf, n);
        case RtcOps => r := 0;
        case _ => r := -1;
      }
    }

    // Copy the running process's argument, if there is one and it fits with
    // its terminator.  For a negative size an empty string is stored.
    method GetArgs(buf: array<byte>, nbytes: int) returns (r: int)
      requires Valid() && current != NONE && NUL in pcbs[current].argument
      requires Max(nbytes, 1) <= buf.Length
      modifies buf
      ensures var a := CString(pcbs[current].argument);
              && r == (if a != [] && (nbytes < 0 || nbytes > |a|) then 0 else -1)
              && (r == 0 ==> if nbytes >= 0 then buf[..|a|] == a && buf[|a|] == NUL else buf[0] == NUL)
    {
      var argument := pcbs[current].argument;
      ghost var a := CString(argument);
      if argument[0] == NUL {
        return -1;
      }
      var i := 0;
      while i < nbytes && argument[i] != NUL
        invariant 0 <= i <= |a| < |argument| && argument[|a|] == NUL
        invariant nbytes >= 0 ==> i <= nbytes
        invariant nbytes < 0 ==> i == 0
        invariant buf[..i] == a[..i]
      {
        buf[i] := argument[i];
        i := i + 1;
      }
      if i == nbytes {
        return -1;
      }
      buf[i] := NUL;
      return 0;
    }

    // Where user mode finds the running process's screen.
    method Vidmap(pointer: uint32) returns (r: int, address: uint32)
      requires Valid() && current != NONE
      ensures r == 0 <==> USER_PAGE_VMIN <= pointer < USER_PAGE_VMIN + MB_PAGE_SIZE - 4
      ensures r == 0 || r == -1
      ensures r == 0 ==> address == USER_VMEM_VADDR + TermPage(pcbs[current].term) * PAGE_SIZE
    {
      address := 0;
      if pointer == 0 {
        return -1, address;
      }
      if pointer < USER_PAGE_VMIN || pointer >= USER_PAGE_VMIN + MB_PAGE_SIZE - 4 {
        return -1, address;
      }
      return 0, USER_VMEM_VADDR + TermPage(pcbs[current].term) * PAGE_SIZE;
    }

    // The shell's PCB and its place in the queue.
    method FillShell(t: nat)
      requires Valid() && t < TERM_MAX && L.AllClosed(pcbs[t].fds)
      modifies queue, pcbs
      ensures queue[..] == old(queue[..])[t := Scheduled]
      ensures pcbs[..] == old(pcbs[..])[t := pcbs[t]] && ShellPcb(pcbs[t], t)
    {
      var b := pcbs[t];
      b := b.(term := t, pid := t, parent := NONE, stackPtr := StackTop(t), argument := b.argument[0 := NUL]);
      b := b.(fds := b.fds[STDIN := b.fds[STDIN].(ops := StdinOps, isOpen := true)]);
      b := b.(fds := b.fds[STDOUT := b.fds[STDOUT].(ops := StdoutOps, isOpen := true)]);
      pcbs[t] := b;
      SchedQueueProcess(NONE, t, false);
      pcbs[t] := pcbs[t].(rtcFreq := UNSET, schedBp := 0);
      assert pcbs[t].argument[0] == NUL;
    }

    // Load the shell for terminal t into its frame.
    method LoadShell(t: nat, word: seq<byte>)
      requires Valid() && Media() && t < TERM_MAX && |word| == 4
      modifies pcbs, paging.dir, pages[t]
      ensures Valid() && paging.View() == WithFrame(old(paging.View()), t) && Holds(fs, SHELL, pages[t][..])
      ensures var b := old(pcbs[t]).(entry := EntryPoint(fs, SHELL, word), stackPtr := StackTop(current));
              View() == old(View()).(pcbs := old(pcbs[..])[t := b], frame := t)
    {
      hide Holds, EntryPoint;
      paging.MapUser(t);
      StringAt(SHELL + [NUL], |SHELL|);
      var entry := LoadMapped(SHELL + [NUL], word);
      pcbs[t] := pcbs[t].(entry := entry, stackPtr := StackTop(current));
    }

    // Make terminal t's shell ready to be scheduled.
    method ExecuteSh(t: nat, word: seq<byte>)
      requires Valid() && Media() && current == NONE && t < TERM_MAX && |word| == 4
      requires L.AllClosed(pcbs[t].fds)
      modifies this, queue, pcbs, paging.dir, pages[t]
      ensures Valid()
      ensures View() == old(View()).(queue := old(queue[..])[t := Scheduled], pcbs := old(pcbs[..])[t := pcbs[t]], frame := t)
      ensures ShellPcb(pcbs[t], t) && pcbs[t].entry == EntryPoint(fs, SHELL, word)
      ensures paging.View() == WithFrame(old(paging.View()), t)
      ensures Holds(fs, SHELL, pages[t][..])
    {
      hide Holds, EntryPoint, WithFrame;
      FillShell(t);
      assert Valid();
      LoadShell(t, word);
      assert pcbs[t] == View().pcbs[t];
    }

    // Boot: a shell for every terminal.
    method InitShells(word: seq<byte>)
      requires Valid() && Media() && current == NONE && |word| == 4 && Consistent(rtc.clock)
      requires forall p :: 0 <= p < PROCESS_NUM ==> queue[p] == NotLoaded && L.AllClosed(pcbs[p].fds)
      modifies this, queue, pcbs, paging.dir, pages
      ensures Valid() && L.Booted(View())
      ensures forall t :: 0 <= t < TERM_MAX ==> Holds(fs, SHELL, pages[t][..]) && View().pcbs[t].entry == EntryPoint(fs, SHELL, word)
      ensures paging.View() == WithFrame(old(paging.View()), View().frame)
    {
      hide Holds, EntryPoint;
      assert ShellsUpTo(View(), 0);
      hide ShellsUpTo, ShellPcb;
      var i := 0;
      while i < TERM_MAX
        invariant 0 <= i <= TERM_MAX && Valid() && current == NONE && ShellsUpTo(View(), i)
        invariant forall p :: 0 <= p < i ==> Holds(fs, SHELL, pages[p][..]) && View().pcbs[p].entry == EntryPoint(fs, SHELL, word)
        invariant paging.View() == WithFrame(old(paging.View()), View().frame)
      {
        ghost var s := View();
        NextIsClosed(s, i);
        ExecuteSh(i, word);
        OneMoreShell(s, View(), i);
        i := i + 1;
      }
      AllShells(View());
    }
  }

  // The first n shells are ready, and nothing else is.
  ghost predicate ShellsUpTo(s: State, n: nat)
    requires Process.Shaped(s)
  {
    && s.current == NONE && Consistent(s.clock)
    && (forall p :: 0 <= p < PROCESS_NUM ==> s.queue[p] == if p < n then Scheduled else NotLoaded)
    && (forall p :: n <= p < PROCESS_NUM ==> L.AllClosed(s.pcbs[p].fds))
    && (forall p :: 0 <= p < n && p < PROCESS_NUM ==> ShellPcb(s.pcbs[p], p))
  }

  lemma {:induction false} NextIsClosed(s: State, n: nat)
    requires Process.Shaped(s) && ShellsUpTo(s, n) && n < TERM_MAX
    ensures L.AllClosed(s.pcbs[n].fds)
  {
  }

  lemma {:induction false} OneMoreShell(s: State, r: State, n: nat)
    requires Process.Shaped(s) && Process.Shaped(r) && ShellsUpTo(s, n) && n < TERM_MAX && ShellPcb(r.pcbs[n], n)
    requires r == s.(queue := s.queue[n := Scheduled], pcbs := s.pcbs[n := r.pcbs[n]], frame := n)
    ensures ShellsUpTo(r, n + 1)
  {
  }

  lemma {:induction false} AllShells(s: State)
    requires Process.Shaped(s) && ShellsUpTo(s, TERM_MAX)
    ensures L.Booted(s)
  {
  }

  predicate ShellPcb(b: Pcb, t: int) {
    && ShapedPcb(b) && b.pid == t && b.term == t && b.parent == NONE && b.rtcFreq == UNSET && b.schedBp == 0
    && b.fds[STDIN].isOpen && b.fds[STDOUT].isOpen && L.OnlyStdio(b.fds) && NUL in b.argument
  }

  function CommandOf(command: Option<seq<byte>>): Option<seq<byte>> {
    if command.None? then None else Some(CString(command.value))
  }

  // A buffer whose first bytes are overwritten by s.
  function Covered(buf: seq<byte>, s: seq<byte>): (r: seq<byte>)
    requires |s| <= |buf|
    ensures |r| == |buf|
  {
    s + buf[|s|..]
  }

  lemma {:induction false} CoverNothing(buf: seq<byte>, cmd: seq<byte>, at: nat)
    requires at <= |cmd|
    ensures buf == Covered(buf, cmd[at..at])
  {
  }

  lemma {:induction false} CoverOneMore(cmd: seq<byte>, buf: seq<byte>, at: nat, i: nat)
    requires at <= i < |cmd| && i - at < |buf|
    ensures Covered(buf, cmd[at..i])[i - at := cmd[i]] == Covered(buf, cmd[at..i + 1])
  {
  }

  lemma {:induction false} CoveredEnds(buf: seq<byte>, s: seq<byte>)
    requires |s| < |buf|
    ensures Covered(buf, s)[|s| := NUL] == StoreString(buf, s)
  {
  }
}
