// Open files over whole runs: what serves a descriptor, how far its position
// can be, and that one process's reads follow each other whatever the others do.
module Descriptors {
  import opened Text
  import opened FileSystem
  import opened Directory
  import opened Process
  import opened Lifecycle
  import opened Reachable
  import opened Bracketing

  // A run on one image: every read returns what the code finds there.
  ghost predicate RunsOn(fs: Image, r: Run) {
    ValidImage(fs) && FromBoot(r) && forall i {:trigger Follows(r, i)} :: 0 <= i < |r.events| ==> ServedAt(fs, r, i)
  }

  ghost predicate ServedAt(fs: Image, r: Run, i: nat)
    requires ValidImage(fs) && i < |r.events| && |r.states| == |r.events| + 1
  {
    Follows(r, i) && Served(fs, r.states[i], r.events[i])
  }

  // A descriptor opened by its process is served by the clock, the directory
  // or a file; its position lies within that, behind good blocks only.
  ghost predicate FdOk(fs: Image, f: Fd)
    requires ValidImage(fs)
  {
    f.isOpen ==>
      && (f.ops == RtcOps || f.ops == DirOps || f.ops == FileOps) && f.pos <= LengthOf(fs, f)
      && (f.ops == FileOps && f.inode < |fs.inodes| ==> GoodBetween(fs, f.inode, 0, f.pos))
  }

  ghost predicate FdsOk(fs: Image, fds: seq<Fd>)
    requires ValidImage(fs) && |fds| == MAX_NUM_FD
  {
    && fds[STDIN].ops == StdinOps && fds[STDOUT].ops == StdoutOps
    && forall i :: 2 <= i < MAX_NUM_FD ==> FdOk(fs, fds[i])
  }

  ghost predicate AllFdsOk(fs: Image, s: State)
    requires ValidImage(fs) && Shaped(s)
  {
    forall p :: IsLive(s, p) ==> FdsOk(fs, s.pcbs[p].fds)
  }

  // A read moves the position on within the file,
  lemma {:induction false} ReadStaysInside(fs: Image, f: Fd, asked: uint32, n: nat)
    requires ValidImage(fs) && FdOk(fs, f) && f.isOpen && Returns(fs, f, asked, n)
    ensures FdOk(fs, f.(pos := f.pos + n))
  {
  }

  // so the running process keeps its own descriptors in order,
  lemma {:induction false} RunnerKeepsFds(fs: Image, s: State, h: History, e: Event)
    requires ValidImage(fs) && Inv(s, h) && Enabled(s, e) && Served(fs, s, e)
    requires s.current != NONE && FdsOk(fs, s.pcbs[s.current].fds) && !EndsProcess(s, e)
    ensures FdsOk(fs, Step(s, e).pcbs[s.current].fds)
  {
    hide GoodBetween;
    if e.Exec? {
      ExecuteKeepsCaller(s, e);
    } else if e.OpenCall? {
      LowestIsFree(s, h);
      GoodNowhere(fs);
    } else if e.ReadCall? {
      ReadKeepsFds(fs, s, e);
    }
  }

  lemma {:induction false} GoodNowhere(fs: Image)
    requires ValidImage(fs)
    ensures forall inode: nat :: inode < |fs.inodes| ==> GoodBetween(fs, inode, 0, 0)
  {
  }

  lemma {:induction false} ReadKeepsFds(fs: Image, s: State, e: Event)
    requires ValidImage(fs) && Shaped(s) && Enabled(s, e) && Served(fs, s, e) && e.ReadCall?
    requires FdsOk(fs, s.pcbs[s.current].fds)
    ensures FdsOk(fs, Step(s, e).pcbs[s.current].fds)
  {
    var fds := s.pcbs[s.current].fds;
    if e.slot >= 2 {
      ReadStaysInside(fs, fds[e.slot], e.asked, e.n);
    }
  }

  // and a new one starts with the terminal's.
  lemma {:induction false} NewcomerFds(fs: Image, s: State, h: History, e: Event, p: int)
    requires ValidImage(fs) && Inv(s, h) && Enabled(s, e) && IsLive(Step(s, e), p) && !IsLive(s, p)
    ensures FdsOk(fs, Step(s, e).pcbs[p].fds)
  {
    LiveIsPlaced(s, h, p);
    if s.current != NONE {
      RunnerIsNobodysParent(s, h);
      LiveIsPlaced(s, h, s.current);
      OnlyExecuteStarts(s, h, e, p);
      NewcomerSpawned(s, e, p);
    }
  }

  lemma {:induction false} OnlyExecuteStarts(s: State, h: History, e: Event, p: int)
    requires Inv(s, h) && Enabled(s, e) && s.current != NONE && IsLive(s, s.current)
    requires IsLive(Step(s, e), p) && !IsLive(s, p)
    ensures e.Exec? && ExecuteSucceeds(s, e.command, e.program)
  {
    if s.pcbs[s.current].parent != NONE {
      ParentOf(s, h, s.current);
    }
  }

  lemma {:induction false} NewcomerSpawned(s: State, e: Event, p: int)
    requires Shaped(s) && Enabled(s, e) && e.Exec? && ExecuteSucceeds(s, e.command, e.program)
    requires IsLive(Step(s, e), p) && !IsLive(s, p) && IsLive(s, s.current)
    ensures Step(s, e).pcbs[p].fds == WithStdio(s.pcbs[p].fds)
  {
    ExecuteSpawns(s, e);
    hide Step;
  }

  lemma {:induction false} StepKeepsFds(fs: Image, s: State, h: History, e: Event)
    requires ValidImage(fs) && Inv(s, h) && Enabled(s, e) && Served(fs, s, e) && AllFdsOk(fs, s)
    ensures AllFdsOk(fs, Step(s, e))
  {
    forall p | IsLive(Step(s, e), p)
      ensures FdsOk(fs, Step(s, e).pcbs[p].fds)
    {
      hide Step, FdsOk, Served;
      if !IsLive(s, p) {
        NewcomerFds(fs, s, h, e, p);
      } else if p != s.current {
        OthersUntouched(s, h, e, p);
      } else {
        RunnerLives(s, h, e);
        RunnerKeepsFds(fs, s, h, e);
      }
    }
  }

  lemma {:induction false} RunnerLives(s: State, h: History, e: Event)
    requires Inv(s, h) && Enabled(s, e) && s.current != NONE && IsLive(Step(s, e), s.current)
    ensures !EndsProcess(s, e)
  {
    if EndsProcess(s, e) {
      RunnerIsNobodysParent(s, h);
    }
  }

  lemma {:induction false} ServedOnImage(fs: Image, r: Run, n: nat)
    requires RunsOn(fs, r) && n < |r.events|
    ensures Shaped(r.states[n]) && Enabled(r.states[n], r.events[n]) && Served(fs, r.states[n], r.events[n])
  {
    assert Follows(r, n) && ServedAt(fs, r, n);
  }

  // In every state of every run, descriptors 0 and 1 are the terminal's, and
  // the others, when open, stand within what they read.
  lemma {:induction false} PositionsInFile(fs: Image, r: Run, n: nat)
    requires RunsOn(fs, r) && n < |r.states|
    ensures Shaped(r.states[n]) && AllFdsOk(fs, r.states[n])
    decreases n
  {
    if n > 0 {
      PositionsInFile(fs, r, n - 1);
      var h := StepOfRun(r, n - 1);
      ServedOnImage(fs, r, n - 1);
      hide Inv, Step, AllFdsOk, RunsOn, Served, FromBoot, Enabled;
      StepKeepsFds(fs, r.states[n - 1], h, r.events[n - 1]);
    }
  }

  // Process p neither ends nor closes fd from operation i up to j.
  predicate KeepsOpen(r: Run, p: int, fd: nat, i: nat, j: nat)
    requires j <= |r.events| < |r.states|
  {
    forall k {:trigger r.events[k]} :: i <= k < j && r.states[k].current == p ==>
      !EndsProcess(r.states[k], r.events[k]) && !(r.events[k].CloseCall? && r.events[k].fd == fd)
  }

  // How many bytes one operation reads for p from fd.
  function ReadBy(s: State, e: Event, p: int, fd: nat): nat {
    if e.ReadCall? && s.current == p && e.slot == fd then e.n else 0
  }

  // Which bytes operation k of a run delivers to p from fd,
  ghost function Got(fs: Image, r: Run, p: int, fd: nat, k: nat): (bytes: seq<byte>)
    requires RunsOn(fs, r) && k < |r.events|
    ensures |bytes| == ReadBy(r.states[k], r.events[k], p, fd)
  {
    var s, e := r.states[k], r.events[k];
    assert Follows(r, k) && ServedAt(fs, r, k);
    if e.ReadCall? && s.current == p && e.slot == fd then BytesRead(fs, s.pcbs[p].fds[fd], e.asked, e.n) else []
  }

  // and which ones the operations from i up to j deliver together.
  ghost function Delivered(fs: Image, r: Run, p: int, fd: nat, i: nat, j: nat): seq<byte>
    requires RunsOn(fs, r) && i <= j <= |r.events|
    decreases j
  {
    if j == i then [] else Delivered(fs, r, p, fd, i, j - 1) + Got(fs, r, p, fd, j - 1)
  }

  // One operation moves an open descriptor exactly by what its process reads
  // from it.
  lemma {:induction false} StepMoves(s: State, h: History, e: Event, p: int, fd: nat)
    requires Inv(s, h) && Enabled(s, e) && IsLive(s, p) && fd < MAX_NUM_FD && s.pcbs[p].fds[fd].isOpen
    requires s.current == p ==> !EndsProcess(s, e) && !(e.CloseCall? && e.fd == fd)
    ensures var f := s.pcbs[p].fds[fd];
            IsLive(Step(s, e), p) && Step(s, e).pcbs[p].fds[fd] == f.(pos := f.pos + ReadBy(s, e, p, fd))
  {
    if p != s.current {
      OthersUntouched(s, h, e, p);
    } else if e.Exec? {
      ExecuteKeepsCaller(s, e);
    }
  }

  lemma {:induction false} KeepsOpenBefore(r: Run, p: int, fd: nat, i: nat, j: nat)
    requires i < j <= |r.events| < |r.states| && KeepsOpen(r, p, fd, i, j)
    ensures KeepsOpen(r, p, fd, i, j - 1)
  {
  }

  // The first n bytes behind a descriptor.
  ghost function Start(fs: Image, f: Fd, n: nat): (bytes: seq<byte>)
    requires ValidImage(fs) && n <= LengthOf(fs, f)
    requires f.ops == FileOps && f.inode < |fs.inodes| ==> GoodBetween(fs, f.inode, 0, n)
    ensures |bytes| == n
  {
    if n == 0 then [] else if f.ops == DirOps then Listing(fs)[..n] else Prefix(fs, f.inode, n)
  }

  // Reading has moved a descriptor from f to g and delivered the bytes of what
  // it reads in between.
  ghost predicate Moved(fs: Image, f: Fd, g: Fd, bytes: seq<byte>)
    requires ValidImage(fs)
  {
    && f.isOpen && g == f.(pos := g.pos) && FdOk(fs, f) && FdOk(fs, g)
    && Start(fs, g, g.pos) == Start(fs, f, f.pos) + bytes
  }

  lemma {:induction false} ReadsOn(fs: Image, f: Fd, g: Fd, h: Fd, a: seq<byte>, b: seq<byte>)
    requires ValidImage(fs) && Moved(fs, f, g, a) && Moved(fs, g, h, b)
    ensures Moved(fs, f, h, a + b)
  {
    hide FdOk, Start;
  }

  lemma {:induction false} ReadsNothing(fs: Image, f: Fd)
    requires ValidImage(fs) && f.isOpen && FdOk(fs, f)
    ensures Moved(fs, f, f, [])
  {
  }

  lemma {:induction false} StillOpen(fs: Image, f: Fd, g: Fd, bytes: seq<byte>)
    requires ValidImage(fs) && Moved(fs, f, g, bytes)
    ensures g.isOpen && FdOk(fs, g) && g.ops == f.ops && g.inode == f.inode && LengthOf(fs, g) == LengthOf(fs, f)
  {
  }

  // What one read delivers continues what stands before its position.
  lemma {:induction false} ReadContinues(fs: Image, f: Fd, asked: uint32, n: nat)
    requires ValidImage(fs) && f.isOpen && (f.ops == FileOps || f.ops == DirOps) && FdOk(fs, f) && Returns(fs, f, asked, n)
    ensures Moved(fs, f, f.(pos := f.pos + n), BytesRead(fs, f, asked, n))
  {
    ReadStaysInside(fs, f, asked, n);
    StartContinues(fs, f, asked, n);
    hide FdOk, Returns, Start, BytesRead;
  }

  lemma {:induction false} StartContinues(fs: Image, f: Fd, asked: uint32, n: nat)
    requires ValidImage(fs) && f.isOpen && (f.ops == FileOps || f.ops == DirOps) && FdOk(fs, f) && Returns(fs, f, asked, n)
    requires FdOk(fs, f.(pos := f.pos + n))
    ensures Start(fs, f, f.pos + n) == Start(fs, f, f.pos) + BytesRead(fs, f, asked, n)
  {
    hide Avail, Prefix, BytesFrom, Listing, GoodBetween;
    if n > 0 && f.ops == FileOps {
      PrefixContinues(fs, f.inode, f.pos, n);
    }
  }

  lemma {:induction false} PrefixContinues(fs: Image, inode: nat, at: nat, n: nat)
    requires ValidImage(fs) && inode < |fs.inodes| && at + n <= fs.inodes[inode].length && GoodBetween(fs, inode, 0, at + n)
    ensures Prefix(fs, inode, at + n) == Prefix(fs, inode, at) + BytesFrom(fs, inode, at, n)
    decreases n
  {
    if n > 0 {
      PrefixContinues(fs, inode, at, n - 1);
    }
  }

  lemma {:induction false} KeepsOpenAt(r: Run, p: int, fd: nat, i: nat, j: nat, k: nat)
    requires i <= k < j <= |r.events| < |r.states| && KeepsOpen(r, p, fd, i, j) && r.states[k].current == p
    ensures !EndsProcess(r.states[k], r.events[k]) && !(r.events[k].CloseCall? && r.events[k].fd == fd)
  {
  }

  // The last operation of such a stretch.
  lemma {:induction false} RunMoves(fs: Image, r: Run, p: int, fd: nat, i: nat, j: nat)
    requires RunsOn(fs, r) && i < j <= |r.events| && 2 <= fd < MAX_NUM_FD && KeepsOpen(r, p, fd, i, j)
    requires Shaped(r.states[j - 1]) && IsLive(r.states[j - 1], p) && r.states[j - 1].pcbs[p].fds[fd].isOpen
    requires FdOk(fs, r.states[j - 1].pcbs[p].fds[fd])
    ensures Shaped(r.states[j]) && IsLive(r.states[j], p)
    ensures Moved(fs, r.states[j - 1].pcbs[p].fds[fd], r.states[j].pcbs[p].fds[fd], Got(fs, r, p, fd, j - 1))
  {
    var s, e := r.states[j - 1], r.events[j - 1];
    assert Follows(r, j - 1) && ServedAt(fs, r, j - 1);
    PositionMoves(r, p, fd, i, j);
    var f, mine := s.pcbs[p].fds[fd], e.ReadCall? && s.current == p && e.slot == fd;
    hide Step, IsLive, Returns, FdOk, BytesRead, Moved, RunsOn, KeepsOpen, FromBoot;
    if mine {
      ReadContinues(fs, f, e.asked, e.n);
    } else {
      ReadsNothing(fs, f);
    }
  }

  lemma {:induction false} PositionMoves(r: Run, p: int, fd: nat, i: nat, j: nat)
    requires FromBoot(r) && i < j <= |r.events| && fd < MAX_NUM_FD && KeepsOpen(r, p, fd, i, j)
    requires Shaped(r.states[j - 1]) && IsLive(r.states[j - 1], p) && r.states[j - 1].pcbs[p].fds[fd].isOpen
    ensures Shaped(r.states[j]) && IsLive(r.states[j], p)
    ensures var f := r.states[j - 1].pcbs[p].fds[fd];
            r.states[j].pcbs[p].fds[fd] == f.(pos := f.pos + ReadBy(r.states[j - 1], r.events[j - 1], p, fd))
  {
    var s, e := r.states[j - 1], r.events[j - 1];
    if s.current == p {
      KeepsOpenAt(r, p, fd, i, j, j - 1);
    }
    var h := StepOfRun(r, j - 1);
    hide Step, Inv, Enabled, IsLive, EndsProcess, KeepsOpen, FromBoot;
    StepMoves(s, h, e, p, fd);
  }

  // The reads of one process from one descriptor deliver, together, the bytes
  // of the file between the positions it has before and after them, however
  // many operations of other processes, and of this one on other files, come
  // between.
  lemma {:induction false} ReadsAreConsecutive(fs: Image, r: Run, p: int, fd: nat, i: nat, j: nat)
    requires RunsOn(fs, r) && i <= j <= |r.events| && 2 <= fd < MAX_NUM_FD && Shaped(r.states[i]) && IsLive(r.states[i], p)
    requires r.states[i].pcbs[p].fds[fd].isOpen && KeepsOpen(r, p, fd, i, j)
    ensures Shaped(r.states[j]) && IsLive(r.states[j], p)
    ensures Moved(fs, r.states[i].pcbs[p].fds[fd], r.states[j].pcbs[p].fds[fd], Delivered(fs, r, p, fd, i, j))
    decreases j
  {
    if j == i {
      PositionsInFile(fs, r, i);
      ReadsNothing(fs, r.states[i].pcbs[p].fds[fd]);
    } else {
      KeepsOpenBefore(r, p, fd, i, j);
      hide RunsOn, IsLive, KeepsOpen, FdOk, Moved;
      ReadsAreConsecutive(fs, r, p, fd, i, j - 1);
      var f, g := r.states[i].pcbs[p].fds[fd], r.states[j - 1].pcbs[p].fds[fd];
      StillOpen(fs, f, g, Delivered(fs, r, p, fd, i, j - 1));
      RunMoves(fs, r, p, fd, i, j);
      ReadsOn(fs, f, g, r.states[j].pcbs[p].fds[fd], Delivered(fs, r, p, fd, i, j - 1), Got(fs, r, p, fd, j - 1));
    }
  }

  // The bytes read of what a directory entry stands for, up to a position.
  ghost predicate HasRead(fs: Image, e: DirEntry, pos: nat, bytes: seq<byte>)
    requires ValidImage(fs)
  {
    && (e.ftype == FTYPE_FILE && Readable(fs, e.inode) ==>
          pos <= |FileBytes(fs, e.inode)| && bytes == FileBytes(fs, e.inode)[..pos])
    && (e.ftype == FTYPE_DIR ==> pos <= |Listing(fs)| && bytes == Listing(fs)[..pos])
  }

  // Operation i, by process p, opens descriptor fd, and p keeps it open up to
  // operation j.
  ghost predicate OpensAndKeeps(r: Run, p: int, fd: nat, i: nat, j: nat) {
    && FromBoot(r) && i < j <= |r.events| && r.events[i].OpenCall? && Shaped(r.states[i])
    && p == r.states[i].current && 0 <= p && fd == LowestClosed(r.states[i].pcbs[p].fds)
    && CanOpen(r.states[i].pcbs[p], r.events[i].found) && KeepsOpen(r, p, fd, i + 1, j)
  }

  lemma {:induction false} OpenStarts(r: Run, p: int, fd: nat, i: nat, j: nat)
    requires OpensAndKeeps(r, p, fd, i, j)
    ensures r.events[i].found.Some? && OpsOf(r.events[i].found.value.ftype).Some?
    ensures var t, e := r.states[i + 1], r.events[i].found.value;
            && 2 <= fd < MAX_NUM_FD && Shaped(t) && IsLive(t, p)
            && t.pcbs[p].fds[fd] == Fd(OpsOf(e.ftype).value, e.inode, 0, true)
  {
    var h := StepOfRun(r, i);
    RunnerIsNobodysParent(r.states[i], h);
    LowestIsFree(r.states[i], h);
  }

  lemma {:induction false} ReadFromStart(fs: Image, e: DirEntry, f: Fd, g: Fd, bytes: seq<byte>)
    requires ValidImage(fs) && Moved(fs, f, g, bytes) && OpsOf(e.ftype).Some?
    requires f == Fd(OpsOf(e.ftype).value, e.inode, 0, true)
    ensures HasRead(fs, e, g.pos, bytes)
  {
    if f.ops == FileOps && Readable(fs, f.inode) {
      forall k | 0 <= k < g.pos
        ensures Prefix(fs, f.inode, g.pos)[k] == FileBytes(fs, f.inode)[k]
      {
        PrefixAt(fs, f.inode, g.pos, k);
        PrefixAt(fs, f.inode, fs.inodes[f.inode].length, k);
      }
    }
  }

  // A process opens what the image holds under a name and reads on.  Whenever
  // it stops, it has read exactly the beginning of that file, or of the
  // listing of that directory,
  lemma {:induction false} OpenedFileIsReadInOrder(fs: Image, r: Run, p: int, fd: nat, i: nat, j: nat, name: seq<byte>)
    requires RunsOn(fs, r) && OpensAndKeeps(r, p, fd, i, j) && r.events[i].found == Lookup(fs.entries, name)
    ensures fd < MAX_NUM_FD && Shaped(r.states[j])
    ensures HasRead(fs, Lookup(fs.entries, name).value, r.states[j].pcbs[p].fds[fd].pos, Delivered(fs, r, p, fd, i + 1, j))
  {
    OpenStarts(r, p, fd, i, j);
    ReadsAreConsecutive(fs, r, p, fd, i + 1, j);
    hide RunsOn, OpensAndKeeps, Delivered, Moved, HasRead, FdOk;
    ReadFromStart(fs, Lookup(fs.entries, name).value, r.states[i + 1].pcbs[p].fds[fd], r.states[j].pcbs[p].fds[fd],
                  Delivered(fs, r, p, fd, i + 1, j));
  }

  // and all of it once a read has come back short.
  lemma {:induction false} ShortReadEndsFile(fs: Image, r: Run, p: int, fd: nat, i: nat, j: nat, name: seq<byte>)
    requires RunsOn(fs, r) && OpensAndKeeps(r, p, fd, i, j) && i + 1 < j && r.events[i].found == Lookup(fs.entries, name)
    requires var e := r.events[j - 1];
             e.ReadCall? && r.states[j - 1].current == p && e.slot == fd && e.n < e.asked
    ensures var e := Lookup(fs.entries, name).value;
            && (e.ftype == FTYPE_FILE && Readable(fs, e.inode) ==> Delivered(fs, r, p, fd, i + 1, j) == FileBytes(fs, e.inode))
            && (e.ftype == FTYPE_DIR ==> Delivered(fs, r, p, fd, i + 1, j) == Listing(fs))
  {
    OpenStarts(r, p, fd, i, j);
    OpenedFileIsReadInOrder(fs, r, p, fd, i, j, name);
    ShortReadAtEnd(fs, r, p, fd, i + 1, j);
    hide *;
    ReadToTheEnd(fs, Lookup(fs.entries, name).value, r.states[i + 1].pcbs[p].fds[fd], Delivered(fs, r, p, fd, i + 1, j));
  }

  lemma {:induction false} ShortReadAtEnd(fs: Image, r: Run, p: int, fd: nat, i: nat, j: nat)
    requires RunsOn(fs, r) && i < j <= |r.events| && 2 <= fd < MAX_NUM_FD && Shaped(r.states[i]) && IsLive(r.states[i], p)
    requires r.states[i].pcbs[p].fds[fd].isOpen && KeepsOpen(r, p, fd, i, j)
    requires var e := r.events[j - 1];
             e.ReadCall? && r.states[j - 1].current == p && e.slot == fd && e.n < e.asked
    ensures Shaped(r.states[j]) && r.states[j].pcbs[p].fds[fd].pos == LengthOf(fs, r.states[i].pcbs[p].fds[fd])
  {
    KeepsOpenBefore(r, p, fd, i, j);
    ReadsAreConsecutive(fs, r, p, fd, i, j - 1);
    var f, g := r.states[i].pcbs[p].fds[fd], r.states[j - 1].pcbs[p].fds[fd];
    StillOpen(fs, f, g, Delivered(fs, r, p, fd, i, j - 1));
    hide RunsOn, KeepsOpen, Delivered, Moved, FdOk, LengthOf;
    ShortReadIsLast(fs, r, p, fd, j - 1);
  }

  lemma {:induction false} ReadToTheEnd(fs: Image, e: DirEntry, f: Fd, bytes: seq<byte>)
    requires ValidImage(fs) && OpsOf(e.ftype) == Some(f.ops) && f.inode == e.inode && HasRead(fs, e, LengthOf(fs, f), bytes)
    ensures e.ftype == FTYPE_FILE && Readable(fs, e.inode) ==> bytes == FileBytes(fs, e.inode)
    ensures e.ftype == FTYPE_DIR ==> bytes == Listing(fs)
  {
  }

  lemma {:induction false} ShortReadIsLast(fs: Image, r: Run, p: int, fd: nat, k: nat)
    requires RunsOn(fs, r) && k < |r.events| && Shaped(r.states[k]) && 0 <= p < PROCESS_NUM && fd < MAX_NUM_FD
    requires FdOk(fs, r.states[k].pcbs[p].fds[fd]) && r.states[k].pcbs[p].fds[fd].isOpen
    requires var e := r.events[k];
             e.ReadCall? && r.states[k].current == p && e.slot == fd && e.n < e.asked
    ensures Shaped(r.states[k + 1])
    ensures var f := r.states[k].pcbs[p].fds[fd];
            r.states[k + 1].pcbs[p].fds[fd] == f.(pos := LengthOf(fs, f))
  {
    assert Follows(r, k) && ServedAt(fs, r, k);
  }
}
