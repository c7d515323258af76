// The page directory, the low page table and the video page table, and the
// address translation the processor does with them: section 4.3, "32-Bit
// Paging", of the Intel SDM, volume 3A.
module Paging {
  import opened FileSystem
  import opened Limits

  const NUM_PAGES := 1024
  const PAGE_SIZE := 0x1000
  const MB_PAGE_SIZE := 0x40_0000
  const VMEM_T1 := 0xB9
  const PROC_PAGE_INDEX := 32
  const PROC_PAGE_PADDR := 0x80_0000
  const USER_PAGE_VMIN := 0x800_0000
  const USER_VMEM_VADDR := 0x80_0000

  // The video page of each terminal, by page number.
  function TermPage(t: nat): nat {
    VMEM_T1 + t
  }

  // A directory entry: a 4 MB page when large, else a page table.  The base
  // counts 4 MB pages or 4 KB pages accordingly.
  datatype Pde = Pde(present: bool, user: bool, large: bool, base: nat)
  datatype Pte = Pte(present: bool, user: bool, base: nat)

  const ABSENT_DIR := Pde(false, false, false, 0)
  const ABSENT_PAGE := Pte(false, false, 0)

  // The three tables, and the 4 KB frames the two page tables live in.
  datatype Tables = Tables(dir: seq<Pde>, low: seq<Pte>, video: seq<Pte>, lowAt: nat, videoAt: nat)

  ghost predicate Shaped(t: Tables) {
    |t.dir| == NUM_PAGES && |t.low| == NUM_PAGES && |t.video| == NUM_PAGES && t.lowAt != t.videoAt
  }

  // The physical address a user-mode access to va reaches, if it is allowed.
  // Both the directory entry and the table entry must be present and for
  // users.
  ghost function UserTranslate(t: Tables, va: uint32): Option<nat>
    requires Shaped(t)
  {
    var pde := t.dir[va / MB_PAGE_SIZE];
    if !pde.present || !pde.user then None
    else if pde.large then Some(pde.base * MB_PAGE_SIZE + va % MB_PAGE_SIZE)
    else if pde.base != t.lowAt && pde.base != t.videoAt then None
    else
      var pte := (if pde.base == t.lowAt then t.low else t.video)[va / PAGE_SIZE % NUM_PAGES];
      if !pte.present || !pte.user then None
      else Some(pte.base * PAGE_SIZE + va % PAGE_SIZE)
  }

  // What the kernel means user mode to see: the 4 MB frame of one process,
  // and three video pages.
  function UserView(pid: nat, screens: seq<nat>, va: uint32): Option<nat>
    requires |screens| == TERM_MAX
  {
    if USER_PAGE_VMIN <= va < USER_PAGE_VMIN + MB_PAGE_SIZE then
      Some(PROC_PAGE_PADDR + pid * MB_PAGE_SIZE + (va - USER_PAGE_VMIN))
    else
      var page := va / PAGE_SIZE - USER_VMEM_VADDR / PAGE_SIZE;
      if VMEM_T1 <= page < VMEM_T1 + TERM_MAX then Some(screens[page - VMEM_T1] * PAGE_SIZE + va % PAGE_SIZE)
      else None
  }

  // The entries the kernel sets up; everything else stays absent or
  // supervisor-only.
  ghost predicate Mapping(t: Tables, pid: nat, screens: seq<nat>)
    requires |screens| == TERM_MAX
  {
    && Shaped(t)
    && (forall i :: 0 <= i < NUM_PAGES && i != 2 && i != PROC_PAGE_INDEX ==> !t.dir[i].present || !t.dir[i].user)
    && t.dir[2] == Pde(true, true, false, t.videoAt)
    && t.dir[PROC_PAGE_INDEX] == Pde(true, true, true, 2 + pid)
    && (forall i :: 0 <= i < NUM_PAGES && (i < VMEM_T1 || i >= VMEM_T1 + TERM_MAX) ==> !t.video[i].present)
    && (forall i :: VMEM_T1 <= i < VMEM_T1 + TERM_MAX ==> t.video[i] == Pte(true, true, screens[i - VMEM_T1]))
  }

  // User mode reaches exactly what it is meant to see.
  lemma {:induction false} TranslationIsExact(t: Tables, pid: nat, screens: seq<nat>, va: uint32)
    requires |screens| == TERM_MAX && Mapping(t, pid, screens)
    ensures UserTranslate(t, va) == UserView(pid, screens, va)
  {
  }

  // Frames of distinct processes are disjoint, so no two processes' program
  // pages ever translate to one physical address.
  lemma {:induction false} FramesDisjoint(p: nat, q: nat, screens: seq<nat>, va: uint32, wa: uint32)
    requires |screens| == TERM_MAX && p != q
    requires USER_PAGE_VMIN <= va < USER_PAGE_VMIN + MB_PAGE_SIZE && USER_PAGE_VMIN <= wa < USER_PAGE_VMIN + MB_PAGE_SIZE
    ensures UserView(p, screens, va) != UserView(q, screens, wa)
  {
  }

  class PageTables {
    const dir: array<Pde>
    const low: array<Pte>
    const video: array<Pte>
    const lowAt: nat
    const videoAt: nat

    ghost predicate Valid() {
      && dir.Length == NUM_PAGES && low.Length == NUM_PAGES && video.Length == NUM_PAGES
      && low != video && lowAt != videoAt
    }

    ghost function View(): (t: Tables)
      requires Valid()
      reads dir, low, video
      ensures Shaped(t)
    {
      Tables(dir[..], low[..], video[..], lowAt, videoAt)
    }

    // The directory is in zeroed memory; the kernel links the two page tables
    // at distinct 4 KB frames.
    constructor (lowAt: nat, videoAt: nat)
      requires lowAt != videoAt
      ensures Valid() && fresh(dir) && fresh(low) && fresh(video)
      ensures Mapping(View(), 0, [VMEM_MAP, TermPage(1), TermPage(2)])
    {
      this.lowAt, this.videoAt := lowAt, videoAt;
      var d := new Pde[NUM_PAGES](_ => ABSENT_DIR);
      var l := new Pte[NUM_PAGES](_ => ABSENT_PAGE);
      var v := new Pte[NUM_PAGES](_ => ABSENT_PAGE);
      dir, low, video := d, l, v;
      new;
      InitPages();
    }

    method InitPages()
      requires Valid()
      requires forall i :: 0 <= i < NUM_PAGES ==> dir[i] == ABSENT_DIR
      modifies dir, low, video
      ensures Mapping(View(), 0, [VMEM_MAP, TermPage(1), TermPage(2)])
    {
      for i := 0 to NUM_PAGES
        invariant forall k :: 0 <= k < NUM_PAGES ==> dir[k] == ABSENT_DIR
      {
        low[i] := ABSENT_PAGE;
      }
      low[VMEM_MAP] := Pte(true, false, VMEM_MAP);
      low[VMEM_T1] := Pte(true, false, VMEM_T1);
      low[VMEM_T1 + 1] := Pte(true, false, VMEM_T1 + 1);
      low[VMEM_T1 + 2] := Pte(true, false, VMEM_T1 + 2);
      dir[0] := Pde(true, false, false, lowAt);
      dir[1] := Pde(true, false, true, 1);
      dir[PROC_PAGE_INDEX] := Pde(true, true, true, PROC_PAGE_PADDR / MB_PAGE_SIZE);
      for i := 0 to NUM_PAGES
        invariant forall k :: 0 <= k < NUM_PAGES && k != PROC_PAGE_INDEX ==> !dir[k].user
        invariant dir[PROC_PAGE_INDEX] == Pde(true, true, true, 2)
        invariant forall k :: 0 <= k < i ==> video[k] == ABSENT_PAGE
      {
        video[i] := ABSENT_PAGE;
      }
      Map4kb(true, VMEM_T1, VMEM_MAP);
      Map4kb(true, VMEM_T1 + 1, VMEM_T1 + 1);
      Map4kb(true, VMEM_T1 + 2, VMEM_T1 + 2);
      dir[2] := Pde(true, true, false, videoAt);
    }

    // Make the process page the frame of this process.
    method MapUser(pid: nat)
      requires Valid()
      modifies dir
      ensures View() == WithFrame(old(View()), pid)
    {
      var base := (PROC_PAGE_PADDR + MB_PAGE_SIZE * pid) / MB_PAGE_SIZE;
      dir[PROC_PAGE_INDEX] := dir[PROC_PAGE_INDEX].(base := base);
    }

    // Map one 4 KB page of the video table.
    method Map4kb(user: bool, index: nat, base: nat)
      requires Valid() && index < NUM_PAGES
      modifies video
      ensures View() == old(View()).(video := old(video[..])[index := Pte(true, user, base)])
    {
      video[index] := Pte(true, user, base);
    }
  }

  // The tables with the process page pointed at another frame.
  function WithFrame(t: Tables, pid: nat): Tables
    requires |t.dir| == NUM_PAGES
  {
    t.(dir := t.dir[PROC_PAGE_INDEX := t.dir[PROC_PAGE_INDEX].(base := 2 + pid)])
  }

  lemma {:induction false} WithFrameMaps(t: Tables, pid: nat, screens: seq<nat>, next: nat)
    requires |screens| == TERM_MAX && Mapping(t, pid, screens)
    ensures Mapping(WithFrame(t, next), next, screens)
  {
  }

  // The tables with one terminal's page pointed elsewhere.
  function WithScreen(t: Tables, term: nat, page: nat): Tables
    requires |t.video| == NUM_PAGES && term < TERM_MAX
  {
    t.(video := t.video[TermPage(term) := Pte(true, true, page)])
  }

  lemma {:induction false} WithScreenMaps(t: Tables, pid: nat, screens: seq<nat>, term: nat, page: nat)
    requires |screens| == TERM_MAX && Mapping(t, pid, screens) && term < TERM_MAX
    ensures Mapping(WithScreen(t, term, page), pid, screens[term := page])
  {
  }

  // The tables once one terminal is displayed in place of another.
  function Switched(t: Tables, shown: nat, hidden: nat): Tables
    requires |t.video| == NUM_PAGES && shown < TERM_MAX && hidden < TERM_MAX
  {
    WithScreen(WithScreen(t, shown, VMEM_MAP), hidden, TermPage(hidden))
  }

  lemma {:induction false} SwitchedMaps(t: Tables, pid: nat, screens: seq<nat>, shown: nat, hidden: nat)
    requires |screens| == TERM_MAX && Mapping(t, pid, screens) && shown < TERM_MAX && hidden < TERM_MAX
    ensures Mapping(Switched(t, shown, hidden), pid, screens[shown := VMEM_MAP][hidden := TermPage(hidden)])
  {
    WithScreenMaps(t, pid, screens, shown, VMEM_MAP);
    WithScreenMaps(WithScreen(t, shown, VMEM_MAP), pid, screens[shown := VMEM_MAP], hidden, TermPage(hidden));
  }
}
