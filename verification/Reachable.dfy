// The main results about processes, stated over every run from boot without
// reference to the bookkeeping of Lifecycle.
module Reachable {
  import opened Text
  import opened Limits
  import opened Rtc
  import opened Process
  import opened Lifecycle

  // The n-th parent of p.
  function Up(s: State, p: int, n: nat): int
    requires Shaped(s)
    decreases n
  {
    if n == 0 || p < 0 || p >= PROCESS_NUM then p else Up(s, s.pcbs[p].parent, n - 1)
  }

  predicate IsLive(s: State, p: int)
    requires Shaped(s)
  {
    0 <= p < PROCESS_NUM && s.queue[p] != NotLoaded
  }

  // Live pids form three parent chains rooted at the shells 0, 1, 2, one per
  // terminal; in each, one process is scheduled, the end of the chain, and
  // its ancestors are loaded.
  ghost predicate ThreeChains(s: State)
    requires Shaped(s)
  {
    && (forall p :: IsLive(s, p) ==> InItsChain(s, p))
    && (forall p, q :: Siblings(s, p, q) ==> p == q)
    && (forall t :: 0 <= t < TERM_MAX ==> HasOneLeaf(s, t))
  }

  ghost predicate InItsChain(s: State, p: int)
    requires Shaped(s) && 0 <= p < PROCESS_NUM
  {
    ReachesShell(s, p) && (s.pcbs[p].parent != NONE ==> ParentWaits(s, p))
  }

  predicate Siblings(s: State, p: int, q: int)
    requires Shaped(s)
  {
    IsLive(s, p) && IsLive(s, q) && s.pcbs[p].parent == s.pcbs[q].parent != NONE
  }

  ghost predicate HasOneLeaf(s: State, t: int)
    requires Shaped(s) && 0 <= t < TERM_MAX
  {
    && IsLive(s, t) && s.pcbs[t].parent == NONE
    && exists p :: Runnable(s, p, t) && forall q :: Runnable(s, q, t) ==> q == p
  }

  // Following parents ends at the shell of the process's own terminal.
  ghost predicate ReachesShell(s: State, p: int)
    requires Shaped(s) && 0 <= p < PROCESS_NUM
  {
    exists n: nat :: Up(s, p, n) == s.pcbs[p].term
  }

  predicate ParentWaits(s: State, p: int)
    requires Shaped(s) && 0 <= p < PROCESS_NUM
  {
    var q := s.pcbs[p].parent;
    IsLive(s, q) && s.queue[q] == Loaded && s.pcbs[q].term == s.pcbs[p].term
  }

  predicate Runnable(s: State, p: int, t: int)
    requires Shaped(s)
  {
    IsLive(s, p) && s.queue[p] == Scheduled && s.pcbs[p].term == t
  }

  // Free processes hold no open descriptors; live ones have standard input
  // and output, a terminated argument, and a clock rate that exists.
  ghost predicate Tidy(s: State)
    requires Shaped(s)
  {
    && (forall p :: 0 <= p < PROCESS_NUM && !IsLive(s, p) ==> AllClosed(s.pcbs[p].fds))
    && (forall p :: IsLive(s, p) ==> s.pcbs[p].fds[STDIN].isOpen && s.pcbs[p].fds[STDOUT].isOpen)
    && (forall p :: IsLive(s, p) ==> NUL in s.pcbs[p].argument)
    && (forall p :: IsLive(s, p) ==> s.pcbs[p].pid == p && (s.pcbs[p].rtcFreq == UNSET || Supported(s.pcbs[p].rtcFreq)))
  }

  lemma {:induction false} LiveIsPlaced(s: State, h: History, p: int)
    requires Shaped(s) && Chains(s, h) && 0 <= p < PROCESS_NUM
    ensures IsLive(s, p) <==> p in h.place
    ensures p in h.place ==> Placed(s, h, p)
    ensures p !in h.place ==> Free(s, p)
  {
    assert if p in h.place then Placed(s, h, p) else Free(s, p);
  }

  lemma {:induction false} UpReachesShell(s: State, h: History, p: int)
    requires Shaped(s) && Chains(s, h) && IsLive(s, p) && p in h.place
    ensures h.place[p].term < TERM_MAX
    ensures Up(s, p, h.place[p].depth) == h.place[p].term == s.pcbs[p].term
    decreases h.place[p].depth
  {
    LiveIsPlaced(s, h, p);
    if h.place[p].depth > 0 {
      LiveIsPlaced(s, h, s.pcbs[p].parent);
      UpReachesShell(s, h, s.pcbs[p].parent);
    }
  }

  lemma {:induction false} ParentOf(s: State, h: History, p: int)
    requires Shaped(s) && Chains(s, h) && IsLive(s, p) && s.pcbs[p].parent != NONE
    ensures ParentWaits(s, p)
    ensures p in h.place && s.pcbs[p].parent in h.place
    ensures h.place[p].term == h.place[s.pcbs[p].parent].term && h.place[p].depth == h.place[s.pcbs[p].parent].depth + 1
  {
    LiveIsPlaced(s, h, p);
    LiveIsPlaced(s, h, s.pcbs[p].parent);
  }

  lemma {:induction false} OnlyChild(s: State, h: History, p: int, q: int)
    requires Shaped(s) && Chains(s, h) && Siblings(s, p, q)
    ensures p == q
  {
    ParentOf(s, h, p);
    ParentOf(s, h, q);
    assert Live(h, p) && Live(h, q);
  }

  lemma {:induction false} OneRunnable(s: State, h: History, p: int, t: int)
    requires Shaped(s) && Chains(s, h) && 0 <= t < TERM_MAX
    ensures Runnable(s, p, t) <==> p == h.leaf[t]
  {
    LiveIsPlaced(s, h, h.leaf[t]);
    if IsLive(s, p) {
      LiveIsPlaced(s, h, p);
    }
  }

  lemma {:induction false} EachInItsChain(s: State, h: History, p: int)
    requires Shaped(s) && Chains(s, h) && IsLive(s, p)
    ensures InItsChain(s, p)
  {
    LiveIsPlaced(s, h, p);
    UpReachesShell(s, h, p);
    if s.pcbs[p].parent != NONE {
      ParentOf(s, h, p);
    }
  }

  lemma {:induction false} ShellHasLeaf(s: State, h: History, t: int)
    requires Shaped(s) && Chains(s, h) && 0 <= t < TERM_MAX
    ensures HasOneLeaf(s, t)
  {
    LiveIsPlaced(s, h, t);
    OneRunnable(s, h, h.leaf[t], t);
    forall q | Runnable(s, q, t)
      ensures q == h.leaf[t]
    {
      OneRunnable(s, h, q, t);
    }
  }

  lemma {:induction false} ChainsAreThree(s: State, h: History)
    requires Shaped(s) && Chains(s, h)
    ensures ThreeChains(s)
  {
    hide Chains, InItsChain, Siblings, HasOneLeaf;
    forall p | IsLive(s, p)
      ensures InItsChain(s, p)
    {
      EachInItsChain(s, h, p);
    }
    forall p, q | Siblings(s, p, q)
      ensures p == q
    {
      OnlyChild(s, h, p, q);
    }
    forall t | 0 <= t < TERM_MAX
      ensures HasOneLeaf(s, t)
    {
      ShellHasLeaf(s, h, t);
    }
  }

  lemma {:induction false} ChainsAreTidy(s: State, h: History)
    requires Shaped(s) && Chains(s, h)
    ensures Tidy(s)
  {
    forall p | 0 <= p < PROCESS_NUM
      ensures if IsLive(s, p) then p in h.place && Placed(s, h, p) else Free(s, p)
    {
      LiveIsPlaced(s, h, p);
    }
  }

  lemma {:induction false} EveryReachableState(r: Run, n: nat)
    requires FromBoot(r) && n < |r.states|
    ensures var s := r.states[n];
            Shaped(s) && ThreeChains(s) && Tidy(s) && Running(s) && Consistent(s.clock)
  {
    var h := RunKeeps(r, n);
    ChainsAreThree(r.states[n], h);
    ChainsAreTidy(r.states[n], h);
  }

  // After the first operation, which is a tick, there is always a running
  // process.
  lemma {:induction false} RunnerStays(r: Run, n: nat)
    requires FromBoot(r) && 0 < n < |r.states|
    ensures r.events[0].Tick? && r.states[n].current != NONE
  {
    assert Follows(r, 0) && Follows(r, n - 1);
    StepRunsSomebody(r.states[n - 1], r.events[n - 1]);
  }

  lemma {:induction false} StepRunsSomebody(s: State, e: Event)
    requires Shaped(s) && Enabled(s, e)
    ensures Step(s, e).current != NONE
  {
  }

  // One step of a run, with the invariant before it.
  lemma {:induction false} StepOfRun(r: Run, n: nat) returns (h: History)
    requires FromBoot(r) && n < |r.events|
    ensures Inv(r.states[n], h) && Enabled(r.states[n], r.events[n]) && r.states[n + 1] == Step(r.states[n], r.events[n])
  {
    h := RunKeeps(r, n);
    assert Follows(r, n);
  }
}
