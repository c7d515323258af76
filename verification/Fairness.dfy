// Round-robin scheduling: nobody waits for ever.
module Fairness {
  import opened Limits
  import opened Process
  import opened Lifecycle
  import opened Reachable

  // How often the scheduler runs in operations i to j - 1.
  function SchedCount(r: Run, i: nat, j: nat): nat
    requires j <= |r.events| < |r.states|
    decreases j - i
  {
    if i >= j then 0 else (if Reschedules(r.states[i], r.events[i]) then 1 else 0) + SchedCount(r, i + 1, j)
  }

  // How many processes end in them; a shell is started afresh instead.
  function Ends(r: Run, i: nat, j: nat): nat
    requires j <= |r.events| < |r.states|
    decreases j - i
  {
    if i >= j then 0 else (if EndsProcess(r.states[i], r.events[i]) then 1 else 0) + Ends(r, i + 1, j)
  }

  // A scheduled process that is not running stays scheduled and, whenever the
  // scheduler runs, comes closer to its turn; at distance 0 it runs.
  lemma {:induction false} TurnComesCloser(s: State, h: History, e: Event, q: int)
    requires Inv(s, h) && Enabled(s, e) && s.current != NONE
    requires 0 <= q < PROCESS_NUM && q != s.current && s.queue[q] == Scheduled
    requires !EndsProcess(s, e)
    ensures var r := Step(s, e);
            && r.current != NONE && r.queue[q] == Scheduled
            && if Reschedules(s, e) then Distance(q, r.current) < Distance(q, s.current) else r.current == s.current
  {
    RunnerIsNobodysParent(s, h);
    DistancePositive(s.current, q);
    if Reschedules(s, e) {
      SchedComesCloser(s, e, q);
    } else {
      hide Chains, Placed, Distance;
    }
  }

  lemma {:induction false} SchedComesCloser(s: State, e: Event, q: int)
    requires Shaped(s) && Enabled(s, e) && s.current != NONE && Reschedules(s, e)
    requires 0 <= q < PROCESS_NUM && q != s.current && s.queue[q] == Scheduled
    ensures var r := Step(s, e);
            r.current != NONE && r.queue[q] == Scheduled && Distance(q, r.current) < Distance(q, s.current)
  {
    DistancePositive(s.current, q);
    var queue := if e.Tick? then s.queue else s.queue[s.current := Loaded][FirstFree(s.queue) := Scheduled];
    ReschedulesNext(s, e, queue);
    NextIsCloser(queue, s.current, q);
  }

  lemma {:induction false} ReschedulesNext(s: State, e: Event, queue: seq<Load>)
    requires Shaped(s) && Enabled(s, e) && s.current != NONE && Reschedules(s, e)
    requires queue == if e.Tick? then s.queue else s.queue[s.current := Loaded][FirstFree(s.queue) := Scheduled]
    ensures Step(s, e).queue == queue && Step(s, e).current == Next(queue, s.current, 1)
  {
    hide ArgumentOf, StoreString, WithStdio;
  }

  // Bounded waiting: from any state of a run on, a process that can run does
  // so within as many runs of the scheduler as it is behind the running
  // process in cyclic order, at most five, and five more for every process
  // that ends meanwhile, whatever else happens.
  lemma {:induction false} BoundedWaiting(r: Run, i: nat, j: nat, q: int) returns (k: nat)
    requires FromBoot(r) && 0 < i <= j < |r.states|
    requires 0 <= q < PROCESS_NUM == |r.states[i].queue| && r.states[i].queue[q] == Scheduled
    requires SchedCount(r, i, j) >= Distance(q, r.states[i].current) + 5 * Ends(r, i, j)
    ensures i <= k <= j && r.states[k].current == q
    ensures SchedCount(r, i, k) <= Distance(q, r.states[i].current) + 5 * Ends(r, i, k)
    ensures Distance(q, r.states[i].current) <= 5
    decreases j - i
  {
    k := i;
    RunnerStays(r, i);
    if q != r.states[i].current {
      var h := RunKeeps(r, i);
      DistancePositive(r.states[i].current, q);
      assert i < j;
      h := StepOfRun(r, i);
      WaitsOn(r.states[i], h, r.events[i], q);
      hide Step, EndsProcess, Reschedules, Distance;
      k := BoundedWaiting(r, i + 1, j, q);
    }
  }

  // One operation of a run, as the waiting process sees it.
  lemma {:induction false} WaitsOn(s: State, h: History, e: Event, q: int)
    requires Inv(s, h) && Enabled(s, e) && s.current != NONE
    requires 0 <= q < PROCESS_NUM && q != s.current && s.queue[q] == Scheduled
    ensures var r := Step(s, e);
            && |r.queue| == PROCESS_NUM && r.queue[q] == Scheduled
            && Distance(q, r.current) + (if Reschedules(s, e) then 1 else 0) <=
               Distance(q, s.current) + (if EndsProcess(s, e) then 5 else 0)
  {
    if EndsProcess(s, e) {
      DistancePositive(s.current, q);
    } else {
      TurnComesCloser(s, h, e, q);
    }
  }

  lemma {:induction false} DistancePositive(c: int, q: int)
    requires 0 <= c < PROCESS_NUM && 0 <= q < PROCESS_NUM && q != c
    ensures Distance(q, c) > 0 && Distance(q, q) == 0
  {
  }

  // When only ticks happen, three of them run the three scheduled processes,
  // one of every terminal, in turn and come back to the first.
  lemma {:induction false} TicksCycle(r: Run, i: nat)
    requires FromBoot(r) && 0 < i && i + 3 <= |r.events|
    requires r.events[i].Tick? && r.events[i + 1].Tick? && r.events[i + 2].Tick?
    ensures var a, b, c := r.states[i + 1].current, r.states[i + 2].current, r.states[i + 3].current;
            && c == r.states[i].current && a != b && b != c && a != c
            && Shaped(r.states[i])
            && forall t :: 0 <= t < TERM_MAX ==> Runnable(r.states[i], a, t) || Runnable(r.states[i], b, t) || Runnable(r.states[i], c, t)
  {
    RunnerStays(r, i);
    var h := StepOfRun(r, i);
    assert Follows(r, i + 1) && Follows(r, i + 2);
    var s := r.states[i];
    hide Step, Next, Closer, Chains;
    TickKeeps(s, h, r.events[i]);
    TickKeeps(r.states[i + 1], h, r.events[i + 1]);
    TickKeeps(r.states[i + 2], h, r.events[i + 2]);
    LeavesRun(s, h);
    LeavesCycle(s, h.leaf, s.current, r.states[i + 1].current, r.states[i + 2].current, r.states[i + 3].current);
  }

  lemma {:induction false} LeavesRun(s: State, h: History)
    requires Inv(s, h)
    ensures forall t :: 0 <= t < TERM_MAX ==> Runnable(s, h.leaf[t], t)
    ensures s.current != NONE ==> s.current in {h.leaf[0], h.leaf[1], h.leaf[2]}
  {
    forall t | 0 <= t < TERM_MAX
      ensures Runnable(s, h.leaf[t], t)
    {
      OneRunnable(s, h, h.leaf[t], t);
    }
    if s.current != NONE {
      RunnerIsNobodysParent(s, h);
    }
  }

  lemma {:induction false} LeavesCycle(s: State, leaf: seq<int>, a: int, b: int, c: int, d: int)
    requires Shaped(s) && |leaf| == TERM_MAX && forall t :: 0 <= t < TERM_MAX ==> Runnable(s, leaf[t], t)
    requires {a, b, c, d} <= {leaf[0], leaf[1], leaf[2]}
    requires Closer(leaf, a, b) && Closer(leaf, b, c) && Closer(leaf, c, d)
    ensures a != b && b != c && a != c && d == a
    ensures forall t :: 0 <= t < TERM_MAX ==> Runnable(s, a, t) || Runnable(s, b, t) || Runnable(s, c, t)
  {
    assert Runnable(s, leaf[0], 0) && Runnable(s, leaf[1], 1) && Runnable(s, leaf[2], 2);
    assert a in {a, b, c, d} && b in {a, b, c, d} && c in {a, b, c, d};
    RoundOfThree(leaf, a, b, c, d);
  }

  lemma {:induction false} TickKeeps(s: State, h: History, e: Event)
    requires Inv(s, h) && s.current != NONE && e.Tick?
    ensures var r := Step(s, e);
            Inv(r, h) && r.current != NONE && Closer(h.leaf, s.current, r.current) && r.current in {h.leaf[0], h.leaf[1], h.leaf[2]}
  {
    SchedKeeps(s, h, e.bp, e.sp);
    LeavesRun(Step(s, e), h);
    LeavesRun(s, h);
    assert forall t :: 0 <= t < TERM_MAX ==> Runnable(s, h.leaf[t], t);
    NextIsCloserToAll(s.queue, h.leaf, s.current);
  }

  // Going from a to b, no leaf but a itself is passed over.
  predicate Closer(leaf: seq<int>, a: int, b: int) {
    forall t :: 0 <= t < |leaf| ==> leaf[t] != a ==> b != a && (b == leaf[t] || Distance(leaf[t], b) < Distance(leaf[t], a))
  }

  lemma {:induction false} NextIsCloserToAll(queue: seq<Load>, leaf: seq<int>, a: int)
    requires |queue| == PROCESS_NUM && 0 <= a < PROCESS_NUM
    requires forall t :: 0 <= t < |leaf| ==> 0 <= leaf[t] < PROCESS_NUM && queue[leaf[t]] == Scheduled
    ensures Closer(leaf, a, Next(queue, a, 1))
  {
    forall t | 0 <= t < |leaf| && leaf[t] != a
      ensures var b := Next(queue, a, 1); b != a && (b == leaf[t] || Distance(leaf[t], b) < Distance(leaf[t], a))
    {
      NextIsCloser(queue, a, leaf[t]);
    }
  }

  // Three leaves, each reached from the one before without passing another.
  lemma {:induction false} RoundOfThree(leaf: seq<int>, a: int, b: int, c: int, d: int)
    requires |leaf| == TERM_MAX && leaf[0] != leaf[1] && leaf[1] != leaf[2] && leaf[0] != leaf[2]
    requires forall t :: 0 <= t < TERM_MAX ==> 0 <= leaf[t] < PROCESS_NUM
    requires {a, b, c, d} <= {leaf[0], leaf[1], leaf[2]}
    requires Closer(leaf, a, b) && Closer(leaf, b, c) && Closer(leaf, c, d)
    ensures a != b && b != c && a != c && d == a
  {
    assert a in {a, b, c, d} && b in {a, b, c, d} && c in {a, b, c, d} && d in {a, b, c, d};
  }
}
