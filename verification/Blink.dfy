// The pool of 2000 slots and the linked list through it.
module Blink {
  import opened Text
  import opened FileSystem
  import opened BlinkList

  const NULL := -1

  datatype Slot = Slot(entry: Entry, next: int)

  const EMPTY := Slot(Entry(0, 0, 0, 0, 0, 0, 0), NULL)

  // The list that starts at head runs through exactly the slots in use, each
  // once; nodes names them in order.
  ghost predicate Good(slots: seq<Slot>, head: int, nodes: seq<nat>) {
    && |slots| == SCREEN_CELLS
    && (forall i :: 0 <= i < |nodes| ==> nodes[i] < SCREEN_CELLS && 0 < slots[nodes[i]].entry.location < SCREEN_CELLS)
    && (forall i, j :: 0 <= i < j < |nodes| ==> nodes[i] != nodes[j])
    && head == At(nodes, 0)
    && (forall i {:trigger Linked(slots, nodes, i)} :: 0 <= i < |nodes| ==> Linked(slots, nodes, i))
    && (forall x :: 0 <= x < SCREEN_CELLS && slots[x].entry.location != 0 ==> x in nodes)
  }

  predicate Linked(slots: seq<Slot>, nodes: seq<nat>, i: nat)
    requires i < |nodes| && nodes[i] < |slots|
  {
    slots[nodes[i]].next == At(nodes, i + 1)
  }

  function At(nodes: seq<nat>, i: nat): int {
    if i < |nodes| then nodes[i] else NULL
  }

  // The blinking characters, newest first.
  ghost function Entries(slots: seq<Slot>, nodes: seq<nat>): (es: seq<Entry>)
    requires forall i :: 0 <= i < |nodes| ==> nodes[i] < |slots|
    ensures |es| == |nodes|
    ensures forall i :: 0 <= i < |nodes| ==> es[i] == slots[nodes[i]].entry
  {
    seq(|nodes|, i requires 0 <= i < |nodes| => slots[nodes[i]].entry)
  }

  // The first free slot, or the pool's size.
  function FreeSlot(slots: seq<Slot>): (i: nat)
    ensures i <= |slots|
    ensures i < |slots| ==> slots[i].entry.location == 0
    ensures forall k :: 0 <= k < i ==> slots[k].entry.location != 0
  {
    if slots == [] || slots[0].entry.location == 0 then 0 else 1 + FreeSlot(slots[1..])
  }

  // The pool has a free slot exactly as long as fewer than 2000 characters blink.
  lemma {:induction false} FullPool(slots: seq<Slot>, head: int, nodes: seq<nat>)
    requires Good(slots, head, nodes)
    ensures FreeSlot(slots) == |slots| <==> |nodes| == SCREEN_CELLS
    ensures |nodes| <= SCREEN_CELLS
  {
    if FreeSlot(slots) < |slots| {
      AtMostBelow(nodes, SCREEN_CELLS, {FreeSlot(slots)});
    } else {
      assert forall x :: 0 <= x < SCREEN_CELLS ==> slots[x].entry.location != 0;
      AtMostBelow(nodes, SCREEN_CELLS, {});
      AllBelow(nodes, SCREEN_CELLS);
    }
  }

  predicate Distinct(nodes: seq<nat>) {
    forall i, j :: 0 <= i < j < |nodes| ==> nodes[i] != nodes[j]
  }

  ghost function Below(n: nat): (s: set<nat>)
    ensures |s| == n
    ensures forall x: nat :: x in s <==> x < n
  {
    if n == 0 then {} else Below(n - 1) + {n - 1}
  }

  ghost function Members(nodes: seq<nat>): (s: set<nat>)
    ensures forall x :: x in s <==> x in nodes
    ensures Distinct(nodes) ==> |s| == |nodes|
    ensures |s| <= |nodes|
  {
    if nodes == [] then {}
    else
      assert Distinct(nodes) ==> nodes[0] !in nodes[1..];
      {nodes[0]} + Members(nodes[1..])
  }

  lemma {:induction false} Subset(a: set<nat>, b: set<nat>)
    requires a <= b
    ensures |a| <= |b|
  {
    assert b == a + (b - a);
  }

  // Distinct numbers below n, none of them in `out`.
  lemma {:induction false} AtMostBelow(nodes: seq<nat>, n: nat, out: set<nat>)
    requires Distinct(nodes) && forall i :: 0 <= i < |nodes| ==> nodes[i] < n && nodes[i] !in out
    requires out <= Below(n)
    ensures |nodes| + |out| <= n
  {
    Subset(Members(nodes), Below(n) - out);
    assert |Below(n)| == |Below(n) - out| + |out| by {
      assert Below(n) == (Below(n) - out) + out;
    }
  }

  lemma {:induction false} AllBelow(nodes: seq<nat>, n: nat)
    requires forall x :: 0 <= x < n ==> x in nodes
    ensures |nodes| >= n
  {
    Subset(Below(n), Members(nodes));
  }

  // Storing an entry in a free slot and putting it at the front.
  lemma {:induction false} AddGood(slots: seq<Slot>, head: int, nodes: seq<nat>, i: nat, e: Entry)
    requires Good(slots, head, nodes) && i < SCREEN_CELLS && slots[i].entry.location == 0
    requires 0 < e.location < SCREEN_CELLS
    ensures Good(slots[i := Slot(e, head)], i, [i] + nodes)
    ensures Entries(slots[i := Slot(e, head)], [i] + nodes) == [e] + Entries(slots, nodes)
  {
    assert i !in nodes;
    AddLinks(slots, head, nodes, i, e);
    var es, es' := Entries(slots, nodes), Entries(slots[i := Slot(e, head)], [i] + nodes);
    forall k | 0 <= k < |es'|
      ensures es'[k] == ([e] + es)[k]
    {
    }
  }

  lemma {:induction false} AddLinks(slots: seq<Slot>, head: int, nodes: seq<nat>, i: nat, e: Entry)
    requires Good(slots, head, nodes) && i < SCREEN_CELLS && i !in nodes && 0 < e.location < SCREEN_CELLS
    ensures Good(slots[i := Slot(e, head)], i, [i] + nodes)
  {
    var slots', nodes' := slots[i := Slot(e, head)], [i] + nodes;
    forall k | 0 <= k < |nodes'|
      ensures Linked(slots', nodes', k)
    {
      if k > 0 { assert Linked(slots, nodes, k - 1); }
    }
    forall x | 0 <= x < SCREEN_CELLS && slots'[x].entry.location != 0
      ensures x in nodes'
    {
      if x != i { assert x in nodes; }
    }
  }

  // An entry at location 0 leaves its slot free, so no list can account for
  // it: adding keeps the list exactly when the location is not 0.
  lemma {:induction false} AddKeepsListIff(slots: seq<Slot>, head: int, nodes: seq<nat>, i: nat, e: Entry)
    requires Good(slots, head, nodes) && i < SCREEN_CELLS && slots[i].entry.location == 0 && e.location < SCREEN_CELLS
    ensures Accounted(slots[i := Slot(e, head)], i) <==> e.location != 0
  {
    if e.location != 0 {
      AddGood(slots, head, nodes, i, e);
    }
  }

  ghost predicate Accounted(slots: seq<Slot>, head: int) {
    exists nodes :: Good(slots, head, nodes)
  }

  // The next addition after such a one takes the same slot, whose successor
  // is then itself.
  lemma {:induction false} ZeroLocationMakesLoop(slots: seq<Slot>, head: int, e: Entry, f: Entry)
    requires |slots| == SCREEN_CELLS && FreeSlot(slots) < SCREEN_CELLS && e.location == 0
    ensures var i := FreeSlot(slots);
            var once := slots[i := Slot(e, head)];
            FreeSlot(once) == i && once[i := Slot(f, i)][i].next == i
  {
    var i := FreeSlot(slots);
    var once := slots[i := Slot(e, head)];
    assert forall k :: 0 <= k < i ==> once[k] == slots[k];
    assert once[i].entry.location == 0;
  }

  // The links after node k is taken out: its predecessor, or the head, points
  // past it, and its slot is cleared.
  function Unlinked(slots: seq<Slot>, nodes: seq<nat>, k: nat): seq<Slot>
    requires k < |nodes| && forall i :: 0 <= i < |nodes| ==> nodes[i] < |slots|
  {
    var after := slots[nodes[k]].next;
    (if k == 0 then slots else slots[nodes[k - 1] := slots[nodes[k - 1]].(next := after)])[nodes[k] := EMPTY]
  }

  lemma {:induction false} RemoveGood(slots: seq<Slot>, head: int, nodes: seq<nat>, k: nat)
    requires Good(slots, head, nodes) && k < |nodes|
    ensures var nodes' := nodes[..k] + nodes[k + 1..];
            && Good(Unlinked(slots, nodes, k), At(nodes', 0), nodes')
            && Entries(Unlinked(slots, nodes, k), nodes') == Without(Entries(slots, nodes), k)
  {
    RemoveKeepsGood(slots, head, nodes, k);
    RemoveFromEntries(slots, head, nodes, k);
  }

  lemma {:induction false} RemoveKeepsGood(slots: seq<Slot>, head: int, nodes: seq<nat>, k: nat)
    requires Good(slots, head, nodes) && k < |nodes|
    ensures var nodes' := nodes[..k] + nodes[k + 1..];
            Good(Unlinked(slots, nodes, k), At(nodes', 0), nodes')
  {
    var slots', nodes' := Unlinked(slots, nodes, k), nodes[..k] + nodes[k + 1..];
    RemoveDistinct(nodes, k);
    forall i | 0 <= i < |nodes'|
      ensures nodes'[i] < SCREEN_CELLS && 0 < slots'[nodes'[i]].entry.location < SCREEN_CELLS
      ensures Linked(slots', nodes', i)
    {
      RemoveOne(slots, head, nodes, k, i);
    }
    forall x | 0 <= x < SCREEN_CELLS && slots'[x].entry.location != 0
      ensures x in nodes'
    {
      RemoveMember(slots, head, nodes, k, x);
    }
  }

  lemma {:induction false} RemoveDistinct(nodes: seq<nat>, k: nat)
    requires Distinct(nodes) && k < |nodes|
    ensures Distinct(nodes[..k] + nodes[k + 1..])
  {
  }

  lemma {:induction false} RemoveFromEntries(slots: seq<Slot>, head: int, nodes: seq<nat>, k: nat)
    requires Good(slots, head, nodes) && k < |nodes|
    requires var nodes' := nodes[..k] + nodes[k + 1..];
             forall i :: 0 <= i < |nodes'| ==> nodes'[i] < SCREEN_CELLS
    ensures Entries(Unlinked(slots, nodes, k), nodes[..k] + nodes[k + 1..]) == Without(Entries(slots, nodes), k)
  {
  }

  // Where node i of the shorter list was.
  function Old(i: nat, k: nat): nat {
    if i < k then i else i + 1
  }

  lemma {:induction false} RemoveOne(slots: seq<Slot>, head: int, nodes: seq<nat>, k: nat, i: nat)
    requires Good(slots, head, nodes) && k < |nodes| && i < |nodes| - 1
    ensures var nodes', j := nodes[..k] + nodes[k + 1..], Old(i, k);
            && nodes'[i] == nodes[j] != nodes[k]
            && Unlinked(slots, nodes, k)[nodes[j]].entry == slots[nodes[j]].entry
            && Linked(Unlinked(slots, nodes, k), nodes', i)
  {
    var j := Old(i, k);
    assert Linked(slots, nodes, j) && Linked(slots, nodes, k);
    if k > 0 && j != k - 1 {
      assert nodes[j] != nodes[k - 1];
    }
  }

  lemma {:induction false} RemoveMember(slots: seq<Slot>, head: int, nodes: seq<nat>, k: nat, x: nat)
    requires Good(slots, head, nodes) && k < |nodes| && x < SCREEN_CELLS
    requires Unlinked(slots, nodes, k)[x].entry.location != 0
    ensures x in nodes[..k] + nodes[k + 1..]
  {
  }

  class Blinker {
    const slots: array<Slot>
    const video: array<byte>
    var head: int
    ghost var nodes: seq<nat>

    constructor ()
      ensures Valid() && List() == [] && fresh(slots) && fresh(video)
    {
      var s := new Slot[SCREEN_CELLS](_ => EMPTY);
      var v := new byte[2 * SCREEN_CELLS](_ => 0);
      slots, video, head, nodes := s, v, NULL, [];
    }

    ghost predicate Valid()
      reads this, slots
    {
      Good(slots[..], head, nodes) && video.Length == 2 * SCREEN_CELLS
    }

    ghost function List(): (es: seq<Entry>)
      requires Valid()
      reads this, slots
      ensures |es| == |nodes| && OnScreen(es)
    {
      Entries(slots[..], nodes)
    }

    ghost function View(): (b: Board)
      requires Valid()
      reads this, slots, video
      ensures OnBoard(b)
    {
      Board(List(), video[..])
    }

    // The first free slot, or NULL.
    method Malloc() returns (i: int)
      requires slots.Length == SCREEN_CELLS
      ensures i == if FreeSlot(slots[..]) < SCREEN_CELLS then FreeSlot(slots[..]) else NULL
    {
      i := 0;
      while i < SCREEN_CELLS
        invariant 0 <= i <= SCREEN_CELLS
        invariant FreeSlot(slots[..]) >= i
      {
        if slots[i].entry.location == 0 {
          return;
        }
        i := i + 1;
      }
      return NULL;
    }

    // Walk the list to the first node at a location.
    method FindHelper(location: uint16) returns (x: int)
      requires Valid()
      ensures x == At(nodes, IndexOf(List(), location))
    {
      x := head;
      ghost var k := 0;
      while x != NULL
        invariant 0 <= k <= |nodes| && x == At(nodes, k)
        invariant IndexOf(List(), location) >= k
        decreases |nodes| - k
      {
        assert List()[k] == slots[x].entry;
        if slots[x].entry.location == location {
          return;
        }
        assert Linked(slots[..], nodes, k);
        x := slots[x].next;
        k := k + 1;
      }
    }

    // Add a blinking character, on at first, at the front of the list.  At
    // location 0 its slot would still count as free, and the list is lost.
    method Add(e: Entry) returns (r: int)
      requires Valid()
      modifies this, slots, video
      ensures r == -1 <==> e.location >= SCREEN_CELLS || |old(List())| == SCREEN_CELLS
      ensures r == -1 ==> unchanged(this) && unchanged(slots) && unchanged(video)
      ensures r != -1 ==> 0 <= head == FreeSlot(old(slots[..])) < SCREEN_CELLS && slots[..] == old(slots[..])[head := Slot(Added(e), old(head))]
      ensures r != -1 ==> video[..] == Poke(old(video[..]), e.location, e.onChar)
      ensures e.location != 0 ==> Valid() && View() == Act(old(View()), Adding(e))
    {
      FullPool(slots[..], head, nodes);
      if e.location >= SCREEN_CELLS {
        return -1;
      }
      var added := e.(status := 1, countdown := e.onLength);
      var i := Malloc();
      if i == NULL {
        return -1;
      }
      if e.location != 0 {
        AddGood(slots[..], head, nodes, i, added);
      }
      slots[i] := Slot(added, head);
      head := i;
      nodes := [i] + nodes;
      video[2 * e.location] := e.onChar;
      return 0;
    }

    // Remove the newest character at a location.
    method Remove(location: uint16) returns (r: int)
      requires Valid()
      modifies this, slots
      ensures Valid()
      ensures View() == Act(old(View()), Removing(location))
      ensures var k := IndexOf(old(List()), location);
              && r == (if k < |old(List())| then 0 else -1)
              && slots[..] == (if r == 0 then Unlinked(old(slots[..]), old(nodes), k) else old(slots[..]))
    {
      var x := FindHelper(location);
      if x == NULL {
        return -1;
      }
      ghost var k := IndexOf(List(), location);
      var prev := FindPrev(x, k);
      RemoveGood(slots[..], head, nodes, k);
      Relink(prev, x, k);
      return 0;
    }

    // The node before x, or NULL when the list's head points to it.
    method FindPrev(x: nat, ghost k: nat) returns (prev: int)
      requires Valid() && k < |nodes| && nodes[k] == x
      ensures prev == if k == 0 then NULL else nodes[k - 1]
    {
      prev := NULL;
      var p := head;
      ghost var j := 0;
      while p != x
        invariant 0 <= j <= k && p == At(nodes, j)
        invariant prev == if j == 0 then NULL else nodes[j - 1]
        decreases k - j
      {
        assert Linked(slots[..], nodes, j);
        prev := p;
        p := slots[prev].next;
        j := j + 1;
      }
    }

    method Relink(prev: int, x: nat, ghost k: nat)
      requires Valid() && k < |nodes| && nodes[k] == x && prev == (if k == 0 then NULL else nodes[k - 1])
      modifies this, slots
      ensures slots[..] == Unlinked(old(slots[..]), old(nodes), k)
      ensures nodes == old(nodes)[..k] + old(nodes)[k + 1..] && head == At(nodes, 0)
    {
      assert Linked(slots[..], nodes, k);
      var after := slots[x].next;
      if prev == NULL {
        head := after;
      } else {
        slots[prev] := slots[prev].(next := after);
      }
      slots[x] := EMPTY;
      nodes := nodes[..k] + nodes[k + 1..];
    }

    method Find(location: uint16) returns (r: Option<Entry>)
      requires Valid()
      ensures var k := IndexOf(List(), location);
              r == if k < |List()| then Some(List()[k]) else None
    {
      var x := FindHelper(location);
      if x == NULL {
        return None;
      }
      return Some(slots[x].entry);
    }

    // One clock tick: walk the list, count down, and flip what is due.
    method Tasklet()
      requires Valid()
      modifies slots, video
      ensures Valid() && View() == Act(old(View()), Ticking)
    {
      TickingIs(View());
      hide Act, TickAll, Entries;
      ghost var es, before := List(), slots[..];
      var x := head;
      ghost var k := 0;
      assert es[0..] == es;
      while x != NULL
        invariant 0 <= k <= |nodes| && x == At(nodes, k)
        invariant TickedTo(before, slots[..], nodes, k)
        invariant OnScreen(es[k..]) && TickVideo(es[k..], video[..]) == TickVideo(es, old(video[..]))
        decreases |nodes| - k
      {
        assert Linked(before, nodes, k) && slots[..][x] == before[x] && es[k] == before[x].entry;
        assert es[k..][0] == es[k] && es[k..][1..] == es[k + 1..];
        ghost var was := slots[..];
        TickNode(x);
        TickedOne(before, was, slots[..], nodes, k);
        x := slots[x].next;
        k := k + 1;
      }
      TickedAll(before, slots[..], head, nodes);
    }

    method TickNode(x: nat)
      requires slots.Length == SCREEN_CELLS && video.Length == 2 * SCREEN_CELLS && x < SCREEN_CELLS
      requires slots[x].entry.location < SCREEN_CELLS
      modifies slots, video
      ensures slots[..] == old(slots[..])[x := old(slots[x]).(entry := Tick(old(slots[x].entry)))]
      ensures var e := old(slots[x].entry);
              video[..] == if StillCounting(e) then old(video[..]) else Poke(old(video[..]), e.location, Shown(Tick(e)))
    {
      var e := slots[x].entry;
      slots[x] := slots[x].(entry := e.(countdown := Decremented(e.countdown)));
      if 0 < slots[x].entry.countdown < HALF {
        return;
      }
      var length;
      if e.status % 2 == 1 {
        video[2 * e.location] := e.offChar;
        length := e.offLength;
      } else {
        video[2 * e.location] := e.onChar;
        length := e.onLength;
      }
      slots[x] := slots[x].(entry := e.(countdown := length, status := Flip(e.status)));
    }

    // Copy the timing of the newest character at one location to the newest
    // at another, and display the latter's "off" character.
    method Sync(source: uint16, destination: uint16) returns (r: int)
      requires Valid()
      modifies slots, video
      ensures Valid() && View() == Act(old(View()), Syncing(source, destination))
      ensures r == if IndexOf(old(List()), source) < |old(List())| && IndexOf(old(List()), destination) < |old(List())| then 0 else -1
    {
      SyncingIs(View(), source, destination);
      hide Act;
      var x := FindHelper(source);
      if x == NULL {
        return -1;
      }
      var y := FindHelper(destination);
      if y == NULL {
        return -1;
      }
      SyncedGood(slots[..], head, nodes, IndexOf(List(), source), IndexOf(List(), destination));
      CopyTiming(x, y);
      return 0;
    }

    method CopyTiming(x: nat, y: nat)
      requires slots.Length == SCREEN_CELLS && video.Length == 2 * SCREEN_CELLS && x < SCREEN_CELLS && y < SCREEN_CELLS
      requires slots[y].entry.location < SCREEN_CELLS
      modifies slots, video
      ensures slots[..] == old(slots[..])[y := old(slots[y]).(entry := Synced(old(slots[x].entry), old(slots[y].entry)))]
      ensures video[..] == Poke(old(video[..]), old(slots[y].entry.location), old(slots[y].entry.offChar))
    {
      var e := slots[x].entry;
      slots[y] := slots[y].(entry := slots[y].entry.(onLength := e.onLength, offLength := e.offLength, countdown := e.countdown, status := e.status));
      video[2 * slots[y].entry.location] := slots[y].entry.offChar;
    }
  }

  lemma {:induction false} SyncedGood(slots: seq<Slot>, head: int, nodes: seq<nat>, i: nat, j: nat)
    requires Good(slots, head, nodes) && i < |nodes| && j < |nodes|
    ensures var e := Synced(slots[nodes[i]].entry, slots[nodes[j]].entry);
            var slots' := slots[nodes[j] := slots[nodes[j]].(entry := e)];
            && Good(slots', head, nodes)
            && Entries(slots', nodes) == Entries(slots, nodes)[j := Synced(Entries(slots, nodes)[i], Entries(slots, nodes)[j])]
  {
    var e := Synced(slots[nodes[i]].entry, slots[nodes[j]].entry);
    SameShape(slots, slots[nodes[j] := slots[nodes[j]].(entry := e)], head, nodes);
  }

  // Same links and locations: the list is as good as before.
  lemma {:induction false} SameShape(before: seq<Slot>, slots: seq<Slot>, head: int, nodes: seq<nat>)
    requires Good(before, head, nodes) && |slots| == |before|
    requires forall x :: 0 <= x < |slots| ==> slots[x].next == before[x].next && slots[x].entry.location == before[x].entry.location
    ensures Good(slots, head, nodes)
  {
    forall i | 0 <= i < |nodes|
      ensures Linked(slots, nodes, i)
    {
      assert Linked(before, nodes, i);
    }
  }

  // The first k nodes have been ticked, the rest not yet.
  ghost predicate TickedTo(before: seq<Slot>, slots: seq<Slot>, nodes: seq<nat>, k: nat) {
    && |slots| == |before| == SCREEN_CELLS && Distinct(nodes)
    && (forall i :: 0 <= i < |nodes| ==> nodes[i] < SCREEN_CELLS)
    && (forall i :: 0 <= i < |nodes| ==>
          slots[nodes[i]] == (if i < k then before[nodes[i]].(entry := Tick(before[nodes[i]].entry)) else before[nodes[i]]))
    && (forall x :: 0 <= x < |slots| ==> slots[x].next == before[x].next && slots[x].entry.location == before[x].entry.location)
  }

  lemma {:induction false} TickedOne(before: seq<Slot>, was: seq<Slot>, slots: seq<Slot>, nodes: seq<nat>, k: nat)
    requires k < |nodes| && TickedTo(before, was, nodes, k)
    requires slots == was[nodes[k] := was[nodes[k]].(entry := Tick(was[nodes[k]].entry))]
    ensures TickedTo(before, slots, nodes, k + 1)
  {
  }

  lemma {:induction false} TickedAll(before: seq<Slot>, slots: seq<Slot>, head: int, nodes: seq<nat>)
    requires Good(before, head, nodes) && TickedTo(before, slots, nodes, |nodes|)
    ensures Good(slots, head, nodes) && Entries(slots, nodes) == TickAll(Entries(before, nodes))
  {
    SameShape(before, slots, head, nodes);
  }
}
