// Synchronised characters blink together, and removing undoes adding.
module InStep {
  import opened BlinkList

  // x is the newest entry at the location.
  predicate Newest(b: Board, location: uint16, x: Entry) {
    IndexOf(b.entries, location) < |b.entries| && b.entries[IndexOf(b.entries, location)] == x
  }

  lemma {:induction false} IndexIs(es: seq<Entry>, location: uint16, k: nat)
    requires k < |es| && es[k].location == location && forall i :: 0 <= i < k ==> es[i].location != location
    ensures IndexOf(es, location) == k
  {
  }

  // The same lengths, and as far into them.
  predicate InPhase(x: Entry, y: Entry) {
    x.onLength == y.onLength && x.offLength == y.offLength && x.countdown == y.countdown && x.status == y.status
  }

  lemma {:induction false} RemovalKeepsNewest(es: seq<Entry>, removed: uint16, location: uint16)
    requires removed != location && IndexOf(es, removed) < |es| && IndexOf(es, location) < |es|
    ensures var r := Without(es, IndexOf(es, removed));
            IndexOf(r, location) < |r| && r[IndexOf(r, location)] == es[IndexOf(es, location)]
  {
    var j, k := IndexOf(es, removed), IndexOf(es, location);
    IndexIs(Without(es, j), location, if j < k then k - 1 else k);
  }

  lemma {:induction false} NewestStays(b: Board, a: Action, location: uint16, x: Entry)
    requires OnBoard(b) && Newest(b, location, x) && Elsewhere(a, location)
    ensures Newest(Act(b, a), location, if a.Ticking? then Tick(x) else x)
  {
    var es, k := b.entries, IndexOf(b.entries, location);
    match a {
      case Adding(e) =>
        if e.location < SCREEN_CELLS && |es| != SCREEN_CELLS {
          IndexIs([Added(e)] + es, location, k + 1);
        }
      case Removing(l) =>
        if IndexOf(es, l) < |es| {
          RemovalKeepsNewest(es, l, location);
        }
      case Syncing(_, _) => IndexIs(Act(b, a).entries, location, k);
      case Ticking => IndexIs(TickAll(es), location, k);
    }
  }

  lemma {:induction false} NewestStaysAll(b: Board, actions: seq<Action>, location: uint16, x: Entry)
    requires OnBoard(b) && Newest(b, location, x) && forall i :: 0 <= i < |actions| ==> Elsewhere(actions[i], location)
    ensures Newest(Play(b, actions), location, TickTimes(x, Ticks(actions)))
    decreases |actions|
  {
    if actions != [] {
      NewestStays(b, actions[0], location, x);
      hide Act, Tick;
      NewestStaysAll(Act(b, actions[0]), actions[1..], location, if actions[0].Ticking? then Tick(x) else x);
      TickFirst(x, Ticks(actions[1..]));
    }
  }

  lemma {:induction false} InPhaseForEver(x: Entry, y: Entry, n: nat)
    requires InPhase(x, y)
    ensures InPhase(TickTimes(x, n), TickTimes(y, n))
  {
    if n > 0 {
      InPhaseForEver(x, y, n - 1);
    }
  }

  // After one character has been synchronised with another, and whatever is
  // done at other locations, the two are in phase after any number of ticks;
  // the first goes on as if nothing had happened, and the second keeps its
  // own characters.
  lemma {:induction false} SyncedBlinkTogether(b: Board, source: uint16, destination: uint16, actions: seq<Action>)
    requires OnBoard(b) && IndexOf(b.entries, source) < |b.entries| && IndexOf(b.entries, destination) < |b.entries|
    requires forall i :: 0 <= i < |actions| ==> Elsewhere(actions[i], source) && Elsewhere(actions[i], destination)
    ensures var w := Play(Act(b, Syncing(source, destination)), actions).entries;
            var i, j := IndexOf(w, source), IndexOf(w, destination);
            var x, y := b.entries[IndexOf(b.entries, source)], b.entries[IndexOf(b.entries, destination)];
            && i < |w| && j < |w| && InPhase(w[i], w[j])
            && w[i] == TickTimes(x, Ticks(actions))
            && w[j].onChar == y.onChar && w[j].offChar == y.offChar
  {
    var es := b.entries;
    var x, y := es[IndexOf(es, source)], es[IndexOf(es, destination)];
    var c := Act(b, Syncing(source, destination));
    var z := Synced(x, y);
    IndexIs(c.entries, source, IndexOf(es, source));
    IndexIs(c.entries, destination, IndexOf(es, destination));
    assert Newest(c, source, x) && Newest(c, destination, z) && InPhase(x, z);
    NewestStaysAll(c, actions, source, x);
    NewestStaysAll(c, actions, destination, z);
    InPhaseForEver(x, z, Ticks(actions));
    CharsStay(z, Ticks(actions));
  }

  lemma {:induction false} CharsStay(x: Entry, n: nat)
    ensures TickTimes(x, n).onChar == x.onChar && TickTimes(x, n).offChar == x.offChar
  {
    if n > 0 {
      CharsStay(x, n - 1);
    }
  }

  // Adding a character and removing it again leaves the list as it was, with
  // any older one at that location, and no other entry changed.
  lemma {:induction false} RemoveUndoesAdd(b: Board, e: Entry)
    requires OnBoard(b) && e.location < SCREEN_CELLS && |b.entries| < SCREEN_CELLS
    ensures Act(Act(b, Adding(e)), Removing(e.location)).entries == b.entries
    ensures forall l :: Act(b, Removing(l)).video == b.video
  {
  }

  // Nothing is removed from, or synchronised with, a location without entries.
  lemma {:induction false} NothingThere(b: Board, location: uint16, other: uint16)
    requires OnBoard(b) && forall i :: 0 <= i < |b.entries| ==> b.entries[i].location != location
    ensures Act(b, Removing(location)) == Act(b, Syncing(location, other)) == Act(b, Syncing(other, location)) == b
  {
  }
}
