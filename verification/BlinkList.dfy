// Blinking characters as a list, newest first: what adding, removing, finding,
// synchronising and the clock tick do to it and to the screen.
module BlinkList {
  import opened Text

  const SCREEN_CELLS := 2000
  const HALF := 0x8000
  const WORD16 := 0x1_0000

  type uint16 = n: int | 0 <= n < 0x1_0000

  // Status is odd while the "on" character is displayed.
  datatype Entry = Entry(location: uint16, onChar: byte, offChar: byte, onLength: uint16, offLength: uint16,
                         countdown: uint16, status: uint16)

  function Added(e: Entry): Entry {
    e.(status := 1, countdown := e.onLength)
  }

  // The index of the first entry at a location, or the length.
  function IndexOf(es: seq<Entry>, location: uint16): (k: nat)
    ensures k <= |es|
    ensures k < |es| ==> es[k].location == location
    ensures forall i :: 0 <= i < k ==> es[i].location != location
  {
    if es == [] || es[0].location == location then 0 else 1 + IndexOf(es[1..], location)
  }

  function Without(es: seq<Entry>, k: nat): seq<Entry>
    requires k < |es|
  {
    es[..k] + es[k + 1..]
  }

  function Flip(status: uint16): uint16 {
    if status % 2 == 1 then status - 1 else status + 1
  }

  // The countdown is decremented as a 16-bit word and compared as a signed one.
  function Decremented(c: uint16): uint16 {
    (c - 1) % WORD16
  }

  predicate StillCounting(e: Entry) {
    0 < Decremented(e.countdown) < HALF
  }

  // One clock tick for one entry.
  function Tick(e: Entry): Entry {
    if StillCounting(e) then e.(countdown := Decremented(e.countdown))
    else e.(countdown := if e.status % 2 == 1 then e.offLength else e.onLength, status := Flip(e.status))
  }

  function TickAll(es: seq<Entry>): (r: seq<Entry>)
    ensures |r| == |es|
    ensures forall i :: 0 <= i < |es| ==> r[i] == Tick(es[i])
  {
    seq(|es|, i requires 0 <= i < |es| => Tick(es[i]))
  }

  // The character an entry should be showing.
  function Shown(e: Entry): byte {
    if e.status % 2 == 1 then e.onChar else e.offChar
  }

  // Screen memory holds a character and an attribute for every cell.
  function Poke(video: seq<byte>, location: uint16, c: byte): (r: seq<byte>)
    requires 2 * location < |video|
    ensures |r| == |video|
  {
    video[2 * location := c]
  }

  predicate OnScreen(es: seq<Entry>) {
    forall i :: 0 <= i < |es| ==> es[i].location < SCREEN_CELLS
  }

  // A tick pokes the entries that change, newest first.
  function TickVideo(es: seq<Entry>, video: seq<byte>): (r: seq<byte>)
    requires OnScreen(es) && |video| == 2 * SCREEN_CELLS
    ensures |r| == |video|
  {
    if es == [] then video
    else
      var v := if StillCounting(es[0]) then video else Poke(video, es[0].location, Shown(Tick(es[0])));
      TickVideo(es[1..], v)
  }

  // Of several entries at one place the last in the list pokes last.
  lemma {:induction false} LastPokesLast(es: seq<Entry>, x: Entry, video: seq<byte>)
    requires OnScreen(es + [x]) && x.location < SCREEN_CELLS && |video| == 2 * SCREEN_CELLS
    ensures OnScreen(es)
    ensures TickVideo(es + [x], video) ==
            if StillCounting(x) then TickVideo(es, video) else TickVideo(es, video)[2 * x.location := Shown(Tick(x))]
  {
    assert forall i :: 0 <= i < |es| ==> (es + [x])[i] == es[i];
    if es == [] {
      assert ([] + [x])[1..] == [] && [] + [x] == [x];
    } else {
      assert (es + [x])[1..] == es[1..] + [x];
      var v := if StillCounting(es[0]) then video else Poke(video, es[0].location, Shown(Tick(es[0])));
      LastPokesLast(es[1..], x, v);
    }
  }

  // The destination takes over the source's lengths, countdown and phase.
  function Synced(source: Entry, destination: Entry): Entry {
    destination.(onLength := source.onLength, offLength := source.offLength, countdown := source.countdown, status := source.status)
  }

  function TickTimes(e: Entry, n: nat): Entry {
    if n == 0 then e else Tick(TickTimes(e, n - 1))
  }

  // How many ticks a length lasts: one that reads as zero or as negative once
  // it has been decremented is over at the next tick.
  function Lasts(length: uint16): (n: nat)
    ensures n > 0
  {
    if 1 <= length <= 0x8000 then length else 1
  }

  function Period(e: Entry): (p: nat)
    ensures p > 0
  {
    Lasts(e.onLength) + Lasts(e.offLength)
  }

  // Where an entry stands m ticks into its period.
  function Phase(e: Entry, m: nat): Entry
    requires m < Period(e)
  {
    var on := Lasts(e.onLength);
    if m < on then e.(status := 1, countdown := e.onLength - m)
    else e.(status := 0, countdown := e.offLength - (m - on))
  }

  // The closed form: n ticks after it was added, an entry is on exactly when
  // n falls into the first part of its period.
  lemma {:induction false} BlinksPeriodically(e: Entry, n: nat)
    ensures TickTimes(Added(e), n) == Phase(e, n % Period(e))
    decreases n
  {
    PhaseAfter(e, n);
    StepsAreRemainder(n, Period(e));
  }

  // n steps around a period of p.
  function Steps(n: nat, p: nat): (m: nat)
    requires p > 0
    ensures m < p
  {
    if n == 0 then 0
    else
      var m := Steps(n - 1, p);
      if m + 1 < p then m + 1 else 0
  }

  lemma {:induction false} PhaseAfter(e: Entry, n: nat)
    ensures TickTimes(Added(e), n) == Phase(e, Steps(n, Period(e)))
    decreases n
  {
    if n > 0 {
      PhaseAfter(e, n - 1);
      TickPhase(e, Steps(n - 1, Period(e)));
    }
  }

  lemma {:induction false} StepsAreRemainder(n: nat, p: nat)
    requires p > 0
    ensures Steps(n, p) == n % p
  {
    var q := StepsAreRest(n, p);
    RemainderIs(n, p, q, Steps(n, p));
  }

  lemma {:induction false} RemainderIs(n: nat, p: nat, q: nat, m: nat)
    requires m < p && n == q * p + m
    ensures n % p == m
  {
    var k, d := n / p, n % p;
    assert n == k * p + d;
    assert (k - q) * p == k * p - q * p == m - d;
    MultipleIsFar(k - q, p);
  }

  lemma {:induction false} StepsAreRest(n: nat, p: nat) returns (q: nat)
    requires p > 0
    ensures n == q * p + Steps(n, p)
    decreases n
  {
    if n == 0 {
      q := 0;
    } else {
      q := StepsAreRest(n - 1, p);
      if Steps(n, p) == 0 && p > 0 {
        assert (q + 1) * p == q * p + p;
        q := q + 1;
      }
    }
  }

  lemma {:induction false} MultipleIsFar(r: int, p: nat)
    requires p > 0
    ensures r != 0 ==> r * p >= p || r * p + p <= 0
  {
  }

  lemma {:induction false} TickPhase(e: Entry, m: nat)
    requires m < Period(e)
    ensures Tick(Phase(e, m)) == Phase(e, if m + 1 < Period(e) then m + 1 else 0)
  {
  }

  // No other entry shares the location of entry k.
  predicate AloneAt(es: seq<Entry>, k: nat)
    requires k < |es|
  {
    forall i :: 0 <= i < |es| && i != k ==> es[i].location != es[k].location
  }

  // A tick leaves locations without entries alone.
  lemma {:induction false} TickElsewhere(es: seq<Entry>, video: seq<byte>, location: uint16)
    requires OnScreen(es) && |video| == 2 * SCREEN_CELLS && location < SCREEN_CELLS
    requires forall i :: 0 <= i < |es| ==> es[i].location != location
    ensures TickVideo(es, video)[2 * location] == video[2 * location]
  {
    if es != [] {
      var v := if StillCounting(es[0]) then video else Poke(video, es[0].location, Shown(Tick(es[0])));
      TickElsewhere(es[1..], v, location);
    }
  }

  // An entry alone at its location shows the right character after a tick if
  // it did before.
  lemma {:induction false} TickKeepsShown(es: seq<Entry>, video: seq<byte>, k: nat)
    requires OnScreen(es) && |video| == 2 * SCREEN_CELLS && k < |es| && AloneAt(es, k)
    requires video[2 * es[k].location] == Shown(es[k])
    ensures TickVideo(es, video)[2 * es[k].location] == Shown(Tick(es[k]))
  {
    var v := if StillCounting(es[0]) then video else Poke(video, es[0].location, Shown(Tick(es[0])));
    if k == 0 {
      TickElsewhere(es[1..], v, es[0].location);
    } else {
      TickKeepsShown(es[1..], v, k - 1);
    }
  }

  // The list together with the screen it blinks on.
  datatype Board = Board(entries: seq<Entry>, video: seq<byte>)

  predicate OnBoard(b: Board) {
    OnScreen(b.entries) && |b.video| == 2 * SCREEN_CELLS
  }

  datatype Action = Adding(e: Entry) | Removing(location: uint16) | Syncing(source: uint16, destination: uint16) | Ticking

  function Act(b: Board, a: Action): (r: Board)
    requires OnBoard(b)
    ensures OnBoard(r)
  {
    var es := b.entries;
    match a
    case Adding(e) =>
      if e.location >= SCREEN_CELLS || |es| == SCREEN_CELLS then b
      else Board([Added(e)] + es, Poke(b.video, e.location, e.onChar))
    case Removing(location) =>
      var k := IndexOf(es, location);
      if k == |es| then b else Board(Without(es, k), b.video)
    case Syncing(source, destination) =>
      var i, j := IndexOf(es, source), IndexOf(es, destination);
      if i == |es| || j == |es| then b
      else Board(es[j := Synced(es[i], es[j])], Poke(b.video, es[j].location, es[j].offChar))
    case Ticking => Board(TickAll(es), TickVideo(es, b.video))
  }

  lemma {:induction false} TickingIs(b: Board)
    requires OnBoard(b)
    ensures Act(b, Ticking) == Board(TickAll(b.entries), TickVideo(b.entries, b.video))
  {
  }

  lemma {:induction false} SyncingIs(b: Board, source: uint16, destination: uint16)
    requires OnBoard(b)
    ensures var es, i, j := b.entries, IndexOf(b.entries, source), IndexOf(b.entries, destination);
            Act(b, Syncing(source, destination)) ==
            if i == |es| || j == |es| then b
            else Board(es[j := Synced(es[i], es[j])], Poke(b.video, es[j].location, es[j].offChar))
  {
  }

  function Play(b: Board, actions: seq<Action>): (r: Board)
    requires OnBoard(b)
    ensures OnBoard(r)
    decreases |actions|
  {
    if actions == [] then b else Play(Act(b, actions[0]), actions[1..])
  }

  function Ticks(actions: seq<Action>): nat {
    if actions == [] then 0 else (if actions[0].Ticking? then 1 else 0) + Ticks(actions[1..])
  }

  // An action that adds, removes or synchronises nothing at the location.
  predicate Elsewhere(a: Action, location: uint16) {
    match a
    case Adding(e) => e.location != location
    case Removing(l) => l != location
    case Syncing(_, destination) => destination != location
    case Ticking => true
  }

  // Entry k is x, alone at its location, and displayed as it should be.
  ghost predicate Sole(b: Board, k: nat, x: Entry)
    requires OnBoard(b)
  {
    k < |b.entries| && b.entries[k] == x && AloneAt(b.entries, k) && b.video[2 * x.location] == Shown(x)
  }

  lemma {:induction false} SoleIsFound(b: Board, k: nat, x: Entry)
    requires OnBoard(b) && Sole(b, k, x)
    ensures IndexOf(b.entries, x.location) == k
  {
  }

  lemma {:induction false} RemovalKeepsSole(es: seq<Entry>, k: nat, location: uint16) returns (k': nat)
    requires k < |es| && AloneAt(es, k) && location != es[k].location
    ensures var j := IndexOf(es, location);
            var r := if j == |es| then es else Without(es, j);
            k' < |r| && r[k'] == es[k] && AloneAt(r, k')
  {
    k' := if IndexOf(es, location) < k then k - 1 else k;
  }

  lemma {:induction false} ActKeepsSole(b: Board, k: nat, x: Entry, a: Action) returns (k': nat)
    requires OnBoard(b) && Sole(b, k, x) && Elsewhere(a, x.location)
    ensures Sole(Act(b, a), k', if a.Ticking? then Tick(x) else x)
  {
    k' := k;
    match a {
      case Adding(e) =>
        if e.location < SCREEN_CELLS && |b.entries| != SCREEN_CELLS {
          k' := k + 1;
        }
      case Removing(location) =>
        k' := RemovalKeepsSole(b.entries, k, location);
      case Syncing(_, _) =>
      case Ticking => TickKeepsShown(b.entries, b.video, k);
    }
  }

  lemma {:induction false} TickFirst(x: Entry, n: nat)
    ensures TickTimes(Tick(x), n) == TickTimes(x, n + 1)
  {
    if n > 0 {
      TickFirst(x, n - 1);
    }
  }

  lemma {:induction false} PlayKeepsSole(b: Board, k: nat, x: Entry, actions: seq<Action>) returns (k': nat)
    requires OnBoard(b) && Sole(b, k, x) && forall i :: 0 <= i < |actions| ==> Elsewhere(actions[i], x.location)
    ensures Sole(Play(b, actions), k', TickTimes(x, Ticks(actions)))
    decreases |actions|
  {
    if actions == [] {
      k' := k;
    } else {
      hide Act, Tick;
      k' := ActKeepsSole(b, k, x, actions[0]);
      var y := if actions[0].Ticking? then Tick(x) else x;
      TickKeepsLocation(x);
      k' := PlayKeepsSole(Act(b, actions[0]), k', y, actions[1..]);
      TickFirst(x, Ticks(actions[1..]));
    }
  }

  lemma {:induction false} TickKeepsLocation(x: Entry)
    ensures Tick(x).location == x.location
  {
  }

  // Added where nothing blinks yet, an entry stands after any further actions
  // at other locations where its ticks alone put it, and the screen shows the
  // character the closed form says.
  lemma {:induction false} ScreenFollowsPhase(b: Board, e: Entry, actions: seq<Action>)
    requires OnBoard(b) && |b.entries| < SCREEN_CELLS && e.location < SCREEN_CELLS
    requires IndexOf(b.entries, e.location) == |b.entries|
    requires forall i :: 0 <= i < |actions| ==> Elsewhere(actions[i], e.location)
    ensures var w, k, m := Play(Act(b, Adding(e)), actions), IndexOf(Play(Act(b, Adding(e)), actions).entries, e.location),
                           Ticks(actions) % Period(e);
            && k < |w.entries| && w.entries[k] == Phase(e, m)
            && w.video[2 * e.location] == if m < Lasts(e.onLength) then e.onChar else e.offChar
  {
    var x := Added(e);
    var k := PlayKeepsSole(Act(b, Adding(e)), 0, x, actions);
    BlinksPeriodically(e, Ticks(actions));
    SoleIsFound(Play(Act(b, Adding(e)), actions), k, TickTimes(x, Ticks(actions)));
  }

  // Synchronising always displays the "off" character, so what is displayed
  // is right exactly when the source is off or the characters are the same.
  lemma {:induction false} SyncShowsOff(b: Board, source: uint16, destination: uint16)
    requires OnBoard(b) && IndexOf(b.entries, source) < |b.entries| && IndexOf(b.entries, destination) < |b.entries|
    ensures var w, x, j := Act(b, Syncing(source, destination)), b.entries[IndexOf(b.entries, source)], IndexOf(b.entries, destination);
            && w.video == b.video[2 * destination := b.entries[j].offChar] && |w.entries| == |b.entries|
            && (w.video[2 * destination] == Shown(w.entries[j]) <==>
                  x.status % 2 == 0 || b.entries[j].onChar == b.entries[j].offChar)
  {
  }

  // A source that is on leaves the destination showing a blank where it should
  // show its "on" character.
  lemma {:induction false} SyncShowsWrong()
    ensures var es := [Added(Entry(1, 0x61, 0x20, 5, 5, 0, 0)), Added(Entry(2, 0x62, 0x20, 5, 5, 0, 0))];
            var b := Board(es, seq(2 * SCREEN_CELLS, _ => 0x20));
            && OnBoard(b) && var w := Act(b, Syncing(1, 2));
            && |w.entries| == 2 && Shown(w.entries[1]) == 0x62 && w.video[4] == 0x20
  {
    var es := [Added(Entry(1, 0x61, 0x20, 5, 5, 0, 0)), Added(Entry(2, 0x62, 0x20, 5, 5, 0, 0))];
    assert es[1..][0] == es[1];
    assert IndexOf(es, 1) == 0 && IndexOf(es, 2) == 1;
  }

  // No action touches the attributes, or a cell without entries that it is
  // not about.
  lemma {:induction false} OtherCellsStay(b: Board, a: Action, cell: nat)
    requires OnBoard(b) && cell < SCREEN_CELLS
    ensures Act(b, a).video[2 * cell + 1] == b.video[2 * cell + 1]
    ensures Elsewhere(a, cell) && (forall i :: 0 <= i < |b.entries| ==> b.entries[i].location != cell) ==>
              Act(b, a).video[2 * cell] == b.video[2 * cell]
  {
    if a.Ticking? {
      TickKeepsAttributes(b.entries, b.video, cell);
      if forall i :: 0 <= i < |b.entries| ==> b.entries[i].location != cell {
        TickElsewhere(b.entries, b.video, cell);
      }
    }
  }

  lemma {:induction false} TickKeepsAttributes(es: seq<Entry>, video: seq<byte>, cell: nat)
    requires OnScreen(es) && |video| == 2 * SCREEN_CELLS && cell < SCREEN_CELLS
    ensures TickVideo(es, video)[2 * cell + 1] == video[2 * cell + 1]
  {
    if es != [] {
      var v := if StillCounting(es[0]) then video else Poke(video, es[0].location, Shown(Tick(es[0])));
      TickKeepsAttributes(es[1..], v, cell);
    }
  }
}
