// What taking a command line apart means.
module Command {
  import opened Text
  import opened Process

  ghost predicate AllSpaces(s: seq<byte>) {
    forall i :: 0 <= i < |s| ==> s[i] == SPACE
  }

  // The ways to read a command line as blanks, a program's name, blanks and an
  // argument, where the name has no blanks, the argument starts with none, and
  // nothing but blanks separates them.
  ghost predicate Reads(command: seq<byte>, a: seq<byte>, name: seq<byte>, b: seq<byte>, argument: seq<byte>) {
    && command == a + name + b + argument && AllSpaces(a) && AllSpaces(b) && SPACE !in name
    && (argument != [] ==> argument[0] != SPACE && b != [])
    && (name == [] ==> b == [] && argument == [])
  }

  lemma {:induction false} ParseIsReading(command: seq<byte>)
    ensures exists a, b :: Reads(command, a, ProgramOf(command), b, ArgumentOf(command))
  {
    hide Blanks, Find;
    var i := Blanks(command);
    var rest := command[i..];
    var w := Find(rest, SPACE);
    var tail := rest[w..];
    var k := Blanks(tail);
    assert tail != [] ==> tail[0] == rest[w] == SPACE;
    Concatenated(command, i, w, k);
    assert ProgramOf(command) == rest[..w] && ArgumentOf(command) == tail[k..];
    assert Reads(command, command[..i], rest[..w], tail[..k], tail[k..]);
  }

  lemma {:induction false} Concatenated(s: seq<byte>, i: nat, w: nat, k: nat)
    requires i + w + k <= |s|
    ensures s == s[..i] + s[i..][..w] + s[i..][w..][..k] + s[i..][w..][k..]
  {
  }

  // There is no other reading.
  lemma {:induction false} ReadingIsUnique(command: seq<byte>, a: seq<byte>, name: seq<byte>, b: seq<byte>, argument: seq<byte>)
    requires Reads(command, a, name, b, argument)
    ensures name == ProgramOf(command) && argument == ArgumentOf(command)
  {
    var tail := b + argument;
    var rest := name + tail;
    assert command == a + rest;
    assert rest != [] ==> rest[0] != SPACE;
    BlanksAre(a, rest);
    assert command[Blanks(command)..] == rest;
    WordIs(name, tail);
    assert rest[..|name|] == name && rest[|name|..] == tail;
    BlanksAre(b, argument);
    assert tail[|b|..] == argument;
  }

  lemma {:induction false} WordIs(name: seq<byte>, tail: seq<byte>)
    requires SPACE !in name && (tail != [] ==> tail[0] == SPACE)
    ensures Find(name + tail, SPACE) == |name|
  {
    FindUnique(name + tail, SPACE, |name|);
  }

  lemma {:induction false} BlanksAre(a: seq<byte>, s: seq<byte>)
    requires AllSpaces(a) && (s != [] ==> s[0] != SPACE)
    ensures Blanks(a + s) == |a|
  {
    if a == [] {
      assert a + s == s;
    } else {
      assert (a + s)[1..] == a[1..] + s;
      BlanksAre(a[1..], s);
    }
  }
}
