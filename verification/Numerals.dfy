// Numbers as text: itoa, the in-place string reversal it relies on, and the
// number conversions of printf.
module Numerals {
  import opened Text
  import opened FileSystem

  const ZERO: byte := 0x30
  const MINUS: byte := 0x2D

  predicate Radix(radix: int) {
    2 <= radix <= 36
  }

  // 0 to 9, then A to Z.
  function Digit(d: int): byte
    requires 0 <= d < 36
  {
    if d < 10 then 0x30 + d else 0x41 + (d - 10)
  }

  lemma {:induction false} DigitIs(d: int)
    requires 0 <= d < 36
    ensures (Digit(d) as int) as char == "0123456789ABCDEFGHIJKLMNOPQRSTUVWXYZ"[d]
  {
  }

  function Value(c: byte): (d: int)
    ensures -1 <= d < 36
    ensures d >= 0 ==> Digit(d) == c
  {
    if 0x30 <= c < 0x3A then c - 0x30 else if 0x41 <= c < 0x5B then c - 0x41 + 10 else -1
  }

  predicate Digits(s: seq<byte>, radix: int) {
    forall i :: 0 <= i < |s| ==> 0 <= Value(s[i]) < radix
  }

  // The number a string of digits stands for.
  function Eval(s: seq<byte>, radix: int): int {
    if s == [] then 0 else Eval(s[..|s| - 1], radix) * radix + Value(s[|s| - 1])
  }

  function Numeral(v: nat, radix: int): (s: seq<byte>)
    requires Radix(radix)
    ensures |s| >= 1
    decreases v
  {
    if v < radix then [Digit(v)]
    else
      Smaller(v, radix);
      Numeral(v / radix, radix) + [Digit(v % radix)]
  }

  lemma {:induction false} Smaller(v: nat, radix: int)
    requires v > 0 && Radix(radix)
    ensures 0 <= v / radix < v
    ensures v == (v / radix) * radix + v % radix
    ensures v / radix == 0 <==> v < radix
  {
    var q := v / radix;
    assert v == q * radix + v % radix;
    FarFromZero(q, radix);
    if q > 0 {
      TwiceAtMost(q, radix);
    }
  }

  lemma {:induction false} TwiceAtMost(q: nat, radix: int)
    requires Radix(radix)
    ensures q * radix >= 2 * q
  {
  }

  // A numeral has no leading zero, but for the number zero itself.
  predicate Proper(s: seq<byte>, radix: int) {
    s != [] && Digits(s, radix) && (s[0] == ZERO ==> |s| == 1)
  }

  lemma {:induction false} NumeralIsProper(v: nat, radix: int)
    requires Radix(radix)
    ensures Proper(Numeral(v, radix), radix) && Eval(Numeral(v, radix), radix) == v
    ensures Numeral(v, radix)[0] == ZERO ==> v == 0
    decreases v
  {
    if v < radix {
      assert [Digit(v)][..0] == [];
      assert Eval([Digit(v)], radix) == Value(Digit(v));
    } else {
      Smaller(v, radix);
      NumeralIsProper(v / radix, radix);
      var s, d := Numeral(v / radix, radix), Digit(v % radix);
      assert (s + [d])[..|s|] == s && (s + [d])[|s|] == d;
      assert Value(d) == v % radix;
    }
  }

  lemma {:induction false} EvalBounds(s: seq<byte>, radix: int)
    requires Radix(radix) && Proper(s, radix)
    ensures Eval(s, radix) >= 0
    ensures s[0] != ZERO ==> Eval(s, radix) > 0
    ensures |s| > 1 ==> Eval(s, radix) >= radix
    decreases |s|
  {
    var n := |s| - 1;
    if n == 0 {
      assert s[..0] == [];
      assert Eval(s, radix) == 0 * radix + Value(s[0]);
    } else {
      assert s[..n][0] == s[0];
      EvalBounds(s[..n], radix);
      FarFromZero(Eval(s[..n], radix), radix);
    }
  }

  // There is only one proper numeral for a number.
  lemma {:induction false} NumeralIsUnique(s: seq<byte>, radix: int)
    requires Radix(radix) && Proper(s, radix)
    ensures Eval(s, radix) >= 0 && s == Numeral(Eval(s, radix), radix)
    decreases |s|
  {
    var n := |s| - 1;
    EvalBounds(s, radix);
    var v := Eval(s, radix);
    if n == 0 {
      assert s[..0] == [];
      assert v == 0 * radix + Value(s[0]);
      assert s == [s[0]];
    } else {
      assert s[..n][0] == s[0];
      NumeralIsUnique(s[..n], radix);
      QuotientIs(Eval(s[..n], radix), radix, Value(s[n]));
      assert s == s[..n] + [s[n]];
    }
  }

  lemma {:induction false} QuotientIs(q: int, radix: int, d: int)
    requires Radix(radix) && 0 <= d < radix
    ensures (q * radix + d) / radix == q && (q * radix + d) % radix == d
  {
    var v := q * radix + d;
    var k := v / radix;
    assert v == k * radix + v % radix;
    assert (k - q) * radix == d - v % radix;
    Between(k - q, radix, d - v % radix);
  }

  lemma {:induction false} Between(k: int, radix: int, d: int)
    requires Radix(radix) && k * radix == d && -radix < d < radix
    ensures k == 0
  {
  }

  lemma {:induction false} FarFromZero(k: int, radix: int)
    requires Radix(radix)
    ensures k > 0 ==> k * radix >= radix
    ensures k < 0 ==> k * radix <= -radix
  {
  }

  // A 32-bit number has at most 32 digits, and at most 8 in hexadecimal.
  lemma {:induction false} NumeralLength(v: nat, radix: int, n: nat, limit: int)
    requires Radix(radix) && n >= 1 && limit == Power(radix, n) > v
    ensures |Numeral(v, radix)| <= n
    decreases n
  {
    assert Power(radix, n) == radix * Power(radix, n - 1) && Power(radix, 0) == 1;
    if n > 1 && v >= radix {
      Smaller(v, radix);
      DivLess(v, radix, Power(radix, n - 1));
      NumeralLength(v / radix, radix, n - 1, Power(radix, n - 1));
    }
  }

  lemma {:induction false} DivLess(v: nat, radix: int, p: int)
    requires Radix(radix) && v < radix * p
    ensures v / radix < p
  {
  }

  function Power(b: int, n: nat): int {
    if n == 0 then 1 else b * Power(b, n - 1)
  }

  function Reversed(s: seq<byte>): (r: seq<byte>)
    ensures |r| == |s|
    ensures forall i :: 0 <= i < |s| ==> r[i] == s[|s| - 1 - i]
  {
    if s == [] then [] else [s[|s| - 1]] + Reversed(s[..|s| - 1])
  }

  method StrLen(buf: array<byte>, at: nat) returns (len: nat)
    requires at <= buf.Length && NUL in buf[at..]
    ensures len == Find(buf[at..], NUL) && at + len < buf.Length
  {
    len := 0;
    ghost var s := buf[at..];
    while buf[at + len] != NUL
      invariant at + len < buf.Length
      invariant Find(s, NUL) >= len
      decreases buf.Length - len
    {
      assert s[len] == buf[at + len];
      assert s[Find(s, NUL)] == NUL;
      len := len + 1;
    }
    assert s[len] == NUL;
  }

  // Reverse the C string at buf[at..] in place.
  method StrRev(buf: array<byte>, at: nat, ghost n: nat)
    requires at + n < buf.Length && buf[at + n] == NUL && NulFree(buf[at..at + n])
    modifies buf
    ensures buf[at..at + n] == Reversed(old(buf[at..at + n]))
    ensures forall k :: 0 <= k < buf.Length && (k < at || k >= at + n) ==> buf[k] == old(buf[k])
  {
    assert buf[at..][n] == NUL;
    assert forall i :: 0 <= i < n ==> buf[at..][i] == buf[at..at + n][i];
    FindUnique(buf[at..], NUL, n);
    var len := StrLen(buf, at);
    SwapEnds(buf, at, len);
    IsReversed(old(buf[at..at + n]), buf[at..at + n]);
  }

  method SwapEnds(buf: array<byte>, at: nat, n: nat)
    requires at + n <= buf.Length
    modifies buf
    ensures forall k :: at <= k < at + n ==> buf[k] == old(buf[at + n - 1 - (k - at)])
    ensures forall k :: 0 <= k < buf.Length && (k < at || k >= at + n) ==> buf[k] == old(buf[k])
  {
    var beg, end := 0, n - 1;
    while beg < end
      invariant 0 <= beg && beg + end == n - 1 && beg <= end + 2
      invariant forall k :: at <= k < at + n && (k < at + beg || k > at + end) ==> buf[k] == old(buf[at + n - 1 - (k - at)])
      invariant forall k :: 0 <= k < buf.Length && (k < at || k >= at + n || at + beg <= k <= at + end) ==> buf[k] == old(buf[k])
    {
      var tmp := buf[at + end];
      buf[at + end] := buf[at + beg];
      buf[at + beg] := tmp;
      beg := beg + 1;
      end := end - 1;
    }
  }

  lemma {:induction false} IsReversed(s: seq<byte>, r: seq<byte>)
    requires |r| == |s| && forall i :: 0 <= i < |s| ==> r[i] == s[|s| - 1 - i]
    ensures r == Reversed(s)
  {
  }

  // Digits still to be written, most significant first.
  function Rest(v: nat, radix: int): seq<byte>
    requires Radix(radix)
  {
    if v == 0 then [] else Numeral(v, radix)
  }

  lemma {:induction false} RestStep(v: nat, radix: int, low: seq<byte>)
    requires Radix(radix) && v > 0
    ensures 0 <= v / radix < v && |Rest(v, radix)| == |Rest(v / radix, radix)| + 1
    ensures Rest(v / radix, radix) + Reversed(low + [Digit(v % radix)]) == Rest(v, radix) + Reversed(low)
  {
    Smaller(v, radix);
    var d := Digit(v % radix);
    assert (low + [d])[..|low|] == low;
    assert Reversed(low + [d]) == [d] + Reversed(low);
    assert Rest(v, radix) == Rest(v / radix, radix) + [d] by {
      if v < radix {
        assert v % radix == v && v / radix == 0;
      }
    }
    assert Rest(v / radix, radix) + ([d] + Reversed(low)) == Rest(v / radix, radix) + [d] + Reversed(low);
  }

  lemma {:induction false} NoNulDigits(s: seq<byte>, radix: int)
    requires Digits(s, radix)
    ensures NulFree(s)
  {
  }

  // Write the numeral of value at buf[at..], terminated: the digits come out
  // least significant first and are then reversed in place.
  method Itoa(value: uint32, buf: array<byte>, at: nat, radix: int)
    requires Radix(radix) && at + |Numeral(value, radix)| < buf.Length
    modifies buf
    ensures var n := |Numeral(value, radix)|;
            && buf[at..at + n] == Numeral(value, radix) && buf[at + n] == NUL
            && forall k :: 0 <= k < buf.Length && (k < at || k > at + n) ==> buf[k] == old(buf[k])
  {
    hide Numeral, Reversed;
    ghost var s := Numeral(value, radix);
    if value == 0 {
      WriteZero(buf, at, radix);
      return;
    }
    var p := WriteDigits(value, buf, at, radix);
    DigitsNulFree(value, radix);
    Terminate(buf, at, p, Reversed(s));
    StrRev(buf, at, p - at);
  }

  method WriteZero(buf: array<byte>, at: nat, ghost radix: int)
    requires Radix(radix) && at + 1 < buf.Length
    modifies buf
    ensures buf[at..at + 1] == Numeral(0, radix) && |Numeral(0, radix)| == 1 && buf[at + 1] == NUL
    ensures forall k :: 0 <= k < buf.Length && (k < at || k > at + 1) ==> buf[k] == old(buf[k])
  {
    buf[at] := ZERO;
    buf[at + 1] := NUL;
  }

  method Terminate(buf: array<byte>, at: nat, p: nat, ghost low: seq<byte>)
    requires at <= p < buf.Length && buf[at..p] == low
    modifies buf
    ensures buf[at..p] == low && buf[p] == NUL
    ensures forall k :: 0 <= k < buf.Length && k != p ==> buf[k] == old(buf[k])
  {
    buf[p] := NUL;
  }

  lemma {:induction false} DigitsNulFree(v: nat, radix: int)
    requires Radix(radix)
    ensures NulFree(Reversed(Numeral(v, radix))) && Reversed(Reversed(Numeral(v, radix))) == Numeral(v, radix)
  {
    NumeralIsProper(v, radix);
    NoNulDigits(Numeral(v, radix), radix);
    ReversedTwice(Numeral(v, radix));
  }

  // The digits, least significant first.
  method WriteDigits(value: uint32, buf: array<byte>, at: nat, radix: int) returns (p: nat)
    requires Radix(radix) && value > 0 && at + |Numeral(value, radix)| < buf.Length
    modifies buf
    ensures p == at + |Numeral(value, radix)| && buf[at..p] == Reversed(Numeral(value, radix))
    ensures forall k :: 0 <= k < buf.Length && (k < at || k >= p) ==> buf[k] == old(buf[k])
  {
    hide Numeral, Reversed;
    p := at;
    var newval: nat := value;
    ghost var low: seq<byte> := [];
    while newval > 0
      invariant at <= p && p + |Rest(newval, radix)| == at + |Numeral(value, radix)|
      invariant low == buf[at..p] && Rest(newval, radix) + Reversed(low) == Numeral(value, radix)
      invariant forall k :: 0 <= k < buf.Length && (k < at || k >= p) ==> buf[k] == old(buf[k])
      decreases newval
    {
      RestStep(newval, radix, low);
      buf[p] := Digit(newval % radix);
      assert buf[at..p + 1] == buf[at..p] + [buf[p]] == low + [Digit(newval % radix)];
      low := low + [Digit(newval % radix)];
      p := p + 1;
      newval := newval / radix;
    }
    assert Reversed(low) == Numeral(value, radix);
    ReversedTwice(low);
  }

  lemma {:induction false} ReversedTwice(s: seq<byte>)
    ensures Reversed(Reversed(s)) == s
  {
  }

  // The console output of puts: the bytes up to the terminator.
  method Puts(buf: array<byte>, at: nat) returns (out: seq<byte>)
    requires at <= buf.Length && NUL in buf[at..]
    ensures out == CString(buf[at..])
  {
    out := [];
    ghost var s := buf[at..];
    var index := 0;
    while buf[at + index] != NUL
      invariant at + index < buf.Length
      invariant index <= Find(s, NUL) && out == s[..index]
      decreases buf.Length - index
    {
      assert s[index] == buf[at + index];
      out := out + [buf[at + index]];
      index := index + 1;
    }
    assert s[index] == NUL;
  }

  lemma {:induction false} CStringIs(s: seq<byte>, from: nat, n: nat)
    requires from + n < |s| && s[from + n] == NUL && NulFree(s[from..from + n])
    ensures NUL in s[from..] && Find(s[from..], NUL) == n && CString(s[from..]) == s[from..from + n]
  {
  }

  function Zeros(n: nat): (s: seq<byte>)
    ensures |s| == n
    ensures forall i :: 0 <= i < n ==> s[i] == ZERO
  {
    if n == 0 then [] else Zeros(n - 1) + [ZERO]
  }

  lemma {:induction false} LeadingZeros(n: nat, s: seq<byte>, radix: int)
    ensures Eval(Zeros(n) + s, radix) == Eval(s, radix)
    decreases n + |s|
  {
    if s == [] {
      assert Zeros(n) + s == Zeros(n);
      if n > 0 {
        assert Zeros(n)[..n - 1] == Zeros(n - 1);
        LeadingZeros(n - 1, [], radix);
        assert Zeros(n - 1) + [] == Zeros(n - 1);
      }
    } else {
      var k := |s| - 1;
      assert (Zeros(n) + s)[..n + k] == Zeros(n) + s[..k];
      LeadingZeros(n, s[..k], radix);
    }
  }

  // Two strings of as many digits that stand for the same number are equal.
  lemma {:induction false} SameLengthUnique(s: seq<byte>, t: seq<byte>, radix: int)
    requires Radix(radix) && Digits(s, radix) && Digits(t, radix)
    requires |s| == |t| && Eval(s, radix) == Eval(t, radix)
    ensures s == t
    decreases |s|
  {
    if s != [] {
      var n := |s| - 1;
      LastDigit(s, radix);
      LastDigit(t, radix);
      SameLengthUnique(s[..n], t[..n], radix);
      assert s == s[..n] + [s[n]] && t == t[..n] + [t[n]];
    }
  }

  lemma {:induction false} LastDigit(s: seq<byte>, radix: int)
    requires Radix(radix) && Digits(s, radix) && s != []
    ensures Digits(s[..|s| - 1], radix)
    ensures Eval(s[..|s| - 1], radix) == Eval(s, radix) / radix && Value(s[|s| - 1]) == Eval(s, radix) % radix
  {
    QuotientIs(Eval(s[..|s| - 1], radix), radix, Value(s[|s| - 1]));
  }

  function Hexadecimal(value: uint32): (s: seq<byte>)
    ensures |s| == 8
  {
    NumeralFits(value, 16, 8);
    Zeros(8 - |Numeral(value, 16)|) + Numeral(value, 16)
  }

  lemma {:induction false} NumeralFits(value: uint32, radix: int, n: nat)
    requires (radix == 16 && n == 8) || (radix == 10 && n == 10)
    ensures |Numeral(value, radix)| <= n
  {
    PowerStep(radix, 0);
    PowerStep(radix, 2);
    PowerStep(radix, 4);
    PowerStep(radix, 6);
    PowerStep(radix, 8);
    NumeralLength(value, radix, n, Power(radix, n));
  }

  lemma {:induction false} PowerStep(b: int, n: nat)
    ensures Power(b, n + 2) == b * (b * Power(b, n))
  {
  }

  // The hexadecimal form is the only string of eight digits for its number.
  lemma {:induction false} HexadecimalIsExact(value: uint32, s: seq<byte>)
    ensures |s| == 8 && Digits(s, 16) && Eval(s, 16) == value <==> s == Hexadecimal(value)
  {
    var h := Hexadecimal(value);
    NumeralIsProper(value, 16);
    LeadingZeros(8 - |Numeral(value, 16)|, Numeral(value, 16), 16);
    assert Digits(h, 16);
    if |s| == 8 && Digits(s, 16) && Eval(s, 16) == value {
      SameLengthUnique(s, h, 16);
    }
  }

  lemma {:induction false} NumeralNulFree(value: nat, radix: int)
    requires Radix(radix)
    ensures NulFree(Numeral(value, radix))
  {
    NumeralIsProper(value, radix);
    NoNulDigits(Numeral(value, radix), radix);
  }

  // The conversion "%#x": the numeral goes to the ninth byte of the buffer and
  // zeros are put before it, from where they must start to make eight digits.
  method PrintAlternateHex(value: uint32) returns (out: seq<byte>)
    ensures out == Hexadecimal(value)
  {
    var conv := new byte[64];
    ghost var s := Numeral(value, 16);
    NumeralFits(value, 16, 8);
    Itoa(value, conv, 8, 16);
    NumeralNulFree(value, 16);
    CStringIs(conv[..], 8, |s|);
    assert conv[..][8..] == conv[8..];
    var start := StrLen(conv, 8);
    out := PrintPadded(conv, start, s);
  }

  method PrintPadded(conv: array<byte>, start: nat, ghost s: seq<byte>) returns (out: seq<byte>)
    requires start == |s| <= 8 && 8 + |s| < conv.Length && conv[8..8 + |s|] == s && conv[8 + |s|] == NUL && NulFree(s)
    modifies conv
    ensures out == Zeros(8 - |s|) + s
  {
    PadZeros(conv, start, 8);
    PaddedAt(conv[..], start, s);
    CStringIs(conv[..], start, 8);
    assert conv[..][start..] == conv[start..];
    out := Puts(conv, start);
  }

  method PadZeros(buf: array<byte>, from: nat, to: nat)
    requires from <= to <= buf.Length
    modifies buf
    ensures forall k :: from <= k < to ==> buf[k] == ZERO
    ensures forall k :: 0 <= k < buf.Length && (k < from || k >= to) ==> buf[k] == old(buf[k])
  {
    var i := from;
    while i < to
      invariant from <= i <= to
      invariant forall k :: from <= k < i ==> buf[k] == ZERO
      invariant forall k :: 0 <= k < buf.Length && (k < from || k >= i) ==> buf[k] == old(buf[k])
    {
      buf[i] := ZERO;
      i := i + 1;
    }
  }

  lemma {:induction false} PaddedAt(buf: seq<byte>, start: nat, s: seq<byte>)
    requires start == |s| <= 8 && 8 + |s| < |buf| && buf[8..8 + |s|] == s && NulFree(s)
    requires forall k :: start <= k < 8 ==> buf[k] == ZERO
    ensures buf[start..start + 8] == Zeros(8 - |s|) + s && NulFree(buf[start..start + 8])
  {
  }

  // The conversions "%x" and "%u".
  method PrintPlain(value: uint32, radix: int, size: nat) returns (out: seq<byte>)
    requires (radix == 16 && size == 64) || (radix == 10 && size == 36)
    ensures out == Numeral(value, radix)
  {
    var conv := new byte[size];
    NumeralFits(value, radix, if radix == 16 then 8 else 10);
    Itoa(value, conv, 0, radix);
    WholeNumeral(conv[..], value, radix);
    assert conv[..][0..] == conv[0..];
    out := Puts(conv, 0);
  }

  lemma {:induction false} WholeNumeral(buf: seq<byte>, value: uint32, radix: int)
    requires Radix(radix) && |Numeral(value, radix)| < |buf|
    requires buf[0..|Numeral(value, radix)|] == Numeral(value, radix) && buf[|Numeral(value, radix)|] == NUL
    ensures NUL in buf[0..] && CString(buf[0..]) == Numeral(value, radix)
  {
    NumeralIsProper(value, radix);
    NoNulDigits(Numeral(value, radix), radix);
    CStringIs(buf, 0, |Numeral(value, radix)|);
  }

  type int32 = n: int | -0x8000_0000 <= n < 0x8000_0000

  function Decimal(value: int32): seq<byte> {
    if value < 0 then [MINUS] + Numeral(0 - value, 10) else Numeral(value, 10)
  }

  // The number a signed decimal stands for.
  function Signed(s: seq<byte>): int {
    if s != [] && s[0] == MINUS then -Eval(s[1..], 10) else Eval(s, 10)
  }

  lemma {:induction false} DecimalIsExact(value: int32)
    ensures Signed(Decimal(value)) == value
    ensures Decimal(value)[0] == MINUS <==> value < 0
  {
    var n := if value < 0 then 0 - value else value;
    NumeralIsProper(n, 10);
    if value < 0 {
      assert Decimal(value)[1..] == Numeral(n, 10);
    }
  }

  // The conversion "%d".  Negating the least integer wraps round to the same
  // bits, which itoa reads as 2147483648.
  method PrintDecimal(value: int32) returns (out: seq<byte>)
    ensures out == Decimal(value)
  {
    if value >= 0 {
      out := PrintPlain(value, 10, 36);
      return;
    }
    var conv := new byte[36];
    conv[0] := MINUS;
    NumeralFits(0 - value, 10, 10);
    Itoa(0 - value, conv, 1, 10);
    SignedNumeral(conv[..], 0 - value);
    assert conv[..][0..] == conv[0..];
    out := Puts(conv, 0);
  }

  lemma {:induction false} SignedNumeral(buf: seq<byte>, value: uint32)
    requires 1 + |Numeral(value, 10)| < |buf| && buf[0] == MINUS
    requires buf[1..1 + |Numeral(value, 10)|] == Numeral(value, 10) && buf[1 + |Numeral(value, 10)|] == NUL
    ensures NUL in buf[0..] && CString(buf[0..]) == [MINUS] + Numeral(value, 10)
  {
    var s := Numeral(value, 10);
    NumeralIsProper(value, 10);
    NoNulDigits(s, 10);
    assert buf[0..1 + |s|] == [MINUS] + s;
    CStringIs(buf, 0, 1 + |s|);
  }
}
