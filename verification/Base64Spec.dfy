/** Base64 as a change of digits: bytes are regrouped into sextets and back. */
module Base64Spec {
  import opened Words
  import opened Wrappers
  import opened Text

  type sextet = x: int | 0 <= x < 64

  const PAD: byte := 61
  const NEWLINE: byte := 10

  /** The standard alphabet, and the url-safe one, which differs in the last two. */
  function Symbol(v: sextet, url: bool): (b: byte)
    ensures b != PAD && b != NEWLINE
  {
    if v < 26 then 65 + v
    else if v < 52 then 71 + v
    else if v < 62 then v - 4
    else if v == 62 then if url then 45 else 43
    else if url then 95 else 47
  }

  /** The decoding table: None where it holds -1. */
  function Value(b: byte): Option<sextet> {
    if 65 <= b <= 90 then Some(b - 65)
    else if 97 <= b <= 122 then Some(b - 71)
    else if 48 <= b <= 57 then Some(b + 4)
    else if b == 43 then Some(62)
    else if b == 47 then Some(63)
    else None
  }

  lemma ValueOfSymbol(v: sextet)
    ensures Value(Symbol(v, false)) == Some(v)
  {
  }

  lemma ValueIsSymbol(b: byte)
    ensures Value(b).Some? ==> Symbol(Value(b).value, false) == b
    ensures Value(PAD).None? && Value(NEWLINE).None?
  {
  }

  /** Tables 1 and 2 of RFC 4648. */
  function Letter(v: sextet, url: bool): char {
    match v
    case 0 => 'A' case 1 => 'B' case 2 => 'C' case 3 => 'D' case 4 => 'E' case 5 => 'F' case 6 => 'G' case 7 => 'H'
    case 8 => 'I' case 9 => 'J' case 10 => 'K' case 11 => 'L' case 12 => 'M' case 13 => 'N' case 14 => 'O' case 15 => 'P'
    case 16 => 'Q' case 17 => 'R' case 18 => 'S' case 19 => 'T' case 20 => 'U' case 21 => 'V' case 22 => 'W' case 23 => 'X'
    case 24 => 'Y' case 25 => 'Z' case 26 => 'a' case 27 => 'b' case 28 => 'c' case 29 => 'd' case 30 => 'e' case 31 => 'f'
    case 32 => 'g' case 33 => 'h' case 34 => 'i' case 35 => 'j' case 36 => 'k' case 37 => 'l' case 38 => 'm' case 39 => 'n'
    case 40 => 'o' case 41 => 'p' case 42 => 'q' case 43 => 'r' case 44 => 's' case 45 => 't' case 46 => 'u' case 47 => 'v'
    case 48 => 'w' case 49 => 'x' case 50 => 'y' case 51 => 'z' case 52 => '0' case 53 => '1' case 54 => '2' case 55 => '3'
    case 56 => '4' case 57 => '5' case 58 => '6' case 59 => '7' case 60 => '8' case 61 => '9'
    case 62 => (if url then '-' else '+') case _ => (if url then '_' else '/')
  }

  lemma SymbolsAreTheAlphabet(v: sextet, url: bool)
    ensures Symbol(v, url) == Letter(v, url) as int
  {
  }

  // ----- digits -----

  function First(a: sextet, b: sextet): byte { a * 4 + b / 16 }
  function Second(b: sextet, c: sextet): byte { b % 16 * 16 + c / 4 }
  function Third(c: sextet, d: sextet): byte { c % 4 * 64 + d }

  /** The bytes of a sequence of sextets; an incomplete last byte is dropped. */
  function Bytes(v: seq<sextet>): seq<byte> {
    if |v| < 2 then []
    else if |v| == 2 then [First(v[0], v[1])]
    else if |v| == 3 then [First(v[0], v[1]), Second(v[1], v[2])]
    else [First(v[0], v[1]), Second(v[1], v[2]), Third(v[2], v[3])] + Bytes(v[4..])
  }

  /** The byte, if any, that one more sextet completes. */
  function Completed(v: seq<sextet>, x: sextet): seq<byte> {
    var n := |v|;
    match n % 4
    case 0 => []
    case 1 => [First(v[n - 1], x)]
    case 2 => [Second(v[n - 1], x)]
    case _ => [Third(v[n - 1], x)]
  }

  lemma {:induction false} BytesGrow(v: seq<sextet>, x: sextet)
    ensures Bytes(v + [x]) == Bytes(v) + Completed(v, x)
  {
    hide First, Second, Third;
    if |v| >= 4 {
      assert (v + [x])[4..] == v[4..] + [x];
      BytesGrow(v[4..], x);
      assert |v| > 4 ==> v[4..][|v| - 5] == v[|v| - 1];
    }
  }

  function Digit0(a: byte): sextet { a / 4 }
  function Digit1(a: byte, b: byte): sextet { a % 4 * 16 + b / 16 }
  function Digit2(b: byte, c: byte): sextet { b % 16 * 4 + c / 64 }
  function Digit3(c: byte): sextet { c % 64 }

  function Sextets(data: seq<byte>): seq<sextet> {
    if data == [] then []
    else if |data| == 1 then [Digit0(data[0]), Digit1(data[0], 0)]
    else if |data| == 2 then [Digit0(data[0]), Digit1(data[0], data[1]), Digit2(data[1], 0)]
    else
      [Digit0(data[0]), Digit1(data[0], data[1]), Digit2(data[1], data[2]), Digit3(data[2])] + Sextets(data[3..])
  }

  lemma Quantum(a: byte, b: byte, c: byte)
    ensures First(Digit0(a), Digit1(a, b)) == a
    ensures Second(Digit1(a, b), Digit2(b, c)) == b
    ensures Third(Digit2(b, c), Digit3(c)) == c
  {
  }

  /** Regrouping into sextets loses nothing. */
  lemma {:induction false} BytesOfSextets(data: seq<byte>)
    ensures Bytes(Sextets(data)) == data
  {
    hide First, Second, Third, Digit0, Digit1, Digit2, Digit3;
    if |data| == 1 {
      Quantum(data[0], 0, 0);
    } else if |data| == 2 {
      Quantum(data[0], data[1], 0);
    } else if |data| >= 3 {
      Quantum(data[0], data[1], data[2]);
      BytesOfSextets(data[3..]);
      assert Sextets(data)[4..] == Sextets(data[3..]);
    }
  }

  // ----- text -----

  function Symbols(v: seq<sextet>, url: bool): (s: seq<byte>)
    ensures |s| == |v| && forall i :: 0 <= i < |v| ==> s[i] == Symbol(v[i], url)
  {
    seq(|v|, i requires 0 <= i < |v| => Symbol(v[i], url))
  }

  function Pads(n: nat): (s: seq<byte>)
    ensures |s| == n && forall i :: 0 <= i < n ==> s[i] == PAD
  {
    seq(n, _ => PAD)
  }

  function PadCount(len: nat): (n: nat)
    ensures n <= 2
  {
    match len % 3 case 0 => 0 case 1 => 2 case _ => 1
  }

  /** Padded Base64 text of data. */
  function Encoded(data: seq<byte>, url: bool): seq<byte> {
    Symbols(Sextets(data), url) + Pads(PadCount(|data|))
  }

  lemma {:induction false} SextetCount(data: seq<byte>)
    ensures |Sextets(data)| + PadCount(|data|) == (|data| + 2) / 3 * 4
  {
    hide Digit0, Digit1, Digit2, Digit3;
    if |data| >= 3 {
      SextetCount(data[3..]);
      assert |data| % 3 == (|data| - 3) % 3;
    }
  }

  /** The values of the alphabet characters of s, in order. */
  function Values(s: seq<byte>): seq<sextet> {
    if s == [] then []
    else (if Value(s[0]).Some? then [Value(s[0]).value] else []) + Values(s[1..])
  }

  lemma {:induction false} ValuesAppend(s: seq<byte>, t: seq<byte>)
    ensures Values(s + t) == Values(s) + Values(t)
  {
    hide Value;
    if s == [] {
      assert s + t == t;
    } else {
      assert (s + t)[1..] == s[1..] + t;
      ValuesAppend(s[1..], t);
    }
  }

  lemma {:induction false} ValuesOfSymbols(v: seq<sextet>)
    ensures Values(Symbols(v, false)) == v
  {
    if v != [] {
      hide Value, Symbol;
      ValueOfSymbol(v[0]);
      assert Symbols(v, false)[1..] == Symbols(v[1..], false);
      ValuesOfSymbols(v[1..]);
    }
  }

  /** The part of s before its first padding character. */
  function BeforePad(s: seq<byte>): seq<byte> {
    if s == [] || s[0] == PAD then [] else [s[0]] + BeforePad(s[1..])
  }

  /** Lenient decoding: characters outside the alphabet are skipped and the
      first padding character ends the text. */
  function Lenient(s: seq<byte>): seq<byte> {
    Bytes(Values(BeforePad(s)))
  }

  /** How many characters come before the first one outside the alphabet. */
  function Leading(s: seq<byte>): (n: nat)
    ensures n <= |s| && (forall i :: 0 <= i < n ==> Value(s[i]).Some?) && (n < |s| ==> Value(s[n]).None?)
  {
    if s == [] || Value(s[0]).None? then 0 else 1 + Leading(s[1..])
  }

  lemma {:induction false} LeadingIs(s: seq<byte>, n: nat)
    requires n <= |s| && (forall i :: 0 <= i < n ==> Value(s[i]).Some?) && (n < |s| ==> s[n] == PAD)
    ensures Leading(s) == n
  {
    hide Value;
    ValueIsSymbol(PAD);
    if n > 0 { LeadingIs(s[1..], n - 1); }
  }

  /** Strict text: alphabet characters, then at most two padding characters,
      in whole groups of four. */
  predicate IsStrict(s: seq<byte>) {
    && |s| % 4 == 0 && |s| <= Leading(s) + 2
    && forall i :: Leading(s) <= i < |s| ==> s[i] == PAD
  }

  function Strict(s: seq<byte>): Option<seq<byte>> {
    if IsStrict(s) then Some(Bytes(Values(s[..Leading(s)]))) else None
  }

  lemma {:induction false} BeforePadOfStrict(s: seq<byte>, n: nat)
    requires n <= |s|
    requires forall i :: 0 <= i < n ==> Value(s[i]).Some?
    requires forall i :: n <= i < |s| ==> s[i] == PAD
    ensures BeforePad(s) == s[..n]
  {
    hide Value;
    ValueIsSymbol(PAD);
    if n > 0 {
      BeforePadOfStrict(s[1..], n - 1);
      assert s[..n] == [s[0]] + s[1..][..n - 1];
    }
  }

  /** What strict decoding accepts, lenient decoding reads alike. */
  lemma StrictIsLenient(s: seq<byte>)
    requires Strict(s).Some?
    ensures Strict(s) == Some(Lenient(s))
  {
    BeforePadOfStrict(s, Leading(s));
  }

  /** Strict decoding undoes padded encoding. */
  lemma StrictDecodesEncoded(data: seq<byte>)
    ensures Strict(Encoded(data, false)) == Some(data)
  {
    hide Value, Symbol, Sextets, Bytes, Values, Leading, PadCount;
    var v := Sextets(data);
    var s := Encoded(data, false);
    assert s[..|v|] == Symbols(v, false);
    ValuesOfSymbols(v);
    SextetCount(data);
    BytesOfSextets(data);
    forall i | 0 <= i < |v| ensures Value(s[i]).Some? { ValueOfSymbol(v[i]); }
    LeadingIs(s, |v|);
  }

  // ----- against RFC 4648 -----

  /** Section 4: 24 bits of input are four digits of six bits each. */
  lemma GroupIsNumber(a: byte, b: byte, c: byte)
    ensures 0x4_0000 * Digit0(a) + 0x1000 * Digit1(a, b) + 0x40 * Digit2(b, c) + Digit3(c) == 0x1_0000 * a + 0x100 * b + c
  {
  }

  /** Two of the examples of section 10. */
  lemma Vectors()
    ensures Encoded(Ascii("f"), false) == Ascii("Zg==")
    ensures Encoded(Ascii("foobar"), false) == Ascii("Zm9vYmFy")
  {
    var f, foobar := Ascii("f"), Ascii("foobar");
    assert f == [102] && Sextets(f) == [25, 32];
    assert foobar == [102, 111, 111, 98, 97, 114];
    assert foobar[3..] == [98, 97, 114] && [98, 97, 114][3..] == [];
    assert Sextets([98, 97, 114]) == [24, 38, 5, 50] + [];
    assert Sextets(foobar) == [25, 38, 61, 47, 24, 38, 5, 50];
  }
}
