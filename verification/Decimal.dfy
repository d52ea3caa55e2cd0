/** Decimal numerals as Rust formats and parses them. */
module Decimal {
  import opened Words
  import opened Wrappers

  function Digits(n: nat): (s: seq<byte>)
    ensures |s| >= 1 && AllDigits(s)
  {
    if n < 10 then [48 + n] else Digits(n / 10) + [48 + n % 10]
  }

  predicate AllDigits(s: seq<byte>) {
    forall i :: 0 <= i < |s| ==> 48 <= s[i] <= 57
  }

  function Value(s: seq<byte>): nat
    requires AllDigits(s)
  {
    if s == [] then 0 else 10 * Value(s[..|s| - 1]) + (s[|s| - 1] - 48)
  }

  /** str::parse for an unsigned type: an optional plus sign, then at least one
      digit and nothing else, and a value in range. */
  function ParseUnsigned(s: seq<byte>, max: nat): Option<nat> {
    var d := if s != [] && s[0] == 43 then s[1..] else s;
    if d != [] && AllDigits(d) && Value(d) <= max then Some(Value(d)) else None
  }

  lemma {:induction false} ValueOfDigits(n: nat)
    ensures Value(Digits(n)) == n
  {
    if n >= 10 {
      ValueOfDigits(n / 10);
      assert Digits(n)[..|Digits(n)| - 1] == Digits(n / 10);
    }
  }

  lemma ParseDigits(n: nat, max: nat)
    requires n <= max
    ensures ParseUnsigned(Digits(n), max) == Some(n)
  {
    ValueOfDigits(n);
  }

  /** The canonical numeral is the shortest. */
  lemma {:induction false} DigitsShortest(s: seq<byte>)
    requires s != [] && AllDigits(s)
    ensures |Digits(Value(s))| <= |s|
  {
    if |s| > 1 && Value(s) >= 10 {
      DigitsShortest(s[..|s| - 1]);
      assert Value(s) / 10 == Value(s[..|s| - 1]);
    }
  }

  lemma ParsedIsNoShorter(s: seq<byte>, max: nat)
    requires ParseUnsigned(s, max).Some?
    ensures |s| >= |Digits(ParseUnsigned(s, max).value)|
  {
    DigitsShortest(if s[0] == 43 then s[1..] else s);
  }
}
