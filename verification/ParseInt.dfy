/** The unchecked decimal parser of query results, with wrapping 64-bit
    arithmetic: what it computes on every text, and where it is exact. */
module ParseInt {
  import opened Decimal
  import opened Words
  import opened Wrappers

  const I64_MIN: int := -0x8000_0000_0000_0000
  const I64_MAX: int := 0x7FFF_FFFF_FFFF_FFFF

  type i64 = x: int | -0x8000_0000_0000_0000 <= x <= 0x7FFF_FFFF_FFFF_FFFF

  /** Two's complement: the 64-bit integer congruent to x modulo 2^64. */
  function Wrap(x: int): (r: int)
    ensures InRange(r)
  {
    (x - I64_MIN) % 0x1_0000_0000_0000_0000 + I64_MIN
  }

  predicate InRange(x: int) { I64_MIN <= x <= I64_MAX }

  function Unsigned(s: seq<byte>): (d: seq<byte>)
    ensures |d| <= |s|
  {
    if s != [] && (s[0] == 45 || s[0] == 43) then s[1..] else s
  }

  /** An optional sign and at least one digit. */
  predicate Numeral(s: seq<byte>) {
    Unsigned(s) != [] && AllDigits(Unsigned(s))
  }

  function Meaning(s: seq<byte>): int
    requires Numeral(s)
  {
    var v: int := Value(Unsigned(s));
    if s[0] == 45 then -v else v
  }

  /** The canonical numeral of n. */
  function Canonical(n: int): (s: seq<byte>) {
    if n < 0 then [45] + Digits(-n) else Digits(n)
  }

  lemma NotAllDigits(d: seq<byte>, k: nat)
    requires k < |d| && !(48 <= d[k] <= 57)
    ensures !AllDigits(d)
  {
  }

  method ParseI64Raw(c: seq<byte>, len: int) returns (r: Option<i64>)
    requires len <= |c|
    ensures r.Some? <==> len > 0 && Numeral(c[..len])
    ensures r.Some? ==> r.value == Wrap(Meaning(c[..len]))
  {
    assert Wrap(Value([])) == 0;
    assert AllDigits([]);
    hide Wrap, Value, AllDigits;
    if len <= 0 {
      return None;
    }
    var bytes := c[..len];
    var neg, start;
    if bytes[0] == 45 {
      neg, start := true, 1;
    } else if bytes[0] == 43 {
      neg, start := false, 1;
    } else if 48 <= bytes[0] <= 57 {
      neg, start := false, 0;
    } else {
      NotAllDigits(bytes, 0);
      return None;
    }
    if start >= |bytes| {
      return None;
    }
    ghost var d := Unsigned(bytes);
    assert d == bytes[start..] && d[..0] == [];
    var i: int := 0;
    var k := start;
    while k < |bytes|
      invariant start <= k <= |bytes|
      invariant AllDigits(d[..k - start])
      invariant i == Wrap(Value(d[..k - start]))
    {
      var b := bytes[k];
      assert b == d[k - start];
      if !(48 <= b <= 57) {
        NotAllDigits(d, k - start);
        return None;
      }
      ValueStep(d, k - start);
      WrapStep(Value(d[..k - start]), b - 48);
      i := Wrap(Wrap(i * 10) + (b - 48));
      k := k + 1;
    }
    assert d[..k - start] == d;
    assert bytes[0] == 45 <==> neg;
    WrapNegates(Value(d));
    r := Some(if neg then Wrap(-i) else i);
  }

  lemma ValueStep(d: seq<byte>, k: nat)
    requires k < |d| && AllDigits(d[..k]) && 48 <= d[k] <= 57
    ensures AllDigits(d[..k + 1]) && Value(d[..k + 1]) == Value(d[..k]) * 10 + (d[k] - 48)
  {
    assert d[..k + 1][..k] == d[..k];
  }

  lemma Congruent(x: int, y: int, k: int)
    requires x == y + k * 0x1_0000_0000_0000_0000
    ensures Wrap(x) == Wrap(y)
  {
  }

  lemma Wrapped(x: int) returns (k: int)
    ensures Wrap(x) == x + k * 0x1_0000_0000_0000_0000
  {
    k := -((x - I64_MIN) / 0x1_0000_0000_0000_0000);
  }

  /** Wrapping after each operation or once at the end is the same. */
  lemma WrapStep(v: int, digit: int)
    ensures Wrap(Wrap(Wrap(v) * 10) + digit) == Wrap(v * 10 + digit)
  {
    hide Wrap;
    var k := Wrapped(v);
    var l := Wrapped(Wrap(v) * 10);
    Congruent(Wrap(Wrap(v) * 10) + digit, v * 10 + digit, k * 10 + l);
  }

  lemma WrapNegates(v: int)
    ensures Wrap(-Wrap(v)) == Wrap(-v)
  {
    hide Wrap;
    var k := Wrapped(v);
    Congruent(-Wrap(v), -v, -k);
  }

  /** The parser returns the number written exactly when that number is a
      64-bit integer. */
  lemma ExactExactly(s: seq<byte>)
    requires Numeral(s)
    ensures Wrap(Meaning(s)) == Meaning(s) <==> InRange(Meaning(s))
  {
  }

  lemma CanonicalMeans(n: int)
    ensures Numeral(Canonical(n)) && Meaning(Canonical(n)) == n
  {
    ValueOfDigits(if n < 0 then -n else n);
    assert n < 0 ==> Canonical(n)[1..] == Digits(-n);
  }

  /** The parser undoes the canonical numeral of every 64-bit integer. */
  lemma CanonicalRoundTrip(n: i64)
    ensures Numeral(Canonical(n)) && Wrap(Meaning(Canonical(n))) == n
  {
    CanonicalMeans(n);
    ExactExactly(Canonical(n));
  }

  /** The same accumulation with overflow checks after each operation. */
  function Checked(d: seq<byte>): Option<int>
    requires AllDigits(d)
  {
    if d == [] then Some(0)
    else
      var i := Checked(d[..|d| - 1]);
      var digit := d[|d| - 1] - 48;
      if i.Some? && InRange(i.value * 10) && InRange(i.value * 10 + digit)
      then Some(i.value * 10 + digit)
      else None
  }

  lemma {:induction false} CheckedExactly(d: seq<byte>)
    requires AllDigits(d)
    ensures Checked(d) == if Value(d) <= I64_MAX then Some(Value(d)) else None
  {
    if d != [] {
      CheckedExactly(d[..|d| - 1]);
    }
  }

  /** No operation of the parser leaves the 64-bit range on s. */
  predicate NeverOverflows(s: seq<byte>)
    requires Numeral(s)
  {
    var i := Checked(Unsigned(s));
    i.Some? && (s[0] == 45 ==> InRange(-i.value))
  }

  lemma OverflowsExactly(s: seq<byte>)
    requires Numeral(s)
    ensures NeverOverflows(s) <==> -I64_MAX <= Meaning(s) <= I64_MAX
  {
    CheckedExactly(Unsigned(s));
  }

  /** Among the canonical numerals of 64-bit integers, only the one of the
      smallest overflows on the way; its value is right all the same. */
  lemma OnlyTheMinimumOverflows(n: i64)
    ensures Numeral(Canonical(n))
    ensures NeverOverflows(Canonical(n)) <==> n != I64_MIN
  {
    CanonicalMeans(n);
    OverflowsExactly(Canonical(n));
  }
}
