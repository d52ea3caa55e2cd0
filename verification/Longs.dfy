/** 64-bit words as bounded integers: Rust's wrapping operators on u64, its
    rotations, shifts and exclusive or, and the inverses that make each of them
    a bijection in its first argument. */
module Longs {
  import Words

  type byte = Words.byte

  const MODULUS: int := 0x1_0000_0000_0000_0000

  type long = x: int | 0 <= x < 0x1_0000_0000_0000_0000

  function Power(b: nat, e: nat): nat {
    if e == 0 then 1 else b * Power(b, e - 1)
  }

  function Wrap(x: int): long { x % MODULUS }

  function Plus(x: long, y: long): long { Wrap(x + y) }
  function Minus(x: long, y: long): long { Wrap(x - y) }
  function Times(x: long, y: long): long { Wrap(x * y) }

  /** Bit by bit, least significant first. */
  function BitXor(x: nat, y: nat): nat
    decreases x + y
  {
    if x == 0 then y
    else if y == 0 then x
    else 2 * BitXor(x / 2, y / 2) + (x + y) % 2
  }

  function Xor(x: long, y: long): long {
    PowersOf64();
    XorFits(x, y, 64);
    BitXor(x, y)
  }

  function ShiftRight(x: long, n: nat): (r: long) {
    PowerPositive(2, n);
    QuotientFits(x, Power(2, n));
    x / Power(2, n)
  }

  /** The high bits of x, then its low ones: the quotient by b moves down and
      the remainder moves up, where a and b are powers of two with a * b = 2^64. */
  function Turned(x: long, a: nat, b: nat): (r: long)
    requires a * b == MODULUS
  {
    TurnedFits(x, a, b);
    var q, m := x / b, x % b;
    m * a + q
  }

  function RotateLeft(x: long, n: nat): long
    requires n <= 64
  {
    hide *;
    PowerSum(2, n, 64 - n);
    PowersOf64();
    Turned(x, Power(2, n), Power(2, 64 - n))
  }

  function FromLittleEndian(s: seq<byte>): (r: nat)
    ensures r < Power(256, |s|)
  {
    if s == [] then 0 else s[0] + 256 * FromLittleEndian(s[1..])
  }

  function ToLittleEndian(x: nat, n: nat): (s: seq<byte>)
    ensures |s| == n
  {
    if n == 0 then [] else [x % 256] + ToLittleEndian(x / 256, n - 1)
  }

  // ---- Powers ----

  lemma {:induction false} PowerPositive(b: nat, e: nat)
    requires b > 0
    ensures Power(b, e) > 0
  {
    if e > 0 {
      PowerPositive(b, e - 1);
      assert b * Power(b, e - 1) > 0;
    }
  }

  lemma {:induction false} PowerSum(b: nat, m: nat, n: nat)
    ensures Power(b, m) * Power(b, n) == Power(b, m + n)
  {
    if m > 0 {
      PowerSum(b, m - 1, n);
      assert b * Power(b, m - 1) * Power(b, n) == b * (Power(b, m - 1) * Power(b, n));
    }
  }

  lemma SmallPowers()
    ensures Power(2, 8) == 256
    ensures Power(256, 2) == 0x1_0000
  {
    assert Power(2, 4) == 16;
  }

  lemma PowersOf64()
    ensures Power(2, 64) == MODULUS == Power(256, 8)
    ensures Power(256, 4) == 0x1_0000_0000
  {
    SmallPowers();
    hide Power;
    PowerSum(2, 8, 8);
    PowerSum(2, 16, 16);
    PowerSum(2, 32, 32);
    PowerSum(256, 2, 2);
    PowerSum(256, 4, 4);
  }

  lemma {:induction false} Product(k: nat, d: nat)
    ensures 0 <= k * d
    ensures k > 0 ==> k * d >= d
    ensures d > 0 ==> k * d >= k
  {
    if k > 0 {
      Product(k - 1, d);
      assert k * d == (k - 1) * d + d;
    }
  }

  lemma SmallMultiple(k: int, d: int)
    requires d > 0 && -d < k * d < d
    ensures k == 0
  {
    var size := if k < 0 then -k else k;
    Product(size, d);
    assert size * d == if k < 0 then -(k * d) else k * d;
  }

  lemma Ordered(k: int, l: int, d: nat)
    ensures k <= l ==> k * d <= l * d
    ensures d > 0 && k * d < l * d ==> k < l
  {
    if k <= l {
      Product(l - k, d);
    } else {
      Product(k - l, d);
    }
    assert l * d - k * d == (l - k) * d;
    assert (l - k) * d == -((k - l) * d);
  }

  /** Division with remainder is unique. */
  lemma Divides(x: int, d: int, q: int, r: int)
    requires 0 <= r < d && x == q * d + r
    ensures x / d == q && x % d == r
  {
    var k := q - x / d;
    calc {
      k * d;
      q * d - x / d * d;
      x - r - x / d * d;
      x % d - r;
    }
    SmallMultiple(k, d);
  }

  lemma QuotientFits(x: nat, d: nat)
    requires d > 0
    ensures 0 <= x / d <= x
  {
    Product(x / d, d);
    assert x == x / d * d + x % d;
  }

  // ---- Sums, products, rotations ----

  lemma PlusMinus(x: long, y: long)
    ensures Minus(Plus(x, y), y) == x && Plus(Minus(x, y), y) == x
  {
    assert Plus(x, y) == if x + y < MODULUS then x + y else x + y - MODULUS;
    assert Minus(x, y) == if x < y then x - y + MODULUS else x - y;
  }

  /** Multiplying by an odd constant is undone by multiplying by its inverse
      modulo 2^64. */
  lemma TimesInverse(x: long, p: long, q: long, k: int)
    requires p * q == k * MODULUS + 1
    ensures Times(Times(x, p), q) == x
  {
    var a, r := x * p / MODULUS, x * p % MODULUS;
    calc {
      r * q;
      (x * p - a * MODULUS) * q;
      x * (p * q) - a * q * MODULUS;
      x * (k * MODULUS + 1) - a * q * MODULUS;
      (x * k - a * q) * MODULUS + x;
    }
    Divides(r * q, MODULUS, x * k - a * q, x);
  }

  lemma TurnedBound(q: nat, m: nat, a: nat, b: nat)
    requires a * b == MODULUS && m < b && q * b + m < MODULUS
    ensures q < a && m * a + q < MODULUS
  {
    assert q * b < a * b;
    Ordered(a, q, b);
    Ordered(m, b - 1, a);
    assert (b - 1) * a == a * b - a;
  }

  lemma TurnedFits(x: long, a: nat, b: nat)
    requires a * b == MODULUS
    ensures b > 0 && 0 <= x % b * a + x / b < MODULUS && x / b < a
  {
    Product(a, b);
    assert b > 0;
    assert x == x / b * b + x % b;
    TurnedBound(x / b, x % b, a, b);
  }

  lemma TurnedBack(x: long, a: nat, b: nat)
    requires a * b == MODULUS
    ensures b * a == MODULUS && Turned(Turned(x, a, b), b, a) == x
  {
    TurnedFits(x, a, b);
    Divides(Turned(x, a, b), a, x % b, x / b);
  }

  lemma RotateBack(x: long, n: nat)
    requires n <= 64
    ensures RotateLeft(RotateLeft(x, n), 64 - n) == x
  {
    hide Turned, Power;
    PowerSum(2, n, 64 - n);
    PowersOf64();
    TurnedBack(x, Power(2, n), Power(2, 64 - n));
  }

  // ---- Exclusive or ----

  lemma XorHalves(x: nat, y: nat)
    ensures BitXor(x, y) / 2 == BitXor(x / 2, y / 2)
    ensures BitXor(x, y) % 2 == (x + y) % 2
  {
  }

  lemma {:induction false} XorFits(x: nat, y: nat, n: nat)
    requires x < Power(2, n) && y < Power(2, n)
    ensures BitXor(x, y) < Power(2, n)
  {
    if n > 0 && x > 0 && y > 0 {
      XorFits(x / 2, y / 2, n - 1);
    }
  }

  lemma SameHalves(x: nat, y: nat, parity: nat)
    requires x / 2 == y / 2 && x % 2 == parity == y % 2
    ensures x == y
  {
  }

  lemma SameParity(a: nat, b: nat, c: nat)
    requires a % 2 == b % 2
    ensures (a + c) % 2 == (b + c) % 2
  {
  }

  lemma XorZero(x: nat)
    ensures BitXor(x, 0) == x == BitXor(0, x)
  {
  }

  lemma {:induction false} XorAssociates(x: nat, y: nat, z: nat)
    ensures BitXor(BitXor(x, y), z) == BitXor(x, BitXor(y, z))
    decreases x + y + z
  {
    hide BitXor;
    XorZero(x);
    XorZero(y);
    XorZero(z);
    XorZero(BitXor(y, z));
    XorZero(BitXor(x, y));
    if x > 0 && y > 0 && z > 0 {
      XorAssociates(x / 2, y / 2, z / 2);
      XorHalves(x, y);
      XorHalves(y, z);
      XorHalves(BitXor(x, y), z);
      XorHalves(x, BitXor(y, z));
      SameParity(BitXor(x, y), x + y, z);
      SameParity(BitXor(y, z), y + z, x);
      SameHalves(BitXor(BitXor(x, y), z), BitXor(x, BitXor(y, z)), (x + y + z) % 2);
    }
  }

  lemma {:induction false} XorSelf(x: nat)
    ensures BitXor(x, x) == 0
  {
    if x > 0 {
      XorSelf(x / 2);
    }
  }

  lemma {:induction false} XorCommutes(x: nat, y: nat)
    ensures BitXor(x, y) == BitXor(y, x)
    decreases x + y
  {
    if x > 0 && y > 0 {
      XorCommutes(x / 2, y / 2);
    }
  }

  lemma XorBack(x: long, y: long)
    ensures Xor(Xor(x, y), y) == x && Xor(y, Xor(x, y)) == x
    ensures Xor(x, y) == Xor(y, x) && Xor(x, 0) == x
  {
    hide BitXor;
    XorAssociates(x, y, y);
    XorSelf(y);
    XorZero(x);
    XorCommutes(x, y);
    XorCommutes(BitXor(x, y), y);
  }

  lemma {:induction false} XorShifts(x: nat, y: nat, n: nat)
    ensures Power(2, n) > 0
    ensures BitXor(x, y) / Power(2, n) == BitXor(x / Power(2, n), y / Power(2, n))
  {
    hide BitXor;
    PowerPositive(2, n);
    if n > 0 {
      var d := Power(2, n - 1);
      XorShifts(x / 2, y / 2, n - 1);
      XorHalves(x, y);
      HalfThenShift(BitXor(x, y), d);
      HalfThenShift(x, d);
      HalfThenShift(y, d);
    }
  }

  lemma HalfThenShift(x: nat, d: nat)
    requires d > 0
    ensures x / (2 * d) == x / 2 / d
  {
    var h := x / 2;
    assert x == h / d * (2 * d) + (h % d * 2 + x % 2) by {
      assert h == h / d * d + h % d;
    }
    Divides(x, 2 * d, h / d, h % d * 2 + x % 2);
  }

  lemma ShiftTwice(x: long, m: nat, n: nat)
    ensures ShiftRight(ShiftRight(x, m), n) == ShiftRight(x, m + n)
    decreases m
  {
    hide BitXor, Xor, Turned, RotateLeft;
    if m > 0 {
      PowerPositive(2, m - 1);
      PowerPositive(2, n);
      PowerPositive(2, m + n - 1);
      HalfThenShift(x, Power(2, m - 1));
      HalfThenShift(x, Power(2, m + n - 1));
      ShiftTwice(x / 2, m - 1, n);
    }
  }

  lemma ShiftedOut(x: long, n: nat)
    requires n >= 64
    ensures ShiftRight(x, n) == 0
  {
    PowersOf64();
    PowerSum(2, 64, n - 64);
    PowerPositive(2, n - 64);
    assert MODULUS * Power(2, n - 64) >= MODULUS;
    Divides(x, Power(2, n), 0, x);
  }

  lemma ShiftOfXor(x: long, y: long, n: nat)
    ensures ShiftRight(Xor(x, y), n) == Xor(ShiftRight(x, n), ShiftRight(y, n))
  {
    XorShifts(x, y, n);
  }

  // ---- Little-endian bytes ----

  lemma {:induction false} LittleEndianBack(s: seq<byte>)
    ensures ToLittleEndian(FromLittleEndian(s), |s|) == s
  {
    if s != [] {
      LittleEndianBack(s[1..]);
      var x, rest := FromLittleEndian(s), FromLittleEndian(s[1..]);
      assert x == 256 * rest + s[0];
      assert x / 256 == rest && x % 256 == s[0];
      assert [s[0]] + s[1..] == s;
    }
  }

  lemma {:induction false} LittleEndianForth(x: nat, n: nat)
    requires x < Power(256, n)
    ensures FromLittleEndian(ToLittleEndian(x, n)) == x
  {
    if n > 0 {
      LittleEndianForth(x / 256, n - 1);
      assert ToLittleEndian(x, n)[1..] == ToLittleEndian(x / 256, n - 1);
    }
  }
}
