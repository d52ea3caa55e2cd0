/** xxHash64 as its specification words it: accumulators by number, words by
    position in the input, and constants in decimal. */
module XxHashReference {
  import opened Longs
  import XxHash

  /** PRIME64_1 to PRIME64_5. */
  function Prime(i: nat): long
    requires 1 <= i <= 5
  {
    match i
    case 1 => 11400714785074694791
    case 2 => 14029467366897019727
    case 3 => 1609587929392839161
    case 4 => 9650029242287828579
    case _ => 2870177450012600261
  }

  /** The bits of x moved up by n places, those that leave coming in below. */
  function Left(x: long, n: nat): int
    requires n <= 64
  {
    PowerPositive(2, 64 - n);
    x * Power(2, n) % MODULUS + x / Power(2, 64 - n)
  }

  lemma LeftIsRotation(x: long, n: nat)
    requires n <= 64
    ensures RotateLeft(x, n) == Left(x, n)
  {
    hide Power;
    var a, b := Power(2, n), Power(2, 64 - n);
    PowerSum(2, n, 64 - n);
    PowersOf64();
    TurnedFits(x, a, b);
    assert x * a == x / b * MODULUS + x % b * a by {
      assert x == x / b * b + x % b;
      assert (x / b * b + x % b) * a == x / b * (a * b) + x % b * a;
    }
    PowerPositive(2, n);
    Product(x % b, a);
    TurnedBound(x / b, x % b, a, b);
    Divides(x * a, MODULUS, x / b, x % b * a);
  }

  function Rotated(x: long, n: nat): long
    requires n <= 64
  {
    LeftIsRotation(x, n);
    Left(x, n)
  }

  /** n bytes from position p on, least significant first. */
  function Number(data: seq<byte>, p: nat, n: nat): nat
    requires p + n <= |data|
    decreases n
  {
    if n == 0 then 0 else data[p] + 256 * Number(data, p + 1, n - 1)
  }

  function Word(data: seq<byte>, p: nat, n: nat): long
    requires p + n <= |data| && n <= 8
  {
    Number(data, p, n) % MODULUS
  }

  function Round(acc: long, word: long): long {
    Times(Rotated(Plus(acc, Times(word, Prime(2))), 31), Prime(1))
  }

  /** Accumulator k after n stripes. */
  function Accumulator(data: seq<byte>, seed: long, k: nat, n: nat): long
    requires k < 4 && 32 * n <= |data|
    decreases n
  {
    if n > 0 then Round(Accumulator(data, seed, k, n - 1), Word(data, 32 * (n - 1) + 8 * k, 8))
    else match k
      case 0 => Plus(Plus(seed, Prime(1)), Prime(2))
      case 1 => Plus(seed, Prime(2))
      case 2 => seed
      case _ => Minus(seed, Prime(1))
  }

  /** How far accumulator k is turned before they are added up. */
  function Turn(k: nat): nat
    requires k < 4
  {
    match k case 0 => 1 case 1 => 7 case 2 => 12 case _ => 18
  }

  function Sum(data: seq<byte>, seed: long, n: nat, k: nat): long
    requires 32 * n <= |data| && k < 4
  {
    var last := Rotated(Accumulator(data, seed, k, n), Turn(k));
    if k == 0 then last else Plus(Sum(data, seed, n, k - 1), last)
  }

  /** The sum with the accumulators below k merged into it. */
  function Converged(data: seq<byte>, seed: long, n: nat, k: nat): long
    requires 32 * n <= |data| && k <= 4
  {
    if k == 0 then Sum(data, seed, n, 3)
    else
      var lane := Round(0, Accumulator(data, seed, k - 1, n));
      Plus(Times(Xor(Converged(data, seed, n, k - 1), lane), Prime(1)), Prime(4))
  }

  /** The bytes after the stripes, from position p on. */
  function Rest(data: seq<byte>, p: nat, acc: long): long
    requires p <= |data|
    decreases |data| - p
  {
    if p + 8 <= |data| then
      var lane := Round(0, Word(data, p, 8));
      Rest(data, p + 8, Plus(Times(Rotated(Xor(acc, lane), 27), Prime(1)), Prime(4)))
    else if p + 4 <= |data| then
      var lane := Times(Word(data, p, 4), Prime(1));
      Rest(data, p + 4, Plus(Times(Rotated(Xor(acc, lane), 23), Prime(2)), Prime(3)))
    else if p < |data| then
      var lane := Times(data[p], Prime(5));
      Rest(data, p + 1, Times(Rotated(Xor(acc, lane), 11), Prime(1)))
    else acc
  }

  function Mixed(x: long, shift: nat): long
    requires shift <= 64
  {
    PowerPositive(2, shift);
    QuotientFits(x, Power(2, shift));
    Xor(x, x / Power(2, shift))
  }

  function Hash(data: seq<byte>, seed: long): long {
    var n := |data| / 32;
    var start := if n > 0 then Converged(data, seed, n, 4) else Plus(seed, Prime(5));
    var acc := Rest(data, 32 * n, Plus(start, |data| % MODULUS));
    Mixed(Times(Mixed(Times(Mixed(acc, 33), Prime(2)), 29), Prime(3)), 32)
  }

  // ----- it is the hash of XxHash -----

  lemma {:induction false} NumberIs(data: seq<byte>, p: nat, n: nat)
    requires p + n <= |data|
    ensures Number(data, p, n) == FromLittleEndian(data[p..p + n])
    decreases n
  {
    if n > 0 {
      NumberIs(data, p + 1, n - 1);
      assert data[p..p + n][1..] == data[p + 1..p + n];
    }
  }

  lemma WordIs(data: seq<byte>, p: nat)
    ensures p + 8 <= |data| ==> Word(data, p, 8) == XxHash.Read64(data[p..p + 8])
    ensures p + 4 <= |data| ==> Word(data, p, 4) == XxHash.Read32(data[p..p + 4])
  {
    PowersOf64();
    hide FromLittleEndian, Number, Power;
    if p + 8 <= |data| { NumberIs(data, p, 8); }
    if p + 4 <= |data| { NumberIs(data, p, 4); }
  }

  lemma RoundIs(acc: long, word: long)
    ensures Round(acc, word) == XxHash.Round(acc, word)
  {
    hide Times, Plus, RotateLeft, Left;
    LeftIsRotation(Plus(acc, Times(word, Prime(2))), 31);
  }

  function Lanes(data: seq<byte>, seed: long, n: nat): XxHash.Lanes
    requires 32 * n <= |data|
  {
    XxHash.Lanes(Accumulator(data, seed, 0, n), Accumulator(data, seed, 1, n),
                 Accumulator(data, seed, 2, n), Accumulator(data, seed, 3, n))
  }

  lemma NextLanes(data: seq<byte>, seed: long, n: nat)
    requires 32 * (n + 1) <= |data|
    ensures Lanes(data, seed, n + 1) == XxHash.Stripe(Lanes(data, seed, n), data[32 * n..])
  {
    hide Round, XxHash.Round, Word, XxHash.Read64;
    var s, p := data[32 * n..], 32 * n;
    assert s[..8] == data[p..p + 8] && s[8..16] == data[p + 8..p + 16];
    assert s[16..24] == data[p + 16..p + 24] && s[24..32] == data[p + 24..p + 32];
    forall k | 0 <= k < 4
      ensures Accumulator(data, seed, k, n + 1) ==
        XxHash.Round(Accumulator(data, seed, k, n), XxHash.Read64(data[p + 8 * k..p + 8 * k + 8]))
    {
      WordIs(data, p + 8 * k);
      RoundIs(Accumulator(data, seed, k, n), Word(data, p + 8 * k, 8));
    }
    hide Accumulator;
  }

  lemma {:induction false} LanesAre(data: seq<byte>, seed: long, n: nat)
    requires 32 * n <= |data|
    ensures XxHash.Stripes(XxHash.Seeded(seed), data) == XxHash.Stripes(Lanes(data, seed, n), data[32 * n..])
    decreases n
  {
    if n == 0 {
      assert data[0..] == data;
    } else {
      hide XxHash.Stripe;
      LanesAre(data, seed, n - 1);
      NextLanes(data, seed, n - 1);
      assert data[32 * (n - 1)..][32..] == data[32 * n..];
      hide Lanes;
    }
  }

  lemma MergedIs(data: seq<byte>, seed: long, n: nat)
    requires 32 * n <= |data|
    ensures Converged(data, seed, n, 4) == XxHash.Merged(Lanes(data, seed, n))
  {
    hide Times, Plus, Xor, RotateLeft, Left, Round, XxHash.Round;
    var v := Lanes(data, seed, n);
    LeftIsRotation(v.v1, 1);
    LeftIsRotation(v.v2, 7);
    LeftIsRotation(v.v3, 12);
    LeftIsRotation(v.v4, 18);
    RoundIs(0, v.v1);
    RoundIs(0, v.v2);
    RoundIs(0, v.v3);
    RoundIs(0, v.v4);
    hide Accumulator;
    assert Sum(data, seed, n, 0) == RotateLeft(v.v1, 1);
    assert Sum(data, seed, n, 1) == Plus(Sum(data, seed, n, 0), RotateLeft(v.v2, 7));
    assert Sum(data, seed, n, 3) == Plus(Plus(Sum(data, seed, n, 1), RotateLeft(v.v3, 12)), RotateLeft(v.v4, 18));
    assert Converged(data, seed, n, 1) == XxHash.MergeRound(Sum(data, seed, n, 3), v.v1);
    assert Converged(data, seed, n, 2) == XxHash.MergeRound(Converged(data, seed, n, 1), v.v2);
    assert Converged(data, seed, n, 3) == XxHash.MergeRound(Converged(data, seed, n, 2), v.v3);
  }

  lemma {:induction false} RestIs(data: seq<byte>, p: nat, acc: long)
    requires p <= |data|
    ensures Rest(data, p, acc) == XxHash.Tail(acc, data[p..])
    decreases |data| - p
  {
    hide Times, Xor, RotateLeft, Left, Round, XxHash.Round, Word, XxHash.Read64, XxHash.Read32;
    WordIs(data, p);
    if p < |data| {
      var k := XxHash.UnitSize(|data| - p);
      XxHash.TailStep(acc, data, p, k);
      var h := XxHash.MixUnit(acc, data[p..p + k]);
      RestIs(data, p + k, h);
      if k == 8 {
        RoundIs(0, Word(data, p, 8));
        LeftIsRotation(Xor(acc, Round(0, Word(data, p, 8))), 27);
      } else if k == 4 {
        LeftIsRotation(Xor(acc, Times(Word(data, p, 4), Prime(1))), 23);
      } else {
        LeftIsRotation(Xor(acc, Times(data[p], Prime(5))), 11);
        XxHash.PlusZero(Times(RotateLeft(Xor(acc, Times(data[p], Prime(5))), 11), Prime(1)));
      }
    }
  }

  /** On every input and seed the code's hash is that of the specification. */
  lemma HashIsReference(data: seq<byte>, seed: long)
    ensures XxHash.Hash(data, seed) == Hash(data, seed)
  {
    var n := |data| / 32;
    assert XxHash.TailStart(|data|) == 32 * n;
    HeadIs(data, seed, n);
    hide Times, Xor, Plus, Rest, XxHash.Tail, Converged, XxHash.Head, Power;
    RestIs(data, 32 * n, XxHash.Head(data, seed));
  }

  lemma HeadIs(data: seq<byte>, seed: long, n: nat)
    requires n == |data| / 32
    ensures XxHash.Head(data, seed) ==
      Plus(if n > 0 then Converged(data, seed, n, 4) else Plus(seed, Prime(5)), |data| % MODULUS)
  {
    hide Plus, Converged, XxHash.Merged, Lanes;
    if n > 0 {
      LanesAre(data, seed, n);
      XxHash.StripesEnd(Lanes(data, seed, n), data[32 * n..]);
      MergedIs(data, seed, n);
    }
  }
}
