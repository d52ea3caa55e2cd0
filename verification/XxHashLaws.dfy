/** What the invertible steps of xxHash64 give for the whole hash. */
module XxHashLaws {
  import opened Longs
  import opened XxHash

  // The inverses of the odd primes modulo 2^64.
  const Q1: long := 0x0887_4934_32BA_DB37
  const Q2: long := 0x0BA7_9078_168D_4BAF
  const Q3: long := 0xE9E9_F4C4_1D6D_F849
  const Q5: long := 0xC592_C09F_DFBA_7F0D

  lemma Inverses(x: long)
    ensures Times(Times(x, P1), Q1) == x && Times(Times(x, Q1), P1) == x
    ensures Times(Times(x, P2), Q2) == x && Times(Times(x, Q2), P2) == x
    ensures Times(Times(x, P3), Q3) == x && Times(Times(x, Q3), P3) == x
    ensures Times(Times(x, P5), Q5) == x && Times(Times(x, Q5), P5) == x
  {
    hide Times;
    InverseOf(x, P1, Q1, 0x0545_584C_CD1F_A67A);
    InverseOf(x, P2, Q2, 0x08DD_1DEC_2186_0607);
    InverseOf(x, P3, Q3, 0x1469_0E60_8137_8F7F);
    InverseOf(x, P5, Q5, 0x1EBD_AE61_ED7C_1B77);
  }

  lemma InverseOf(x: long, p: long, q: long, k: int)
    requires p * q == k * MODULUS + 1
    ensures Times(Times(x, p), q) == x && Times(Times(x, q), p) == x
  {
    TimesInverse(x, p, q, k);
    TimesInverse(x, q, p, k);
  }

  // ---- One step ----

  function Unround(v: long): long {
    Times(RotateLeft(Times(v, Q1), 33), Q2)
  }

  lemma RoundBack(k: long)
    ensures Unround(Round(0, k)) == k && Round(0, Unround(k)) == k
  {
    hide Times, RotateLeft;
    forall x: long
      ensures Plus(0, x) == x
    {
    }
    Inverses(k);
    Inverses(RotateLeft(Times(k, P2), 31));
    Inverses(RotateLeft(Times(k, Q1), 33));
    Inverses(Times(k, Q1));
    RotateBack(Times(k, P2), 31);
    RotateBack(Times(k, Q1), 33);
  }

  /** The other operand of a tail step, given one operand and the result. */
  function Unmix(r: long, a: long, rotation: nat, inverse: long, offset: long): long
    requires rotation <= 64
  {
    Xor(RotateLeft(Times(Minus(r, offset), inverse), 64 - rotation), a)
  }

  lemma MixBack(h: long, a: long, rotation: nat, factor: long, inverse: long, offset: long, k: int)
    requires rotation <= 64 && factor * inverse == k * MODULUS + 1
    ensures Unmix(Mix(h, a, rotation, factor, offset), a, rotation, inverse, offset) == h
    ensures Unmix(Mix(h, a, rotation, factor, offset), h, rotation, inverse, offset) == a
  {
    hide Times, RotateLeft, Xor, Plus, Minus;
    XorBack(h, a);
    XorBack(a, h);
    var x := Xor(h, a);
    RotateBack(x, rotation);
    InverseOf(RotateLeft(x, rotation), factor, inverse, k);
    PlusMinus(Times(RotateLeft(x, rotation), factor), offset);
  }

  lemma MixForth(r: long, a: long, rotation: nat, factor: long, inverse: long, offset: long, k: int)
    requires rotation <= 64 && factor * inverse == k * MODULUS + 1
    ensures Mix(Unmix(r, a, rotation, inverse, offset), a, rotation, factor, offset) == r
    ensures Mix(a, Unmix(r, a, rotation, inverse, offset), rotation, factor, offset) == r
  {
    hide Times, RotateLeft, Xor, Plus, Minus;
    PlusMinus(r, offset);
    var y := Times(Minus(r, offset), inverse);
    InverseOf(Minus(r, offset), factor, inverse, k);
    RotateBack(y, 64 - rotation);
    XorBack(RotateLeft(y, 64 - rotation), a);
  }

  function Unmix8(r: long, a: long): long { Unmix(r, a, 27, Q1, P4) }
  function Unmix4(r: long, a: long): long { Unmix(r, a, 23, Q2, P3) }
  function Unmix1(r: long, a: long): long { Unmix(r, a, 11, Q1, 0) }

  lemma StepsBack(h: long, k: long)
    ensures Unmix8(Mix8(h, k), Round(0, k)) == h && Unround(Unmix8(Mix8(h, k), h)) == k
    ensures Unmix4(Mix4(h, k), Times(k, P1)) == h && Times(Unmix4(Mix4(h, k), h), Q1) == k
    ensures Unmix1(Mix1(h, k), Times(k, P5)) == h && Times(Unmix1(Mix1(h, k), h), Q5) == k
    ensures Mix8(Unmix8(h, Round(0, k)), k) == h && Mix8(k, Unround(Unmix8(h, k))) == h
    ensures Mix4(Unmix4(h, Times(k, P1)), k) == h
    ensures Mix1(Unmix1(h, Times(k, P5)), k) == h
  {
    hide Mix, Unmix, Times, Round, Unround;
    RoundBack(k);
    RoundBack(Unmix8(h, k));
    Inverses(k);
    MixBack(h, Round(0, k), 27, P1, Q1, P4, 0x0545_584C_CD1F_A67A);
    MixBack(h, Times(k, P1), 23, P2, Q2, P3, 0x08DD_1DEC_2186_0607);
    MixBack(h, Times(k, P5), 11, P1, Q1, 0, 0x0545_584C_CD1F_A67A);
    MixForth(h, Round(0, k), 27, P1, Q1, P4, 0x0545_584C_CD1F_A67A);
    MixForth(h, k, 27, P1, Q1, P4, 0x0545_584C_CD1F_A67A);
    MixForth(h, Times(k, P1), 23, P2, Q2, P3, 0x08DD_1DEC_2186_0607);
    MixForth(h, Times(k, P5), 11, P1, Q1, 0, 0x0545_584C_CD1F_A67A);
  }

  // ---- The avalanche ----

  lemma XorShiftBack(x: long, n: nat)
    requires 32 <= n
    ensures XorShift(XorShift(x, n), n) == x
  {
    hide Xor, ShiftRight;
    ShiftOfXor(x, ShiftRight(x, n), n);
    ShiftTwice(x, n, n);
    ShiftedOut(x, n + n);
    XorBack(ShiftRight(x, n), x);
    XorBack(x, ShiftRight(x, n));
  }

  function Unshift29(y: long): long {
    Xor(XorShift(y, 29), ShiftRight(y, 58))
  }

  lemma Unshift29Back(x: long)
    ensures Unshift29(XorShift(x, 29)) == x && XorShift(Unshift29(x), 29) == x
  {
    hide Xor, ShiftRight;
    var a, b, c := ShiftRight(x, 29), ShiftRight(x, 58), ShiftRight(x, 87);
    ShiftTwice(x, 29, 29);
    ShiftTwice(x, 29, 58);
    ShiftTwice(x, 58, 29);
    ShiftedOut(x, 87);
    ShiftOfXor(x, a, 29);
    ShiftOfXor(x, a, 58);
    ShiftOfXor(Xor(x, a), b, 29);
    // (x ^ a) ^ (a ^ b) ^ b and (x ^ a ^ b) ^ ((a ^ b) ^ 0)
    XorBack(b, 0);
    XorBack(Xor(a, b), 0);
    XorThree(x, a, b);
  }

  lemma XorThree(x: long, a: long, b: long)
    ensures Xor(Xor(Xor(x, a), Xor(a, b)), b) == x
    ensures Xor(Xor(Xor(x, a), b), Xor(a, b)) == x
  {
    hide Xor;
    XorRegroups(x, a, b);
    XorBack(x, Xor(a, b));
    XorRegroups(Xor(x, a), a, b);
    XorBack(x, a);
    XorBack(Xor(Xor(x, a), a), b);
  }

  lemma XorRegroups(x: long, y: long, z: long)
    ensures Xor(Xor(x, y), z) == Xor(x, Xor(y, z))
  {
    XorAssociates(x, y, z);
  }

  function Unavalanche(h: long): long {
    XorShift(Times(Unshift29(Times(XorShift(h, 32), Q3)), Q2), 33)
  }

  lemma AvalancheBack(h: long)
    ensures Unavalanche(Avalanche(h)) == h && Avalanche(Unavalanche(h)) == h
  {
    hide XorShift, Times, Unshift29;
    var a := XorShift(h, 33);
    var b := XorShift(Times(a, P2), 29);
    XorShiftBack(h, 33);
    Inverses(a);
    Unshift29Back(Times(a, P2));
    Inverses(b);
    XorShiftBack(Times(b, P3), 32);
    var c := Times(XorShift(h, 32), Q3);
    var d := Times(Unshift29(c), Q2);
    XorShiftBack(d, 33);
    Inverses(Unshift29(c));
    Unshift29Back(c);
    Inverses(XorShift(h, 32));
    XorShiftBack(h, 32);
  }

  /** The state before a round, and the word, given the other and the result. */
  function Unfold(r: long): long { RotateLeft(Times(r, Q1), 33) }

  /** A round is a bijection in its state and in its word. */
  lemma FoldBack(acc: long, k: long)
    ensures Minus(Unfold(Round(acc, k)), Times(k, P2)) == acc
    ensures Times(Minus(Unfold(Round(acc, k)), acc), Q2) == k
    ensures Round(Minus(Unfold(acc), Times(k, P2)), k) == acc
    ensures Round(k, Times(Minus(Unfold(acc), k), Q2)) == acc
  {
    hide Times, RotateLeft, Plus, Minus;
    var x, y := Plus(acc, Times(k, P2)), Unfold(acc);
    Inverses(k);
    Inverses(acc);
    Inverses(RotateLeft(x, 31));
    RotateBack(x, 31);
    RotateBack(Times(acc, Q1), 33);
    Inverses(Minus(y, k));
    Sums(acc, Times(k, P2));
    Sums(y, Times(k, P2));
    Sums(y, k);
  }

  lemma Sums(x: long, y: long)
    ensures Minus(Plus(x, y), y) == x && Minus(Plus(x, y), x) == y
    ensures Plus(Minus(x, y), y) == x && Plus(y, Minus(x, y)) == x
  {
    PlusMinus(x, y);
    PlusMinus(y, x);
  }

  /** Merging a lane is a bijection in the hash and in the lane. */
  lemma MergeBack(h: long, v: long)
    ensures
      var x := Times(Minus(MergeRound(h, v), P4), Q1);
      Xor(x, Round(0, v)) == h && Unround(Xor(x, h)) == v
    ensures
      var y := Times(Minus(h, P4), Q1);
      MergeRound(Xor(y, Round(0, v)), v) == h && MergeRound(v, Unround(Xor(y, v))) == h
  {
    hide Times, Xor, Plus, Minus, Round, Unround;
    var w, y := Round(0, v), Times(Minus(h, P4), Q1);
    RoundBack(v);
    RoundBack(Xor(y, v));
    Inverses(Xor(h, w));
    Inverses(Minus(h, P4));
    Sums(Times(Xor(h, w), P1), P4);
    Sums(h, P4);
    XorBack(h, w);
    XorBack(w, h);
    XorBack(y, w);
    XorBack(y, v);
    XorBack(v, Xor(y, v));
  }

  function Lane(v: Lanes, k: nat): long
    requires k < 4
  {
    match k case 0 => v.v1 case 1 => v.v2 case 2 => v.v3 case _ => v.v4
  }

  /** In a stripe word k goes into lane k and nowhere else, and two values of it
      give two values of the lane. */
  lemma StripeSeparates(v: Lanes, s: seq<byte>, t: seq<byte>, k: nat)
    requires |s| == |t| == 32 && k < 4
    ensures Lane(Stripe(v, s), k) == Lane(Stripe(v, t), k) <==> s[8 * k..8 * k + 8] == t[8 * k..8 * k + 8]
  {
    hide Round, FromLittleEndian, ToLittleEndian, Unfold, Minus, Times;
    var x, y := s[8 * k..8 * k + 8], t[8 * k..8 * k + 8];
    LittleEndianBack(x);
    LittleEndianBack(y);
    FoldBack(Lane(v, k), Read64(x));
    FoldBack(Lane(v, k), Read64(y));
  }

  // ---- The tail ----

  function UnmixUnit(r: long, s: seq<byte>): long
    requires |s| == 8 || |s| == 4 || |s| == 1
  {
    if |s| == 8 then Unmix8(r, Round(0, Read64(s)))
    else if |s| == 4 then Unmix4(r, Times(Read32(s), P1))
    else Unmix1(r, Times(s[0], P5))
  }

  function Untail(r: long, s: seq<byte>): long
    decreases |s|
  {
    if s == [] then r else var k := UnitSize(|s|); UnmixUnit(Untail(r, s[k..]), s[..k])
  }

  lemma MixUnitBack(h: long, s: seq<byte>)
    requires |s| == 8 || |s| == 4 || |s| == 1
    ensures UnmixUnit(MixUnit(h, s), s) == h && MixUnit(UnmixUnit(h, s), s) == h
  {
    hide Mix8, Mix4, Mix1, Unmix8, Unmix4, Unmix1, Round, Times, Read64, Read32;
    StepsBack(h, if |s| == 8 then Read64(s) else if |s| == 4 then Read32(s) else s[0]);
  }

  /** A tail permutes the states. */
  lemma {:induction false} TailBack(h: long, s: seq<byte>)
    ensures Untail(Tail(h, s), s) == h && Tail(Untail(h, s), s) == h
    decreases |s|
  {
    hide MixUnit, UnmixUnit;
    if s != [] {
      var k := UnitSize(|s|);
      MixUnitBack(h, s[..k]);
      TailBack(MixUnit(h, s[..k]), s[k..]);
      MixUnitBack(Untail(h, s[k..]), s[..k]);
      TailBack(h, s[k..]);
    }
  }

  /** Two values of a unit give two states. */
  lemma UnitsSeparate(h: long, s: seq<byte>, t: seq<byte>)
    requires |s| == |t| && (|s| == 8 || |s| == 4 || |s| == 1)
    ensures MixUnit(h, s) == MixUnit(h, t) <==> s == t
  {
    hide Mix8, Mix4, Mix1, Unmix8, Unmix4, Unmix1, Round, Unround, Times, FromLittleEndian, ToLittleEndian;
    LittleEndianBack(s);
    LittleEndianBack(t);
    if |s| == 8 {
      StepsBack(h, Read64(s));
      StepsBack(h, Read64(t));
    } else if |s| == 4 {
      StepsBack(h, Read32(s));
      StepsBack(h, Read32(t));
    } else {
      StepsBack(h, s[0]);
      StepsBack(h, t[0]);
      assert s == [s[0]] && t == [t[0]];
    }
  }

  /** The k bytes at p are one unit of a tail of n bytes. */
  predicate Unit(n: nat, p: nat, k: nat) {
    || (k == 8 && p % 8 == 0 && p + 8 <= n)
    || (k == 4 && p == n / 8 * 8 && p + 4 <= n)
    || (k == 1 && n / 4 * 4 <= p < n)
  }

  lemma UnitMoves(n: nat, p: nat, k: nat)
    requires Unit(n, p, k)
    ensures n > 0
    ensures p == 0 ==> k == UnitSize(n)
    ensures p > 0 ==> p >= UnitSize(n) && Unit(n - UnitSize(n), p - UnitSize(n), k)
    ensures k == 8 ==> UnitSize(n) == 8
    ensures p + k <= n
  {
  }

  lemma DropFront(s: seq<byte>, t: seq<byte>, u: nat, p: nat, q: nat)
    requires u <= p <= q <= |s| == |t| && s[..p] == t[..p] && s[q..] == t[q..]
    ensures s[..u] == t[..u]
    ensures s[u..][..p - u] == t[u..][..p - u] && s[u..][q - u..] == t[u..][q - u..]
  {
    assert s[..u] == s[..p][..u] && t[..u] == t[..p][..u];
    assert s[u..][..p - u] == s[..p][u..] && t[u..][..p - u] == t[..p][u..];
    assert s[u..][q - u..] == s[q..] && t[u..][q - u..] == t[q..];
  }

  lemma EqualParts(s: seq<byte>, t: seq<byte>, u: nat)
    requires u <= |s| == |t|
    ensures s == t <==> s[..u] == t[..u] && s[u..] == t[u..]
  {
    assert s == s[..u] + s[u..] && t == t[..u] + t[u..];
  }

  lemma TailUnfolds(h: long, s: seq<byte>)
    requires s != []
    ensures var u := UnitSize(|s|); Tail(h, s) == Tail(MixUnit(h, s[..u]), s[u..])
  {
    hide MixUnit;
  }

  lemma FrontSeparates(h: long, s: seq<byte>, t: seq<byte>, rest: seq<byte>)
    requires |s| == |t| && (|s| == 8 || |s| == 4 || |s| == 1)
    ensures Tail(MixUnit(h, s), rest) == Tail(MixUnit(h, t), rest) <==> s == t
  {
    hide MixUnit, Tail, Untail;
    TailBack(MixUnit(h, s), rest);
    TailBack(MixUnit(h, t), rest);
    UnitsSeparate(h, s, t);
  }

  lemma {:induction false} TailSeparates(h: long, s: seq<byte>, t: seq<byte>, p: nat, k: nat)
    requires |s| == |t| && Unit(|s|, p, k) && p + k <= |s|
    requires s[..p] == t[..p] && s[p + k..] == t[p + k..]
    ensures Tail(h, s) == Tail(h, t) <==> s == t
    decreases |s|
  {
    hide MixUnit, Unit, UnitSize, Tail;
    UnitMoves(|s|, p, k);
    var u := UnitSize(|s|);
    TailUnfolds(h, s);
    TailUnfolds(h, t);
    EqualParts(s, t, u);
    if p == 0 {
      FrontSeparates(h, s[..u], t[..u], s[u..]);
    } else {
      DropFront(s, t, u, p, p + k);
      TailSeparates(MixUnit(h, s[..u]), s[u..], t[u..], p - u, k);
    }
  }

  /** The value of the 8-byte unit at p that makes the tail end in state r. */
  function Steer(h: long, s: seq<byte>, p: nat, r: long): (w: seq<byte>)
    requires Unit(|s|, p, 8)
    ensures |w| == 8
    decreases |s|
  {
    UnitMoves(|s|, p, 8);
    hide Unit, UnitSize;
    if p == 0 then ToLittleEndian(Unround(Unmix8(Untail(r, s[8..]), h)), 8)
    else Steer(Mix8(h, Read64(s[..8])), s[8..], p - 8, r)
  }

  lemma {:induction false} SteerArrives(h: long, s: seq<byte>, p: nat, r: long)
    requires Unit(|s|, p, 8)
    ensures p + 8 <= |s| && Tail(h, s[..p] + Steer(h, s, p, r) + s[p + 8..]) == r
    decreases |s|
  {
    hide Mix8, Unmix8, Unround, ToLittleEndian, FromLittleEndian;
    UnitMoves(|s|, p, 8);
    hide Unit;
    var w := Steer(h, s, p, r);
    var t := s[..p] + w + s[p + 8..];
    assert UnitSize(|t|) == 8;
    if p == 0 {
      assert t[..8] == w && t[8..] == s[8..];
      var end := Untail(r, s[8..]);
      PowersOf64();
      LittleEndianForth(Unround(Unmix8(end, h)), 8);
      StepsBack(end, h);
      TailBack(r, s[8..]);
    } else {
      assert t[..8] == s[..8];
      assert t[8..] == s[8..][..p - 8] + w + s[8..][p..];
      SteerArrives(Mix8(h, Read64(s[..8])), s[8..], p - 8, r);
    }
  }

  // ---- The whole hash ----

  /** The k bytes at p are one unit of the tail of an input of n bytes. */
  predicate TailUnit(n: nat, p: nat, k: nat) {
    TailStart(n) <= p && Unit(n - TailStart(n), p - TailStart(n), k)
  }

  /** The state before the tail depends only on the whole stripes, the length
      and the seed. */
  lemma {:induction false} StripesOnly(v: Lanes, s: seq<byte>, t: seq<byte>)
    requires |s| == |t| && s[..TailStart(|s|)] == t[..TailStart(|s|)]
    ensures Stripes(v, s) == Stripes(v, t)
    decreases |s|
  {
    hide Round, Read64;
    if |s| >= 32 {
      var n := TailStart(|s|);
      assert s[..n][..32] == s[..32] && t[..n][..32] == t[..32];
      assert s[..8] == s[..32][..8] && t[..8] == t[..32][..8];
      assert s[8..16] == s[..32][8..16] && t[8..16] == t[..32][8..16];
      assert s[16..24] == s[..32][16..24] && t[16..24] == t[..32][16..24];
      assert s[24..32] == s[..32][24..32] && t[24..32] == t[..32][24..32];
      assert s[32..][..n - 32] == s[..n][32..] && t[32..][..n - 32] == t[..n][32..];
      StripesOnly(Stripe(v, s), s[32..], t[32..]);
    }
  }

  lemma HeadOnly(d: seq<byte>, e: seq<byte>, seed: long)
    requires |d| == |e| && d[..TailStart(|d|)] == e[..TailStart(|d|)]
    ensures Head(d, seed) == Head(e, seed)
  {
    hide Merged, Seeded, Stripes;
    StripesOnly(Seeded(seed), d, e);
  }

  /** Inputs of one length that differ at most in one unit of the tail collide
      under a seed only when they are equal. */
  lemma OneUnitNeverCollides(d: seq<byte>, e: seq<byte>, seed: long, p: nat, k: nat)
    requires |d| == |e| && TailUnit(|d|, p, k) && p + k <= |d|
    requires d[..p] == e[..p] && d[p + k..] == e[p + k..]
    ensures Hash(d, seed) == Hash(e, seed) <==> d == e
  {
    hide Head, Tail, Avalanche, Unit;
    if Hash(d, seed) == Hash(e, seed) {
      var n := TailStart(|d|);
      DropFront(d, e, n, p, p + k);
      HeadOnly(d, e, seed);
      var h := Head(d, seed);
      var s, t := d[n..], e[n..];
      AvalancheBack(Tail(h, s));
      AvalancheBack(Tail(h, t));
      TailSeparates(h, s, t, p - n, k);
      assert d == d[..n] + s && e == e[..n] + t;
    }
  }

  /** The value of the 8-byte tail unit at p that gives the hash r. */
  function SteerHash(d: seq<byte>, seed: long, p: nat, r: long): (w: seq<byte>)
    requires TailUnit(|d|, p, 8)
    ensures |w| == 8
  {
    hide Unit, TailStart, Head, Unavalanche, Steer;
    var n := TailStart(|d|);
    Steer(Head(d, seed), d[n..], p - n, Unavalanche(r))
  }

  /** An 8-byte tail unit and the hash are in bijection: whatever surrounds the
      unit, each hash is reached by one value of it and by no other. */
  lemma EveryHashReachedOnce(d: seq<byte>, seed: long, p: nat, r: long, w: seq<byte>)
    requires TailUnit(|d|, p, 8) && p + 8 <= |d| && |w| == 8
    ensures Hash(d[..p] + w + d[p + 8..], seed) == r <==> w == SteerHash(d, seed, p, r)
  {
    hide Head, Tail, Avalanche, Unavalanche, Steer, Unit;
    var n := TailStart(|d|);
    var v := SteerHash(d, seed, p, r);
    var e, f := d[..p] + v + d[p + 8..], d[..p] + w + d[p + 8..];
    assert e[..n] == d[..n];
    HeadOnly(d, e, seed);
    assert e[n..] == d[n..][..p - n] + v + d[n..][p - n + 8..];
    SteerArrives(Head(d, seed), d[n..], p - n, Unavalanche(r));
    AvalancheBack(r);
    assert Hash(e, seed) == r;
    assert e[..p] == d[..p] == f[..p] && e[p + 8..] == d[p + 8..] == f[p + 8..];
    assert e[p..p + 8] == v && f[p..p + 8] == w;
    OneUnitNeverCollides(e, f, seed, p, 8);
  }

  /** xxh64 is a bijection from the 8-byte inputs to the 64-bit words. */
  lemma EightBytesBijection(d: seq<byte>, seed: long, r: long)
    requires |d| == 8
    ensures Hash(d, seed) == r <==> d == SteerHash(Zeros8(), seed, 0, r)
  {
    hide Hash, SteerHash;
    var z := Zeros8();
    assert z[..0] + d + z[8..] == d;
    EveryHashReachedOnce(z, seed, 0, r, d);
  }

  function Zeros8(): (z: seq<byte>)
    ensures |z| == 8
  {
    [0, 0, 0, 0, 0, 0, 0, 0]
  }

  /** The seed that gives the hash r on a short input. */
  function SeedOf(d: seq<byte>, r: long): long {
    Minus(Minus(Untail(Unavalanche(r), d[TailStart(|d|)..]), Wrap(|d|)), P5)
  }

  /** Below one stripe the seed and the hash are in bijection, so distinct seeds
      give distinct hashes. */
  lemma ShortInputsSeparateSeeds(d: seq<byte>, seed: long, r: long)
    requires |d| < 32
    ensures Hash(d, seed) == r <==> seed == SeedOf(d, r)
  {
    hide Tail, Untail, Avalanche, Unavalanche, Plus, Minus, Wrap;
    var s, len := d[TailStart(|d|)..], Wrap(|d|);
    AvalancheBack(Tail(Head(d, seed), s));
    AvalancheBack(r);
    TailBack(Head(d, seed), s);
    TailBack(Unavalanche(r), s);
    PlusMinus(Plus(seed, P5), len);
    PlusMinus(seed, P5);
    PlusMinus(Untail(Unavalanche(r), s), len);
    PlusMinus(Minus(Untail(Unavalanche(r), s), len), P5);
  }
}
