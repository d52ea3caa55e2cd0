/** The SHA-NI compression of sha256_ni.rs over a model of the 128-bit
    registers: four 32-bit lanes, lane 0 the least significant, and each
    intrinsic with the meaning the Intel SDM, volume 2, gives it. */
module Sha256Ni {
  import opened Words
  import opened Sha256Spec
  import Sha256Tail

  datatype M128 = M128(l0: word, l1: word, l2: word, l3: word)

  function SetEpi64x(hi: nat, lo: nat): M128
    requires hi < 0x1_0000_0000_0000_0000 && lo < 0x1_0000_0000_0000_0000
  {
    M128(lo % 0x1_0000_0000, lo / 0x1_0000_0000, hi % 0x1_0000_0000, hi / 0x1_0000_0000)
  }

  function AddEpi32(a: M128, b: M128): M128 {
    M128(Add(a.l0, b.l0), Add(a.l1, b.l1), Add(a.l2, b.l2), Add(a.l3, b.l3))
  }

  /** The lane a two-bit selector picks. */
  function Lane(a: M128, sel: nat): word {
    match sel % 4 case 0 => a.l0 case 1 => a.l1 case 2 => a.l2 case _ => a.l3
  }

  function ShuffleEpi32(a: M128, imm: byte): M128 {
    M128(Lane(a, imm), Lane(a, imm / 4), Lane(a, imm / 16), Lane(a, imm / 64))
  }

  /** The 32 bytes a:b shifted right; the source shifts by 4 or 8 bytes. */
  function AlignrEpi8(a: M128, b: M128, bytes: nat): M128
    requires bytes == 4 || bytes == 8
  {
    if bytes == 4 then M128(b.l1, b.l2, b.l3, a.l0) else M128(b.l2, b.l3, a.l0, a.l1)
  }

  /** One lane, each 16-bit half taken from y where its selector bit is set. */
  function BlendLane(x: word, y: word, sel: nat): word {
    (if sel % 2 == 0 then x else y) % 0x1_0000
    + (if sel / 2 % 2 == 0 then x else y) / 0x1_0000 * 0x1_0000
  }

  function BlendEpi16(a: M128, b: M128, imm: byte): M128 {
    M128(BlendLane(a.l0, b.l0, imm), BlendLane(a.l1, b.l1, imm / 4),
         BlendLane(a.l2, b.l2, imm / 16), BlendLane(a.l3, b.l3, imm / 64))
  }

  /** Sixteen bytes of memory as a register. */
  function FromBytes(b: seq<byte>): M128
    requires |b| == 16
  {
    M128(LittleEndian(b[0], b[1], b[2], b[3]), LittleEndian(b[4], b[5], b[6], b[7]),
         LittleEndian(b[8], b[9], b[10], b[11]), LittleEndian(b[12], b[13], b[14], b[15]))
  }

  function ByteOf(x: word, i: nat): byte {
    match i case 0 => x % 0x100 case 1 => x / 0x100 % 0x100 case 2 => x / 0x1_0000 % 0x100 case _ => x / 0x100_0000
  }

  function ByteAt(a: M128, i: nat): byte {
    ByteOf(Lane(a, i / 4), i % 4)
  }

  /** Byte i of the result is the byte of a that byte i of the mask names, or
      zero where the mask byte has its top bit set. */
  function ShuffleEpi8(a: M128, m: M128): M128 {
    FromBytes(seq(16, i requires 0 <= i < 16 => if ByteAt(m, i) >= 0x80 then 0 else ByteAt(a, ByteAt(m, i) % 16)))
  }

  /** One step of SHA256RNDS2: a round with the sum K + W already formed. */
  function SdmRound(s: Vars, wk: word): Vars {
    var t1 := Add(Add(Add(Ch(s.e, s.f, s.g), BigSigma1(s.e)), wk), s.h);
    Vars(Add(Add(t1, Maj(s.a, s.b, s.c)), BigSigma0(s.a)), s.a, s.b, s.c, Add(t1, s.d), s.e, s.f, s.g)
  }

  function Sha256Rnds2(cdgh: M128, abef: M128, wk: M128): M128 {
    var s := Vars(abef.l3, abef.l2, cdgh.l3, cdgh.l2, abef.l1, abef.l0, cdgh.l1, cdgh.l0);
    var r := SdmRound(SdmRound(s, wk.l0), wk.l1);
    M128(r.f, r.e, r.b, r.a)
  }

  function Sha256Msg1(a: M128, b: M128): M128 {
    M128(Add(a.l0, SmallSigma0(a.l1)), Add(a.l1, SmallSigma0(a.l2)),
         Add(a.l2, SmallSigma0(a.l3)), Add(a.l3, SmallSigma0(b.l0)))
  }

  function Sha256Msg2(a: M128, b: M128): M128 {
    var w16 := Add(a.l0, SmallSigma1(b.l2));
    var w17 := Add(a.l1, SmallSigma1(b.l3));
    M128(w16, w17, Add(a.l2, SmallSigma1(w16)), Add(a.l3, SmallSigma1(w17)))
  }

  /** The round constants in the order of use, as (high, low) pairs. */
  function KPair(i: nat): (p: (nat, nat))
    requires i < 16
    ensures p.0 < 0x1_0000_0000_0000_0000 && p.1 < 0x1_0000_0000_0000_0000
  {
    match i
    case 0 => (0xE9B5DBA5B5C0FBCF, 0x71374491428A2F98)
    case 1 => (0xAB1C5ED5923F82A4, 0x59F111F13956C25B)
    case 2 => (0x550C7DC3243185BE, 0x12835B01D807AA98)
    case 3 => (0xC19BF1749BDC06A7, 0x80DEB1FE72BE5D74)
    case 4 => (0x240CA1CC0FC19DC6, 0xEFBE4786E49B69C1)
    case 5 => (0x76F988DA5CB0A9DC, 0x4A7484AA2DE92C6F)
    case 6 => (0xBF597FC7B00327C8, 0xA831C66D983E5152)
    case 7 => (0x1429296706CA6351, 0xD5A79147C6E00BF3)
    case 8 => (0x53380D134D2C6DFC, 0x2E1B213827B70A85)
    case 9 => (0x92722C8581C2C92E, 0x766A0ABB650A7354)
    case 10 => (0xC76C51A3C24B8B70, 0xA81A664BA2BFE8A1)
    case 11 => (0x106AA070F40E3585, 0xD6990624D192E819)
    case 12 => (0x34B0BCB52748774C, 0x1E376C0819A4C116)
    case 13 => (0x682E6FF35B9CCA4F, 0x4ED8AA4A391C0CB3)
    case 14 => (0x8CC7020884C87814, 0x78A5636F748F82EE)
    case _ => (0xC67178F2BEF9A3F7, 0xA4506CEB90BEFFFA)
  }

  function KLanes(i: nat): M128
    requires i < 16
  {
    SetEpi64x(KPair(i).0, KPair(i).1)
  }

  // ----- the registers in terms of the standard -----

  function Abef(s: Vars): M128 { M128(s.f, s.e, s.b, s.a) }
  function Cdgh(s: Vars): M128 { M128(s.h, s.g, s.d, s.c) }

  function WordsAt(block: seq<byte>, t: nat): M128
    requires |block| == 64
  {
    M128(W(block, t), W(block, t + 1), W(block, t + 2), W(block, t + 3))
  }

  /** The sixteen 128-bit constants hold the 64 round constants in order. */
  lemma KTable(i: nat)
    requires i < 16
    ensures KLanes(i) == M128(K(4 * i), K(4 * i + 1), K(4 * i + 2), K(4 * i + 3))
  {
    match i
    case 0 => case 1 => case 2 => case 3 => case 4 => case 5 => case 6 => case 7 =>
    case 8 => case 9 => case 10 => case 11 => case 12 => case 13 => case 14 => case _ =>
  }

  /** Reassociation of the sums of one round. */
  lemma RoundSums(h: word, s1: word, ch: word, k: word, w: word, x: word, y: word)
    ensures
      var t1 := Add(Add(Add(Add(h, s1), ch), k), w);
      var t1' := Add(Add(Add(ch, s1), Add(w, k)), h);
      t1 == t1' && Add(Add(t1', x), y) == Add(t1, Add(y, x))
  {
  }

  lemma SdmRoundIsRound(s: Vars, k: word, w: word)
    ensures SdmRound(s, Add(w, k)) == Round(s, k, w)
  {
    hide Add, BigSigma0, BigSigma1, Ch, Maj;
    RoundSums(s.h, BigSigma1(s.e), Ch(s.e, s.f, s.g), k, w, Maj(s.a, s.b, s.c), BigSigma0(s.a));
    AddCommutes(s.d, Add(Add(Add(Add(s.h, BigSigma1(s.e)), Ch(s.e, s.f, s.g)), k), w));
  }

  /** SHA256RNDS2 performs two rounds and returns the new ABEF; the old ABEF is
      the new CDGH. */
  lemma TwoRounds(s: Vars, k0: word, w0: word, k1: word, w1: word, x: word, y: word)
    ensures Sha256Rnds2(Cdgh(s), Abef(s), M128(Add(w0, k0), Add(w1, k1), x, y)) == Abef(Round(Round(s, k0, w0), k1, w1))
    ensures Cdgh(Round(Round(s, k0, w0), k1, w1)) == Abef(s)
  {
    hide Add, BigSigma0, BigSigma1, Ch, Maj, SdmRound;
    SdmRoundIsRound(s, k0, w0);
    SdmRoundIsRound(Round(s, k0, w0), k1, w1);
  }

  /** After n rounds state0 holds ABEF and state1 holds CDGH. */
  ghost predicate At(state0: M128, state1: M128, h: seq<word>, block: seq<byte>, n: nat)
    requires |h| == 8 && |block| == 64 && n <= 64
  {
    var s := Rounds(Load(h), block, n);
    state0 == Abef(s) && state1 == Cdgh(s)
  }

  /** Four rounds: SHA256RNDS2 on each half, the message register's halves
      exchanged in between. */
  lemma FourRounds(h: seq<word>, block: seq<byte>, i: nat, state0: M128, state1: M128)
    requires |h| == 8 && |block| == 64 && i < 16
    ensures
      var msg := AddEpi32(WordsAt(block, 4 * i), KLanes(i));
      var state1' := Sha256Rnds2(state1, state0, msg);
      var state0' := Sha256Rnds2(state0, state1', ShuffleEpi32(msg, 0x0E));
      At(state0, state1, h, block, 4 * i) ==> At(state0', state1', h, block, 4 * i + 4)
  {
    hide Round, Add, W, K, KLanes, Sha256Rnds2, Load;
    var n := 4 * i;
    var s0 := Rounds(Load(h), block, n);
    var s2 := Rounds(Load(h), block, n + 2);
    var w := WordsAt(block, n);
    KTable(i);
    assert Rounds(Load(h), block, n + 1) == Round(s0, K(n), w.l0);
    assert s2 == Round(Rounds(Load(h), block, n + 1), K(n + 1), w.l1);
    assert Rounds(Load(h), block, n + 3) == Round(s2, K(n + 2), w.l2);
    assert Rounds(Load(h), block, n + 4) == Round(Rounds(Load(h), block, n + 3), K(n + 3), w.l3);
    TwoRounds(s0, K(n), w.l0, K(n + 1), w.l1, Add(w.l2, K(n + 2)), Add(w.l3, K(n + 3)));
    TwoRounds(s2, K(n + 2), w.l2, K(n + 3), w.l3, Add(w.l0, K(n)), Add(w.l0, K(n)));
  }

  /** Four schedule words from the sixteen before them. */
  lemma NextWords(block: seq<byte>, t: nat)
    requires |block| == 64 && t >= 16
    ensures
      var partial := Sha256Msg1(WordsAt(block, t - 16), WordsAt(block, t - 12));
      var w9 := AlignrEpi8(WordsAt(block, t - 4), WordsAt(block, t - 8), 4);
      Sha256Msg2(AddEpi32(partial, w9), WordsAt(block, t - 4)) == WordsAt(block, t)
  {
    hide W, Add, SmallSigma0, SmallSigma1;
    LateWord(block, t);
    LateWord(block, t + 1);
    LateWord(block, t + 2);
    LateWord(block, t + 3);
  }

  const BYTE_SWAP: M128 := SetEpi64x(0x0c0d0e0f08090a0b, 0x0405060700010203)

  lemma ByteSwapIndex(i: nat)
    requires i < 16
    ensures ByteAt(BYTE_SWAP, i) == i / 4 * 4 + 3 - i % 4
  {
    assert BYTE_SWAP == M128(0x00010203, 0x04050607, 0x08090a0b, 0x0c0d0e0f);
    hide BYTE_SWAP;
    ByteSwapLane(0x00010203, 0);
    ByteSwapLane(0x04050607, 4);
    ByteSwapLane(0x08090a0b, 8);
    ByteSwapLane(0x0c0d0e0f, 12);
    hide ByteOf;
  }

  /** A lane of the mask lists its four bytes backwards. */
  lemma ByteSwapLane(lane: word, first: nat)
    requires lane == first * 0x101_0101 + 0x1_0203 && first <= 12
    ensures forall j :: 0 <= j < 4 ==> ByteOf(lane, j) == first + 3 - j
  {
    var l1 := first * 0x1_0101 + 0x102;
    var l2 := first * 0x101 + 1;
    assert lane / 0x100 == l1 && lane / 0x1_0000 == l2 && lane / 0x100_0000 == first;
  }

  lemma BytesOfLittleEndian(b0: byte, b1: byte, b2: byte, b3: byte)
    ensures var x := LittleEndian(b0, b1, b2, b3);
      ByteOf(x, 0) == b0 && ByteOf(x, 1) == b1 && ByteOf(x, 2) == b2 && ByteOf(x, 3) == b3
  {
    var x := LittleEndian(b0, b1, b2, b3);
    var x1 := b1 + 0x100 * (b2 + 0x100 * b3);
    assert x == b0 + 0x100 * x1;
    assert x / 0x100 == x1;
    assert x / 0x1_0000 == b2 + 0x100 * b3;
    assert x / 0x100_0000 == b3;
  }

  /** Sixteen bytes loaded and byte-swapped lane by lane are four big-endian words. */
  lemma SwappedLanes(b: seq<byte>)
    requires |b| == 16
    ensures
      ShuffleEpi8(FromBytes(b), BYTE_SWAP) ==
      M128(BigEndian(b[0], b[1], b[2], b[3]), BigEndian(b[4], b[5], b[6], b[7]),
           BigEndian(b[8], b[9], b[10], b[11]), BigEndian(b[12], b[13], b[14], b[15]))
  {
    hide BYTE_SWAP, BigEndian, ByteOf, ByteAt;
    var r := FromBytes(b);
    forall i: nat | i < 16
      ensures ByteAt(BYTE_SWAP, i) == i / 4 * 4 + 3 - i % 4 && ByteAt(r, i) == b[i]
    {
      ByteSwapIndex(i);
      LoadedByte(b, i);
    }
  }

  lemma LoadedByte(b: seq<byte>, i: nat)
    requires |b| == 16 && i < 16
    ensures ByteAt(FromBytes(b), i) == b[i]
  {
    hide ByteOf, LittleEndian;
    match i / 4
    case 0 => BytesOfLittleEndian(b[0], b[1], b[2], b[3]);
    case 1 => BytesOfLittleEndian(b[4], b[5], b[6], b[7]);
    case 2 => BytesOfLittleEndian(b[8], b[9], b[10], b[11]);
    case _ => BytesOfLittleEndian(b[12], b[13], b[14], b[15]);
  }

  /** A message register loaded by the closure of compress_ni. */
  function LoadWords(block: seq<byte>, off: nat): M128
    requires |block| == 64 && off <= 48
  {
    ShuffleEpi8(FromBytes(block[off..off + 16]), BYTE_SWAP)
  }

  lemma LoadWordsIsSchedule(block: seq<byte>, i: nat)
    requires |block| == 64 && i < 4
    ensures LoadWords(block, 16 * i) == WordsAt(block, 4 * i)
  {
    hide ShuffleEpi8, FromBytes, BYTE_SWAP, BigEndian;
    SwappedLanes(block[16 * i..16 * i + 16]);
  }

  /** The shuffles at the start leave ABEF and CDGH. */
  lemma Pack(h: seq<word>, block: seq<byte>)
    requires |h| == 8 && |block| == 64
    ensures
      var cdab := ShuffleEpi32(M128(h[0], h[1], h[2], h[3]), 0xB1);
      var hgfe := ShuffleEpi32(M128(h[4], h[5], h[6], h[7]), 0x1B);
      At(AlignrEpi8(cdab, hgfe, 8), BlendEpi16(hgfe, cdab, 0xF0), h, block, 0)
  {
    NoRounds(Load(h), block);
  }

  lemma Unpack(s: Vars)
    ensures
      var feba := ShuffleEpi32(Abef(s), 0x1B);
      var dchg := ShuffleEpi32(Cdgh(s), 0xB1);
      && BlendEpi16(feba, dchg, 0xF0) == M128(s.a, s.b, s.c, s.d)
      && AlignrEpi8(dchg, feba, 8) == M128(s.e, s.f, s.g, s.h)
  {
  }

  /** The feed-forward in register layout, unpacked, is the standard's. */
  lemma Finish(h: seq<word>, block: seq<byte>, state0: M128, state1: M128, abef: M128, cdgh: M128)
    requires |h| == 8 && |block| == 64
    requires At(state0, state1, h, block, 64) && At(abef, cdgh, h, block, 0)
    ensures
      var feba := ShuffleEpi32(AddEpi32(state0, abef), 0x1B);
      var dchg := ShuffleEpi32(AddEpi32(state1, cdgh), 0xB1);
      var out0 := BlendEpi16(feba, dchg, 0xF0);
      var out1 := AlignrEpi8(dchg, feba, 8);
      [out0.l0, out0.l1, out0.l2, out0.l3, out1.l0, out1.l1, out1.l2, out1.l3] == Compress(h, block)
  {
    hide BlendEpi16, ShuffleEpi32, Round;
    var s := Rounds(Load(h), block, 64);
    var f := FeedForward(h, s);
    NoRounds(Load(h), block);
    Unpack(Load(f));
    assert AddEpi32(state0, abef) == Abef(Load(f)) && AddEpi32(state1, cdgh) == Cdgh(Load(f));
  }

  method CompressNi(h: array<word>, block: seq<byte>)
    requires h.Length == 8 && |block| == 64
    modifies h
    ensures h[..] == Compress(old(h[..]), block)
  {
    hide AddEpi32, ShuffleEpi32, AlignrEpi8, BlendEpi16, Sha256Rnds2, Sha256Msg1, Sha256Msg2, KLanes,
      LoadWords, WordsAt, At, Compress;
    ghost var hs := h[..];
    // the state in the instruction's interleaved layout
    var lo := M128(h[0], h[1], h[2], h[3]);
    var state1 := M128(h[4], h[5], h[6], h[7]);
    lo := ShuffleEpi32(lo, 0xB1);
    state1 := ShuffleEpi32(state1, 0x1B);
    var state0 := AlignrEpi8(lo, state1, 8);
    state1 := BlendEpi16(state1, lo, 0xF0);
    var abefSave := state0;
    var cdghSave := state1;
    Pack(hs, block);

    // rounds 0-3
    var msg0 := LoadWords(block, 0);
    LoadWordsIsSchedule(block, 0);
    FourRounds(hs, block, 0, state0, state1);
    var msg := AddEpi32(msg0, KLanes(0));
    state1 := Sha256Rnds2(state1, state0, msg);
    msg := ShuffleEpi32(msg, 0x0E);
    state0 := Sha256Rnds2(state0, state1, msg);

    // rounds 4-7
    var msg1 := LoadWords(block, 16);
    LoadWordsIsSchedule(block, 1);
    FourRounds(hs, block, 1, state0, state1);
    msg := AddEpi32(msg1, KLanes(1));
    state1 := Sha256Rnds2(state1, state0, msg);
    msg := ShuffleEpi32(msg, 0x0E);
    state0 := Sha256Rnds2(state0, state1, msg);
    msg0 := Sha256Msg1(msg0, msg1);

    // rounds 8-11
    var msg2 := LoadWords(block, 32);
    LoadWordsIsSchedule(block, 2);
    FourRounds(hs, block, 2, state0, state1);
    msg := AddEpi32(msg2, KLanes(2));
    state1 := Sha256Rnds2(state1, state0, msg);
    msg := ShuffleEpi32(msg, 0x0E);
    state0 := Sha256Rnds2(state0, state1, msg);
    msg1 := Sha256Msg1(msg1, msg2);

    // rounds 12-15
    var msg3 := LoadWords(block, 48);
    LoadWordsIsSchedule(block, 3);
    FourRounds(hs, block, 3, state0, state1);
    msg := AddEpi32(msg3, KLanes(3));
    state1 := Sha256Rnds2(state1, state0, msg);
    var tmp := AlignrEpi8(msg3, msg2, 4);
    msg0 := AddEpi32(msg0, tmp);
    msg0 := Sha256Msg2(msg0, msg3);
    NextWords(block, 16);
    msg := ShuffleEpi32(msg, 0x0E);
    state0 := Sha256Rnds2(state0, state1, msg);
    msg2 := Sha256Msg1(msg2, msg3);

    // rounds 16-19
    FourRounds(hs, block, 4, state0, state1);
    msg := AddEpi32(msg0, KLanes(4));
    state1 := Sha256Rnds2(state1, state0, msg);
    tmp := AlignrEpi8(msg0, msg3, 4);
    msg1 := AddEpi32(msg1, tmp);
    msg1 := Sha256Msg2(msg1, msg0);
    NextWords(block, 20);
    msg := ShuffleEpi32(msg, 0x0E);
    state0 := Sha256Rnds2(state0, state1, msg);
    msg3 := Sha256Msg1(msg3, msg0);

    // rounds 20-23
    FourRounds(hs, block, 5, state0, state1);
    msg := AddEpi32(msg1, KLanes(5));
    state1 := Sha256Rnds2(state1, state0, msg);
    tmp := AlignrEpi8(msg1, msg0, 4);
    msg2 := AddEpi32(msg2, tmp);
    msg2 := Sha256Msg2(msg2, msg1);
    NextWords(block, 24);
    msg := ShuffleEpi32(msg, 0x0E);
    state0 := Sha256Rnds2(state0, state1, msg);
    msg0 := Sha256Msg1(msg0, msg1);

    // rounds 24-27
    FourRounds(hs, block, 6, state0, state1);
    msg := AddEpi32(msg2, KLanes(6));
    state1 := Sha256Rnds2(state1, state0, msg);
    tmp := AlignrEpi8(msg2, msg1, 4);
    msg3 := AddEpi32(msg3, tmp);
    msg3 := Sha256Msg2(msg3, msg2);
    NextWords(block, 28);
    msg := ShuffleEpi32(msg, 0x0E);
    state0 := Sha256Rnds2(state0, state1, msg);
    msg1 := Sha256Msg1(msg1, msg2);

    // rounds 28-31
    FourRounds(hs, block, 7, state0, state1);
    msg := AddEpi32(msg3, KLanes(7));
    state1 := Sha256Rnds2(state1, state0, msg);
    tmp := AlignrEpi8(msg3, msg2, 4);
    msg0 := AddEpi32(msg0, tmp);
    msg0 := Sha256Msg2(msg0, msg3);
    NextWords(block, 32);
    msg := ShuffleEpi32(msg, 0x0E);
    state0 := Sha256Rnds2(state0, state1, msg);
    msg2 := Sha256Msg1(msg2, msg3);

    // rounds 32-35
    FourRounds(hs, block, 8, state0, state1);
    msg := AddEpi32(msg0, KLanes(8));
    state1 := Sha256Rnds2(state1, state0, msg);
    tmp := AlignrEpi8(msg0, msg3, 4);
    msg1 := AddEpi32(msg1, tmp);
    msg1 := Sha256Msg2(msg1, msg0);
    NextWords(block, 36);
    msg := ShuffleEpi32(msg, 0x0E);
    state0 := Sha256Rnds2(state0, state1, msg);
    msg3 := Sha256Msg1(msg3, msg0);

    // rounds 36-39
    FourRounds(hs, block, 9, state0, state1);
    msg := AddEpi32(msg1, KLanes(9));
    state1 := Sha256Rnds2(state1, state0, msg);
    tmp := AlignrEpi8(msg1, msg0, 4);
    msg2 := AddEpi32(msg2, tmp);
    msg2 := Sha256Msg2(msg2, msg1);
    NextWords(block, 40);
    msg := ShuffleEpi32(msg, 0x0E);
    state0 := Sha256Rnds2(state0, state1, msg);
    msg0 := Sha256Msg1(msg0, msg1);

    // rounds 40-43
    FourRounds(hs, block, 10, state0, state1);
    msg := AddEpi32(msg2, KLanes(10));
    state1 := Sha256Rnds2(state1, state0, msg);
    tmp := AlignrEpi8(msg2, msg1, 4);
    msg3 := AddEpi32(msg3, tmp);
    msg3 := Sha256Msg2(msg3, msg2);
    NextWords(block, 44);
    msg := ShuffleEpi32(msg, 0x0E);
    state0 := Sha256Rnds2(state0, state1, msg);
    msg1 := Sha256Msg1(msg1, msg2);

    // rounds 44-47
    FourRounds(hs, block, 11, state0, state1);
    msg := AddEpi32(msg3, KLanes(11));
    state1 := Sha256Rnds2(state1, state0, msg);
    tmp := AlignrEpi8(msg3, msg2, 4);
    msg0 := AddEpi32(msg0, tmp);
    msg0 := Sha256Msg2(msg0, msg3);
    NextWords(block, 48);
    msg := ShuffleEpi32(msg, 0x0E);
    state0 := Sha256Rnds2(state0, state1, msg);
    msg2 := Sha256Msg1(msg2, msg3);

    // rounds 48-51
    FourRounds(hs, block, 12, state0, state1);
    msg := AddEpi32(msg0, KLanes(12));
    state1 := Sha256Rnds2(state1, state0, msg);
    tmp := AlignrEpi8(msg0, msg3, 4);
    msg1 := AddEpi32(msg1, tmp);
    msg1 := Sha256Msg2(msg1, msg0);
    NextWords(block, 52);
    msg := ShuffleEpi32(msg, 0x0E);
    state0 := Sha256Rnds2(state0, state1, msg);
    msg3 := Sha256Msg1(msg3, msg0);

    // rounds 52-55
    FourRounds(hs, block, 13, state0, state1);
    msg := AddEpi32(msg1, KLanes(13));
    state1 := Sha256Rnds2(state1, state0, msg);
    tmp := AlignrEpi8(msg1, msg0, 4);
    msg2 := AddEpi32(msg2, tmp);
    msg2 := Sha256Msg2(msg2, msg1);
    NextWords(block, 56);
    msg := ShuffleEpi32(msg, 0x0E);
    state0 := Sha256Rnds2(state0, state1, msg);

    // rounds 56-59
    FourRounds(hs, block, 14, state0, state1);
    msg := AddEpi32(msg2, KLanes(14));
    state1 := Sha256Rnds2(state1, state0, msg);
    tmp := AlignrEpi8(msg2, msg1, 4);
    msg3 := AddEpi32(msg3, tmp);
    msg3 := Sha256Msg2(msg3, msg2);
    NextWords(block, 60);
    msg := ShuffleEpi32(msg, 0x0E);
    state0 := Sha256Rnds2(state0, state1, msg);

    // rounds 60-63
    FourRounds(hs, block, 15, state0, state1);
    msg := AddEpi32(msg3, KLanes(15));
    state1 := Sha256Rnds2(state1, state0, msg);
    msg := ShuffleEpi32(msg, 0x0E);
    state0 := Sha256Rnds2(state0, state1, msg);

    Finish(hs, block, state0, state1, abefSave, cdghSave);
    state0 := AddEpi32(state0, abefSave);
    state1 := AddEpi32(state1, cdghSave);

    // back to the layout {A,B,C,D}, {E,F,G,H}
    tmp := ShuffleEpi32(state0, 0x1B);
    var state1b := ShuffleEpi32(state1, 0xB1);
    var out0 := BlendEpi16(tmp, state1b, 0xF0);
    var out1 := AlignrEpi8(state1b, tmp, 8);
    h[0], h[1], h[2], h[3] := out0.l0, out0.l1, out0.l2, out0.l3;
    h[4], h[5], h[6], h[7] := out1.l0, out1.l1, out1.l2, out1.l3;
  }

  method Hash(input: seq<byte>) returns (out: array<byte>)
    ensures fresh(out) && out[..] == Sha256Spec.Hash(input)
  {
    hide Sha256Spec.Compress, Pad, Digest, Absorb;
    var h := new word[8](i requires 0 <= i < 8 => H0[i]);
    assert h[..] == H0;
    ghost var padded := Pad(input);
    for i := 0 to |input| / 64
      invariant Absorb(h[..], padded[64 * i..]) == Absorb(H0, padded)
    {
      AbsorbBlock(h[..], padded[64 * i..]);
      assert padded[64 * i..][..64] == input[64 * i..64 * i + 64];
      assert padded[64 * i..][64..] == padded[64 * (i + 1)..];
      CompressNi(h, input[64 * i..64 * i + 64]);
    }
    var tail, twoBlocks := Sha256Tail.PadTail(input);
    ghost var last := padded[|input| / 64 * 64..];
    assert last[..64] == tail[..64] && last[64..] == if twoBlocks then tail[64..128] else [];
    AbsorbBlock(h[..], last);
    CompressNi(h, tail[..64]);
    if twoBlocks {
      AbsorbBlock(h[..], tail[64..128]);
      assert tail[64..128][..64] == tail[64..128] && tail[64..128][64..] == [];
      CompressNi(h, tail[64..128]);
    }
    AbsorbNothing(h[..]);
    out := Sha256Tail.WriteDigest(h);
  }
}
