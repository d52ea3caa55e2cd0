/** What the constants and functions of SHA-256 are, said without their code:
    the words of sections 4.2.2 and 5.3.3 of FIPS 180-4 as parts of roots of
    primes, and the functions of section 4.1.2 bit by bit. */
module Sha256Laws {
  import opened Words
  import opened Sha256Spec
  import opened WordBits

  // ----- the constants -----

  const TWO_32: nat := 0x1_0000_0000
  const TWO_64: nat := 0x1_0000_0000_0000_0000
  const TWO_96: nat := 0x1_0000_0000_0000_0000_0000_0000

  /** The primes in order. */
  function Prime(t: nat): nat
    requires t < 64
  {
    match t
    case 0 => 2 case 1 => 3 case 2 => 5 case 3 => 7 case 4 => 11 case 5 => 13 case 6 => 17 case 7 => 19
    case 8 => 23 case 9 => 29 case 10 => 31 case 11 => 37 case 12 => 41 case 13 => 43 case 14 => 47 case 15 => 53
    case 16 => 59 case 17 => 61 case 18 => 67 case 19 => 71 case 20 => 73 case 21 => 79 case 22 => 83 case 23 => 89
    case 24 => 97 case 25 => 101 case 26 => 103 case 27 => 107 case 28 => 109 case 29 => 113 case 30 => 127 case 31 => 131
    case 32 => 137 case 33 => 139 case 34 => 149 case 35 => 151 case 36 => 157 case 37 => 163 case 38 => 167 case 39 => 173
    case 40 => 179 case 41 => 181 case 42 => 191 case 43 => 193 case 44 => 197 case 45 => 199 case 46 => 211 case 47 => 223
    case 48 => 227 case 49 => 229 case 50 => 233 case 51 => 239 case 52 => 241 case 53 => 251 case 54 => 257 case 55 => 263
    case 56 => 269 case 57 => 271 case 58 => 277 case 59 => 281 case 60 => 283 case 61 => 293 case 62 => 307 case _ => 311
  }

  /** r is the square root of p with 32 bits after the point, rounded down. */
  predicate SquareRoot(r: nat, p: nat) { r * r <= p * TWO_64 < (r + 1) * (r + 1) }

  predicate CubeRoot(r: nat, p: nat) { r * r * r <= p * TWO_96 < (r + 1) * (r + 1) * (r + 1) }

  /** The initial hash value is made of the square roots of the first eight primes. */
  lemma H0IsSquareRoots(i: nat)
    requires i < 8
    ensures exists r: nat :: SquareRoot(r, Prime(i)) && r % TWO_32 == H0[i]
  {
    match i
    case 0 => assert SquareRoot(0x1_6a09e667, Prime(i));
    case 1 => assert SquareRoot(0x1_bb67ae85, Prime(i));
    case 2 => assert SquareRoot(0x2_3c6ef372, Prime(i));
    case 3 => assert SquareRoot(0x2_a54ff53a, Prime(i));
    case 4 => assert SquareRoot(0x3_510e527f, Prime(i));
    case 5 => assert SquareRoot(0x3_9b05688c, Prime(i));
    case 6 => assert SquareRoot(0x4_1f83d9ab, Prime(i));
    case _ => assert SquareRoot(0x4_5be0cd19, Prime(i));
  }

  /** The round constants are made of the cube roots of the first 64 primes. */
  lemma KIsCubeRoots(t: nat)
    requires t < 64
    ensures exists r: nat :: CubeRoot(r, Prime(t)) && r % TWO_32 == K(t)
  {
    match t
    case 0 => assert CubeRoot(0x1_428a2f98, Prime(t));
    case 1 => assert CubeRoot(0x1_71374491, Prime(t));
    case 2 => assert CubeRoot(0x1_b5c0fbcf, Prime(t));
    case 3 => assert CubeRoot(0x1_e9b5dba5, Prime(t));
    case 4 => assert CubeRoot(0x2_3956c25b, Prime(t));
    case 5 => assert CubeRoot(0x2_59f111f1, Prime(t));
    case 6 => assert CubeRoot(0x2_923f82a4, Prime(t));
    case 7 => assert CubeRoot(0x2_ab1c5ed5, Prime(t));
    case 8 => assert CubeRoot(0x2_d807aa98, Prime(t));
    case 9 => assert CubeRoot(0x3_12835b01, Prime(t));
    case 10 => assert CubeRoot(0x3_243185be, Prime(t));
    case 11 => assert CubeRoot(0x3_550c7dc3, Prime(t));
    case 12 => assert CubeRoot(0x3_72be5d74, Prime(t));
    case 13 => assert CubeRoot(0x3_80deb1fe, Prime(t));
    case 14 => assert CubeRoot(0x3_9bdc06a7, Prime(t));
    case 15 => assert CubeRoot(0x3_c19bf174, Prime(t));
    case 16 => assert CubeRoot(0x3_e49b69c1, Prime(t));
    case 17 => assert CubeRoot(0x3_efbe4786, Prime(t));
    case 18 => assert CubeRoot(0x4_0fc19dc6, Prime(t));
    case 19 => assert CubeRoot(0x4_240ca1cc, Prime(t));
    case 20 => assert CubeRoot(0x4_2de92c6f, Prime(t));
    case 21 => assert CubeRoot(0x4_4a7484aa, Prime(t));
    case 22 => assert CubeRoot(0x4_5cb0a9dc, Prime(t));
    case 23 => assert CubeRoot(0x4_76f988da, Prime(t));
    case 24 => assert CubeRoot(0x4_983e5152, Prime(t));
    case 25 => assert CubeRoot(0x4_a831c66d, Prime(t));
    case 26 => assert CubeRoot(0x4_b00327c8, Prime(t));
    case 27 => assert CubeRoot(0x4_bf597fc7, Prime(t));
    case 28 => assert CubeRoot(0x4_c6e00bf3, Prime(t));
    case 29 => assert CubeRoot(0x4_d5a79147, Prime(t));
    case 30 => assert CubeRoot(0x5_06ca6351, Prime(t));
    case 31 => assert CubeRoot(0x5_14292967, Prime(t));
    case 32 => assert CubeRoot(0x5_27b70a85, Prime(t));
    case 33 => assert CubeRoot(0x5_2e1b2138, Prime(t));
    case 34 => assert CubeRoot(0x5_4d2c6dfc, Prime(t));
    case 35 => assert CubeRoot(0x5_53380d13, Prime(t));
    case 36 => assert CubeRoot(0x5_650a7354, Prime(t));
    case 37 => assert CubeRoot(0x5_766a0abb, Prime(t));
    case 38 => assert CubeRoot(0x5_81c2c92e, Prime(t));
    case 39 => assert CubeRoot(0x5_92722c85, Prime(t));
    case 40 => assert CubeRoot(0x5_a2bfe8a1, Prime(t));
    case 41 => assert CubeRoot(0x5_a81a664b, Prime(t));
    case 42 => assert CubeRoot(0x5_c24b8b70, Prime(t));
    case 43 => assert CubeRoot(0x5_c76c51a3, Prime(t));
    case 44 => assert CubeRoot(0x5_d192e819, Prime(t));
    case 45 => assert CubeRoot(0x5_d6990624, Prime(t));
    case 46 => assert CubeRoot(0x5_f40e3585, Prime(t));
    case 47 => assert CubeRoot(0x6_106aa070, Prime(t));
    case 48 => assert CubeRoot(0x6_19a4c116, Prime(t));
    case 49 => assert CubeRoot(0x6_1e376c08, Prime(t));
    case 50 => assert CubeRoot(0x6_2748774c, Prime(t));
    case 51 => assert CubeRoot(0x6_34b0bcb5, Prime(t));
    case 52 => assert CubeRoot(0x6_391c0cb3, Prime(t));
    case 53 => assert CubeRoot(0x6_4ed8aa4a, Prime(t));
    case 54 => assert CubeRoot(0x6_5b9cca4f, Prime(t));
    case 55 => assert CubeRoot(0x6_682e6ff3, Prime(t));
    case 56 => assert CubeRoot(0x6_748f82ee, Prime(t));
    case 57 => assert CubeRoot(0x6_78a5636f, Prime(t));
    case 58 => assert CubeRoot(0x6_84c87814, Prime(t));
    case 59 => assert CubeRoot(0x6_8cc70208, Prime(t));
    case 60 => assert CubeRoot(0x6_90befffa, Prime(t));
    case 61 => assert CubeRoot(0x6_a4506ceb, Prime(t));
    case 62 => assert CubeRoot(0x6_bef9a3f7, Prime(t));
    case _ => assert CubeRoot(0x6_c67178f2, Prime(t));
  }

  // ----- the functions, bit by bit -----

  /** Bit i is the parity of the bits 2, 13 and 22 places above it, around the word. */
  lemma BigSigma0Bits(x: word, i: bv5)
    ensures Bit(BigSigma0(x), i) == ((Bit(x, i + 2) != Bit(x, i + 13)) != Bit(x, i + 22))
  {
    hide Xor, RotateRight, ShiftRight, Bit;
    Rotate2(x, i);
    Rotate13(x, i);
    Rotate22(x, i);
    var p, q := RotateRight(x, 2), RotateRight(x, 13);
    Bitwise(p, q, i);
    Bitwise(Xor(p, q), RotateRight(x, 22), i);
  }

  /** Of the bits 6, 11 and 25 places above it. */
  lemma BigSigma1Bits(x: word, i: bv5)
    ensures Bit(BigSigma1(x), i) == ((Bit(x, i + 6) != Bit(x, i + 11)) != Bit(x, i + 25))
  {
    hide Xor, RotateRight, ShiftRight, Bit;
    Rotate6(x, i);
    Rotate11(x, i);
    Rotate25(x, i);
    var p, q := RotateRight(x, 6), RotateRight(x, 11);
    Bitwise(p, q, i);
    Bitwise(Xor(p, q), RotateRight(x, 25), i);
  }

  /** Of the bits 7 and 18 places above it, around the word, and of the bit 3 places
      above it if there is one. */
  lemma SmallSigma0Bits(x: word, i: bv5)
    ensures Bit(SmallSigma0(x), i) == ((Bit(x, i + 7) != Bit(x, i + 18)) != (i < 29 && Bit(x, i + 3)))
  {
    hide Xor, RotateRight, ShiftRight, Bit;
    Rotate7(x, i);
    Rotate18(x, i);
    Shift3(x, i);
    var p, q := RotateRight(x, 7), RotateRight(x, 18);
    Bitwise(p, q, i);
    Bitwise(Xor(p, q), ShiftRight(x, 3), i);
  }

  /** Of the bits 17 and 19 places above it, around the word, and of the bit 10
      places above it if there is one. */
  lemma SmallSigma1Bits(x: word, i: bv5)
    ensures Bit(SmallSigma1(x), i) == ((Bit(x, i + 17) != Bit(x, i + 19)) != (i < 22 && Bit(x, i + 10)))
  {
    hide Xor, RotateRight, ShiftRight, Bit;
    Rotate17(x, i);
    Rotate19(x, i);
    Shift10(x, i);
    var p, q := RotateRight(x, 17), RotateRight(x, 19);
    Bitwise(p, q, i);
    Bitwise(Xor(p, q), ShiftRight(x, 10), i);
  }

  /** Ch takes each bit from y where x has a one and from z where it has a zero. */
  lemma ChChooses(x: word, y: word, z: word, i: bv5)
    ensures Bit(Ch(x, y, z), i) == if Bit(x, i) then Bit(y, i) else Bit(z, i)
  {
    hide Xor, And, Not, Bit;
    Bitwise(x, y, i);
    Bitwise(Not(x), z, i);
    Bitwise(And(x, y), And(Not(x), z), i);
  }

  /** Each bit of Maj is the one that at least two of the words have. */
  lemma MajIsMajority(x: word, y: word, z: word, i: bv5)
    ensures Bit(Maj(x, y, z), i) ==
      ((Bit(x, i) && Bit(y, i)) || (Bit(x, i) && Bit(z, i)) || (Bit(y, i) && Bit(z, i)))
  {
    hide Xor, And, Bit;
    Bitwise(x, y, i);
    Bitwise(x, z, i);
    Bitwise(y, z, i);
    Bitwise(And(x, y), And(x, z), i);
    Bitwise(Xor(And(x, y), And(x, z)), And(y, z), i);
  }

  // ----- the rounds -----

  /** The values of a and of e, from the oldest one in the working variables on:
      after t rounds a is A(t + 3), d is A(t), e is E(t + 3) and h is E(t). */
  function A(s: Vars, block: seq<byte>, t: nat): word
    requires |block| == 64 && t < 68
    decreases t, 1
  {
    if t >= 4 then
      Add(T1(s, block, t - 4),
          Add(BigSigma0(A(s, block, t - 1)), Maj(A(s, block, t - 1), A(s, block, t - 2), A(s, block, t - 3))))
    else if t == 3 then s.a else if t == 2 then s.b else if t == 1 then s.c else s.d
  }

  function E(s: Vars, block: seq<byte>, t: nat): word
    requires |block| == 64 && t < 68
    decreases t, 1
  {
    if t >= 4 then Add(A(s, block, t - 4), T1(s, block, t - 4))
    else if t == 3 then s.e else if t == 2 then s.f else if t == 1 then s.g else s.h
  }

  function T1(s: Vars, block: seq<byte>, t: nat): word
    requires |block| == 64 && t < 64
    decreases t + 4, 0
  {
    var (e, f, g) := (E(s, block, t + 3), E(s, block, t + 2), E(s, block, t + 1));
    Add(Add(Add(Add(E(s, block, t), BigSigma1(e)), Ch(e, f, g)), K(t)), W(block, t))
  }

  /** The rounds are two sequences of words in which each is computed from the
      four before it. */
  lemma {:induction false} RoundsAreTwoSequences(s: Vars, block: seq<byte>, t: nat)
    requires |block| == 64 && t <= 64
    ensures Rounds(s, block, t) ==
      Vars(A(s, block, t + 3), A(s, block, t + 2), A(s, block, t + 1), A(s, block, t),
           E(s, block, t + 3), E(s, block, t + 2), E(s, block, t + 1), E(s, block, t))
  {
    hide Add, BigSigma0, BigSigma1, Ch, Maj, K, W;
    if t > 0 {
      RoundsAreTwoSequences(s, block, t - 1);
      NextRound(s, block, t - 1);
      hide Rounds;
    }
  }

  // ----- padding and byte order -----

  /** The number that bytes are, most significant first. */
  function Number(bytes: seq<byte>): nat {
    if bytes == [] then 0 else 0x100 * Number(bytes[..|bytes| - 1]) + bytes[|bytes| - 1]
  }

  function Power256(n: nat): nat {
    if n == 0 then 1 else 0x100 * Power256(n - 1)
  }

  lemma {:induction false} NumberOfBytes(x: nat, n: nat)
    requires x < Power256(n)
    ensures Number(BigEndianBytes(x, n)) == x
  {
    if n > 0 {
      NumberOfBytes(x / 0x100, n - 1);
      var b := BigEndianBytes(x, n);
      assert b[..|b| - 1] == BigEndianBytes(x / 0x100, n - 1);
    }
  }

  /** The padded message is the message, one bit, as few zeros as fill up whole
      blocks, and the length in bits as a 64-bit number. */
  lemma PaddedMessage(m: seq<byte>)
    requires |m| < 0x2000_0000_0000_0000
    ensures
      var p := Pad(m);
      && |p| % 64 == 0 && |p| - 64 < |m| + 9 <= |p| && p[..|m|] == m && p[|m|] == 0x80
      && (forall i :: |m| < i < |p| - 8 ==> p[i] == 0)
      && Number(p[|p| - 8..]) == 8 * |m|
  {
    assert Power256(8) == 0x1_0000_0000_0000_0000 by {
      assert Power256(2) == 0x1_0000;
      assert Power256(4) == 0x1_0000_0000;
      assert Power256(6) == 0x1_0000_0000_0000;
    }
    NumberOfBytes(8 * |m|, 8);
  }

  /** Words are read and written most significant byte first. */
  lemma WordBytes(x: word, block: seq<byte>, t: nat)
    requires |block| == 64 && t < 16
    ensures Number(ToBigEndian(x)) == x && W(block, t) == Number(block[4 * t..4 * t + 4])
  {
    NumberOfFour(ToBigEndian(x));
    NumberOfFour(block[4 * t..4 * t + 4]);
  }

  lemma NumberOfFour(b: seq<byte>)
    requires |b| == 4
    ensures Number(b) == 0x100_0000 * (b[0] as int) + 0x1_0000 * (b[1] as int) + 0x100 * (b[2] as int) + b[3] as int
  {
    assert b[..3][..2] == b[..2] && b[..2][..1] == b[..1] && b[..1][..0] == [];
    assert Number(b[..1]) == b[0];
    assert Number(b[..2]) == 0x100 * (b[0] as int) + b[1] as int;
    assert Number(b[..3]) == 0x100 * Number(b[..2]) + b[2] as int;
  }
}
