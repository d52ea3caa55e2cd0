/** SHA-256 as FIPS 180-4 defines it: the functions of section 4.1.2, the
    padding of section 5.1.1 and the hash computation of section 6.2.2. */
module Sha256Spec {
  import opened Words

  /** The round constants K_0 .. K_63. */
  function K(t: nat): word
    requires t < 64
  {
    match t
    case 0 => 0x428a2f98 case 1 => 0x71374491 case 2 => 0xb5c0fbcf case 3 => 0xe9b5dba5
    case 4 => 0x3956c25b case 5 => 0x59f111f1 case 6 => 0x923f82a4 case 7 => 0xab1c5ed5
    case 8 => 0xd807aa98 case 9 => 0x12835b01 case 10 => 0x243185be case 11 => 0x550c7dc3
    case 12 => 0x72be5d74 case 13 => 0x80deb1fe case 14 => 0x9bdc06a7 case 15 => 0xc19bf174
    case 16 => 0xe49b69c1 case 17 => 0xefbe4786 case 18 => 0x0fc19dc6 case 19 => 0x240ca1cc
    case 20 => 0x2de92c6f case 21 => 0x4a7484aa case 22 => 0x5cb0a9dc case 23 => 0x76f988da
    case 24 => 0x983e5152 case 25 => 0xa831c66d case 26 => 0xb00327c8 case 27 => 0xbf597fc7
    case 28 => 0xc6e00bf3 case 29 => 0xd5a79147 case 30 => 0x06ca6351 case 31 => 0x14292967
    case 32 => 0x27b70a85 case 33 => 0x2e1b2138 case 34 => 0x4d2c6dfc case 35 => 0x53380d13
    case 36 => 0x650a7354 case 37 => 0x766a0abb case 38 => 0x81c2c92e case 39 => 0x92722c85
    case 40 => 0xa2bfe8a1 case 41 => 0xa81a664b case 42 => 0xc24b8b70 case 43 => 0xc76c51a3
    case 44 => 0xd192e819 case 45 => 0xd6990624 case 46 => 0xf40e3585 case 47 => 0x106aa070
    case 48 => 0x19a4c116 case 49 => 0x1e376c08 case 50 => 0x2748774c case 51 => 0x34b0bcb5
    case 52 => 0x391c0cb3 case 53 => 0x4ed8aa4a case 54 => 0x5b9cca4f case 55 => 0x682e6ff3
    case 56 => 0x748f82ee case 57 => 0x78a5636f case 58 => 0x84c87814 case 59 => 0x8cc70208
    case 60 => 0x90befffa case 61 => 0xa4506ceb case 62 => 0xbef9a3f7 case _ => 0xc67178f2
  }

  const H0: seq<word> := [
    0x6a09e667, 0xbb67ae85, 0x3c6ef372, 0xa54ff53a, 0x510e527f, 0x9b05688c, 0x1f83d9ab, 0x5be0cd19]

  function BigSigma0(x: word): word { Xor(Xor(RotateRight(x, 2), RotateRight(x, 13)), RotateRight(x, 22)) }
  function BigSigma1(x: word): word { Xor(Xor(RotateRight(x, 6), RotateRight(x, 11)), RotateRight(x, 25)) }
  function SmallSigma0(x: word): word { Xor(Xor(RotateRight(x, 7), RotateRight(x, 18)), ShiftRight(x, 3)) }
  function SmallSigma1(x: word): word { Xor(Xor(RotateRight(x, 17), RotateRight(x, 19)), ShiftRight(x, 10)) }
  function Ch(x: word, y: word, z: word): word { Xor(And(x, y), And(Not(x), z)) }
  function Maj(x: word, y: word, z: word): word { Xor(Xor(And(x, y), And(x, z)), And(y, z)) }

  /** The message schedule: W(block, t) is W_t. */
  function W(block: seq<byte>, t: nat): word
    requires |block| == 64
  {
    if t < 16 then
      BigEndian(block[4 * t], block[4 * t + 1], block[4 * t + 2], block[4 * t + 3])
    else
      Add(Add(Add(SmallSigma1(W(block, t - 2)), W(block, t - 7)), SmallSigma0(W(block, t - 15))), W(block, t - 16))
  }

  /** The schedule sum does not depend on the order of its terms. */
  lemma ScheduleSums(w16: word, s0: word, w7: word, s1: word)
    ensures Add(Add(Add(w16, s0), w7), s1) == Add(Add(Add(s1, w7), s0), w16)
  {
  }

  lemma EarlyWord(block: seq<byte>, t: nat)
    requires |block| == 64 && t < 16
    ensures W(block, t) == BigEndian(block[t * 4], block[t * 4 + 1], block[t * 4 + 2], block[t * 4 + 3])
  {
  }

  lemma LateWord(block: seq<byte>, t: nat)
    requires |block| == 64 && t >= 16
    ensures W(block, t) ==
      Add(Add(Add(W(block, t - 16), SmallSigma0(W(block, t - 15))), W(block, t - 7)), SmallSigma1(W(block, t - 2)))
  {
    hide Add, SmallSigma0, SmallSigma1;
    ScheduleSums(W(block, t - 16), SmallSigma0(W(block, t - 15)), W(block, t - 7), SmallSigma1(W(block, t - 2)));
  }

  /** The eight working variables. */
  datatype Vars = Vars(a: word, b: word, c: word, d: word, e: word, f: word, g: word, h: word)

  function Round(s: Vars, k: word, w: word): Vars {
    var t1 := Add(Add(Add(Add(s.h, BigSigma1(s.e)), Ch(s.e, s.f, s.g)), k), w);
    var t2 := Add(BigSigma0(s.a), Maj(s.a, s.b, s.c));
    Vars(Add(t1, t2), s.a, s.b, s.c, Add(s.d, t1), s.e, s.f, s.g)
  }

  /** The working variables after the first n rounds. */
  function Rounds(s: Vars, block: seq<byte>, n: nat): Vars
    requires |block| == 64 && n <= 64
  {
    if n == 0 then s else Round(Rounds(s, block, n - 1), K(n - 1), W(block, n - 1))
  }

  lemma NoRounds(s: Vars, block: seq<byte>)
    requires |block| == 64
    ensures Rounds(s, block, 0) == s
  {
  }

  lemma NextRound(s: Vars, block: seq<byte>, n: nat)
    requires |block| == 64 && n < 64
    ensures Rounds(s, block, n + 1) == Round(Rounds(s, block, n), K(n), W(block, n))
  {
  }

  function Load(h: seq<word>): Vars
    requires |h| == 8
  {
    Vars(h[0], h[1], h[2], h[3], h[4], h[5], h[6], h[7])
  }

  function FeedForward(h: seq<word>, s: Vars): (r: seq<word>)
    requires |h| == 8
    ensures |r| == 8
  {
    [Add(h[0], s.a), Add(h[1], s.b), Add(h[2], s.c), Add(h[3], s.d),
     Add(h[4], s.e), Add(h[5], s.f), Add(h[6], s.g), Add(h[7], s.h)]
  }

  /** The compression of one 64-byte block into the intermediate hash value. */
  function Compress(h: seq<word>, block: seq<byte>): (r: seq<word>)
    requires |h| == 8 && |block| == 64
    ensures |r| == 8
  {
    FeedForward(h, Rounds(Load(h), block, 64))
  }

  /** The whole 64-byte blocks of m compressed, first block first. */
  function Absorb(h: seq<word>, m: seq<byte>): (r: seq<word>)
    requires |h| == 8
    ensures |r| == 8
    decreases |m|
  {
    if |m| < 64 then h else Absorb(Compress(h, m[..64]), m[64..])
  }

  lemma AbsorbBlock(h: seq<word>, m: seq<byte>)
    requires |h| == 8 && |m| >= 64
    ensures Absorb(h, m) == Absorb(Compress(h, m[..64]), m[64..])
  {
  }

  lemma AbsorbNothing(h: seq<word>)
    requires |h| == 8
    ensures Absorb(h, []) == h
  {
  }

  /** The low n bytes of x, most significant first. */
  function BigEndianBytes(x: nat, n: nat): (r: seq<byte>)
    ensures |r| == n
  {
    if n == 0 then [] else BigEndianBytes(x / 0x100, n - 1) + [x % 0x100]
  }

  /** Section 5.1.1: the bit 1, the least number of zero bits that makes the
      length 448 modulo 512, then the bit length as a 64-bit number. From 2^61
      bytes on, where the standard is silent, the length is taken modulo 2^64. */
  function Pad(m: seq<byte>): (r: seq<byte>)
    ensures |r| % 64 == 0 && |m| + 9 <= |r| < |m| + 9 + 64
    ensures m <= r && r[|r| - 8..] == BigEndianBytes(8 * |m|, 8)
  {
    var zeros := (55 - |m|) % 64;
    m + [0x80] + Zeros(zeros) + BigEndianBytes(8 * |m|, 8)
  }

  /** The eight words of the final hash value, most significant byte first. */
  function Digest(h: seq<word>): seq<byte>
    decreases |h|
  {
    if h == [] then []
    else ToBigEndian(h[0]) + Digest(h[1..])
  }

  function Hash(m: seq<byte>): seq<byte> {
    Digest(Absorb(H0, Pad(m)))
  }
}
