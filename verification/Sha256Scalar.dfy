/** The portable compression and hash of sha256.rs. */
module Sha256Scalar {
  import opened Words
  import opened Sha256Spec
  import Sha256Tail

  /** The first phase of compress: the message schedule. */
  method Schedule(block: seq<byte>) returns (w: array<word>)
    requires |block| == 64
    ensures fresh(w) && w.Length == 64 && forall t :: 0 <= t < 64 ==> w[t] == W(block, t)
  {
    hide Add, SmallSigma0, SmallSigma1, BigEndian, W;
    w := new word[64](_ => 0);
    for i := 0 to 16
      invariant forall t :: 0 <= t < i ==> w[t] == W(block, t)
    {
      EarlyWord(block, i);
      w[i] := BigEndian(block[i * 4], block[i * 4 + 1], block[i * 4 + 2], block[i * 4 + 3]);
    }
    for i := 16 to 64
      invariant forall t :: 0 <= t < i ==> w[t] == W(block, t)
    {
      LateWord(block, i);
      var s0 := SmallSigma0(w[i - 15]);
      var s1 := SmallSigma1(w[i - 2]);
      w[i] := Add(Add(Add(w[i - 16], s0), w[i - 7]), s1);
    }
  }

  method Compress(h: array<word>, block: seq<byte>)
    requires h.Length == 8 && |block| == 64
    modifies h
    ensures h[..] == Sha256Spec.Compress(old(h[..]), block)
  {
    hide Add, BigSigma0, BigSigma1, Ch, Maj, K, W, Rounds;
    var w := Schedule(block);
    var a, b, c, d, e, f, g, hh := h[0], h[1], h[2], h[3], h[4], h[5], h[6], h[7];
    ghost var s := Load(h[..]);
    assert Rounds(s, block, 0) == s by { NoRounds(s, block); }
    for group := 0 to 4
      modifies {}
      invariant Vars(a, b, c, d, e, f, g, hh) == Rounds(s, block, 16 * group)
    {
      var base := group * 16;
      for i := 0 to 16
        modifies {}
        invariant Vars(a, b, c, d, e, f, g, hh) == Rounds(s, block, base + i)
      {
        NextRound(s, block, base + i);
        var s1 := BigSigma1(e);
        var ch := Ch(e, f, g);
        var t1 := Add(Add(Add(Add(hh, s1), ch), K(base + i)), w[base + i]);
        var s0 := BigSigma0(a);
        var maj := Maj(a, b, c);
        var t2 := Add(s0, maj);
        hh, g, f, e := g, f, e, Add(d, t1);
        d, c, b, a := c, b, a, Add(t1, t2);
      }
    }
    h[0] := Add(h[0], a);
    h[1] := Add(h[1], b);
    h[2] := Add(h[2], c);
    h[3] := Add(h[3], d);
    h[4] := Add(h[4], e);
    h[5] := Add(h[5], f);
    h[6] := Add(h[6], g);
    h[7] := Add(h[7], hh);
  }

  method Hash(input: seq<byte>) returns (out: array<byte>)
    ensures fresh(out) && out[..] == Sha256Spec.Hash(input)
  {
    hide Sha256Spec.Compress, Pad, Digest, Absorb;
    var h := new word[8](i requires 0 <= i < 8 => H0[i]);
    assert h[..] == H0;
    ghost var padded := Pad(input);
    for i := 0 to |input| / 64
      invariant Absorb(h[..], padded[64 * i..]) == Absorb(H0, padded)
    {
      AbsorbBlock(h[..], padded[64 * i..]);
      assert padded[64 * i..][..64] == input[64 * i..64 * i + 64];
      assert padded[64 * i..][64..] == padded[64 * (i + 1)..];
      Compress(h, input[64 * i..64 * i + 64]);
    }
    var tail, twoBlocks := Sha256Tail.PadTail(input);
    ghost var last := padded[|input| / 64 * 64..];
    assert last[..64] == tail[..64] && last[64..] == if twoBlocks then tail[64..128] else [];
    AbsorbBlock(h[..], last);
    Compress(h, tail[..64]);
    if twoBlocks {
      AbsorbBlock(h[..], tail[64..128]);
      assert tail[64..128][..64] == tail[64..128] && tail[64..128][64..] == [];
      Compress(h, tail[64..128]);
    }
    AbsorbNothing(h[..]);
    out := Sha256Tail.WriteDigest(h);
  }
}
