/** The steps both hash functions share around the compression: the padded
    tail and the digest bytes. */
module Sha256Tail {
  import opened Words
  import opened Sha256Spec

  /** The last one or two blocks: the bytes after the whole blocks, 0x80, zeros
      and the bit length. */
  method PadTail(input: seq<byte>) returns (tail: array<byte>, twoBlocks: bool)
    ensures fresh(tail) && tail.Length == 128
    ensures tail[..if twoBlocks then 128 else 64] == Pad(input)[|input| / 64 * 64..]
  {
    var rem := input[|input| / 64 * 64..];
    var bitLen := 8 * |input|;
    tail := new byte[128](_ => 0);
    forall i | 0 <= i < |rem| { tail[i] := rem[i]; }
    tail[|rem|] := 0x80;
    twoBlocks := |rem| >= 56;
    var padEnd := if twoBlocks then 120 else 56;
    var len := BigEndianBytes(bitLen, 8);
    forall i | 0 <= i < 8 { tail[padEnd + i] := len[i]; }
    PaddedTail(input);
  }

  lemma PaddedTail(input: seq<byte>)
    ensures
      var rem := input[|input| / 64 * 64..];
      var padEnd := if |rem| >= 56 then 120 else 56;
      Pad(input)[|input| / 64 * 64..] == rem + [0x80] + Zeros(padEnd - |rem| - 1) + BigEndianBytes(8 * |input|, 8)
  {
    hide BigEndianBytes;
    var whole := |input| / 64 * 64;
    var rem := |input| - whole;
    var zeros := (if rem >= 56 then 120 else 56) - rem - 1;
    PaddingZeros(|input| / 64, rem);
    assert input[..whole] + input[whole..] == input;
  }

  lemma PaddingZeros(blocks: nat, rem: nat)
    requires rem < 64
    ensures (55 - (64 * blocks + rem)) % 64 == (if rem >= 56 then 120 else 56) - rem - 1
  {
    var zeros := (if rem >= 56 then 120 else 56) - rem - 1;
    assert 55 - (64 * blocks + rem) == zeros - 64 * (blocks + if rem >= 56 then 1 else 0);
  }

  lemma DigestStep(hs: seq<word>, i: nat)
    requires i < |hs|
    ensures Digest(hs[i..]) == ToBigEndian(hs[i]) + Digest(hs[i + 1..])
  {
    assert hs[i..][1..] == hs[i + 1..];
  }

  /** The digest: each word's four bytes, most significant first. */
  method WriteDigest(h: array<word>) returns (out: array<byte>)
    requires h.Length == 8
    ensures fresh(out) && out[..] == Digest(h[..])
  {
    hide Digest, ToBigEndian;
    out := new byte[32](_ => 0);
    ghost var hs := h[..];
    for i := 0 to 8
      invariant h[..] == hs
      invariant Digest(hs) == out[..4 * i] + Digest(hs[i..])
    {
      DigestStep(hs, i);
      CopyInto(out, 4 * i, ToBigEndian(h[i]));
      assert out[..4 * (i + 1)] == out[..4 * i] + out[4 * i..4 * i + 4];
    }
    DigestEmpty(hs[8..]);
  }

  lemma DigestEmpty(hs: seq<word>)
    requires hs == []
    ensures Digest(hs) == []
  {
  }
}
