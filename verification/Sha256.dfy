/** The digest calisto/hash computes, whichever path the processor selects. */
module Sha256 {
  import opened Words
  import opened Sha256Spec
  import Sha256Scalar
  import Sha256Ni

  /** sha256.rs, hash: SHA-NI where the processor has it, else the scalar form. */
  method Hash(input: seq<byte>, hasSha: bool) returns (out: array<byte>)
    ensures fresh(out) && out[..] == Sha256Spec.Hash(input)
  {
    if hasSha {
      out := Sha256Ni.Hash(input);
    } else {
      out := Sha256Scalar.Hash(input);
    }
  }

  ghost predicate Fits(x: nat, n: nat) {
    if n == 0 then x == 0 else Fits(x / 0x100, n - 1)
  }

  lemma {:induction false} BytesDetermine(x: nat, y: nat, n: nat)
    requires Fits(x, n) && Fits(y, n) && BigEndianBytes(x, n) == BigEndianBytes(y, n)
    ensures x == y
  {
    if n > 0 {
      var p, q := BigEndianBytes(x, n), BigEndianBytes(y, n);
      assert p[..n - 1] == BigEndianBytes(x / 0x100, n - 1) && p[n - 1] == x % 0x100;
      assert q[..n - 1] == BigEndianBytes(y / 0x100, n - 1) && q[n - 1] == y % 0x100;
      BytesDetermine(x / 0x100, y / 0x100, n - 1);
    }
  }

  lemma FitsSmaller(x: nat)
    requires x < 0x1_0000_0000_0000_0000
    ensures Fits(x, 8)
  {
    var x1 := x / 0x100;
    var x2 := x1 / 0x100;
    var x3 := x2 / 0x100;
    var x4 := x3 / 0x100;
    var x5 := x4 / 0x100;
    var x6 := x5 / 0x100;
    assert x6 < 0x1_0000 && Fits(x6, 2);
    assert Fits(x5, 3) && Fits(x4, 4) && Fits(x3, 5);
    assert Fits(x2, 6) && Fits(x1, 7);
  }

  /** Below 2^61 bytes no two messages are padded to the same blocks. */
  lemma PaddingInjective(a: seq<byte>, b: seq<byte>)
    requires |a| < 0x2000_0000_0000_0000 && |b| < 0x2000_0000_0000_0000
    requires Pad(a) == Pad(b)
    ensures a == b
  {
    FitsSmaller(8 * |a|);
    FitsSmaller(8 * |b|);
    BytesDetermine(8 * |a|, 8 * |b|, 8);
    assert Pad(a)[..|a|] == a && Pad(b)[..|b|] == b;
  }
}
