/** Bytes and 32-bit words as bounded integers, with Rust's wrapping addition
    and the bitwise operators of u32. */
module Words {

  type byte = x: int | 0 <= x < 0x100
  type word = x: int | 0 <= x < 0x1_0000_0000

  function Add(x: word, y: word): word {
    if x + y < 0x1_0000_0000 then x + y else x + y - 0x1_0000_0000
  }

  function Xor(x: word, y: word): word { (x as bv32 ^ y as bv32) as word }
  function And(x: word, y: word): word { (x as bv32 & y as bv32) as word }
  function Or(x: word, y: word): word { (x as bv32 | y as bv32) as word }
  function Not(x: word): word { (!(x as bv32)) as word }
  function RotateRight(x: word, n: nat): word
    requires n < 32
  {
    ((x as bv32).RotateRight(n)) as word
  }
  function ShiftRight(x: word, n: nat): word
    requires n < 32
  {
    (x as bv32 >> n) as word
  }

  function BigEndian(b0: byte, b1: byte, b2: byte, b3: byte): word {
    b0 * 0x100_0000 + b1 * 0x1_0000 + b2 * 0x100 + b3
  }

  function LittleEndian(b0: byte, b1: byte, b2: byte, b3: byte): word {
    BigEndian(b3, b2, b1, b0)
  }

  /** to_be_bytes and to_le_bytes. */
  function ToBigEndian(x: word): (b: seq<byte>)
    ensures |b| == 4
  {
    var x1 := x / 0x100;
    var x2 := x1 / 0x100;
    [x2 / 0x100, x2 % 0x100, x1 % 0x100, x % 0x100]
  }

  function ToLittleEndian(x: word): (b: seq<byte>)
    ensures |b| == 4
  {
    var b := ToBigEndian(x);
    [b[3], b[2], b[1], b[0]]
  }

  /** copy_from_slice into the part of the buffer that starts at k. */
  method CopyInto(a: array<byte>, k: nat, bytes: seq<byte>)
    requires k + |bytes| <= a.Length
    modifies a
    ensures a[..k] == old(a[..k]) && a[k..k + |bytes|] == bytes && a[k + |bytes|..] == old(a[k + |bytes|..])
  {
    forall i | 0 <= i < |bytes| {
      a[k + i] := bytes[i];
    }
  }

  function Zeros(n: nat): (z: seq<byte>)
    ensures |z| == n
  {
    seq(n, _ => 0)
  }

  lemma AddCommutes(x: word, y: word)
    ensures Add(x, y) == Add(y, x)
  {
  }
}
