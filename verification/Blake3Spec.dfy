/** BLAKE3 as its specification defines it: the compression function (2.2), the
    chunk chaining (2.4), and the tree whose left subtree is the largest power
    of two of chunks that leaves at least one for the right (2.1, 2.5, 2.6). */
module Blake3Spec {
  import opened Words

  const IV: seq<word> := [
    0x6A09E667, 0xBB67AE85, 0x3C6EF372, 0xA54FF53A, 0x510E527F, 0x9B05688C, 0x1F83D9AB, 0x5BE0CD19]

  const CHUNK_LEN: nat := 1024
  const BLOCK_LEN: nat := 64
  const CHUNK_START: word := 1
  const CHUNK_END: word := 2
  const PARENT: word := 4
  const ROOT: word := 8

  // ----- compression -----

  /** The quarter-round on four words of the state. */
  function G(s: seq<word>, a: nat, b: nat, c: nat, d: nat, mx: word, my: word): (r: seq<word>)
    requires |s| == 16 && a < b < c < 16 && b < 16 && d < 16 && c != d && a != d && b != d
    ensures |r| == 16
  {
    hide Add, Xor, RotateRight;
    var a1 := Add(Add(s[a], s[b]), mx);
    var d1 := RotateRight(Xor(s[d], a1), 16);
    var c1 := Add(s[c], d1);
    var b1 := RotateRight(Xor(s[b], c1), 12);
    var a2 := Add(Add(a1, b1), my);
    var d2 := RotateRight(Xor(d1, a2), 8);
    var c2 := Add(c1, d2);
    var b2 := RotateRight(Xor(b1, c2), 7);
    s[a := a2][b := b2][c := c2][d := d2]
  }

  function Columns(s: seq<word>, m: seq<word>): (r: seq<word>)
    requires |s| == 16 && |m| == 16
    ensures |r| == 16
  {
    hide G;
    G(G(G(G(s, 0, 4, 8, 12, m[0], m[1]), 1, 5, 9, 13, m[2], m[3]), 2, 6, 10, 14, m[4], m[5]), 3, 7, 11, 15, m[6], m[7])
  }

  function Diagonals(s: seq<word>, m: seq<word>): (r: seq<word>)
    requires |s| == 16 && |m| == 16
    ensures |r| == 16
  {
    hide G;
    G(G(G(G(s, 0, 5, 10, 15, m[8], m[9]), 1, 6, 11, 12, m[10], m[11]), 2, 7, 8, 13, m[12], m[13]), 3, 4, 9, 14, m[14], m[15])
  }

  function Permutation(i: nat): nat
    requires i < 16
    ensures Permutation(i) < 16
  {
    match i
    case 0 => 2 case 1 => 6 case 2 => 3 case 3 => 10 case 4 => 7 case 5 => 0 case 6 => 4 case 7 => 13
    case 8 => 1 case 9 => 11 case 10 => 12 case 11 => 5 case 12 => 9 case 13 => 14 case 14 => 15 case _ => 8
  }

  function Permute(m: seq<word>): (r: seq<word>)
    requires |m| == 16
    ensures |r| == 16
  {
    seq(16, i requires 0 <= i < 16 => m[Permutation(i)])
  }

  /** n rounds, the message permuted between them. */
  function Rounds(n: nat, s: seq<word>, m: seq<word>): (r: seq<word>)
    requires |s| == 16 && |m| == 16
    ensures |r| == 16
  {
    hide Columns, Diagonals, Permute;
    if n == 0 then s else Rounds(n - 1, Diagonals(Columns(s, m), m), Permute(m))
  }

  function InitialState(cv: seq<word>, counter: nat, blockLen: word, flags: word): (r: seq<word>)
    requires |cv| == 8
    ensures |r| == 16
  {
    cv + IV[..4] + [counter % 0x1_0000_0000, counter / 0x1_0000_0000 % 0x1_0000_0000, blockLen, flags]
  }

  function Compress(cv: seq<word>, block: seq<word>, counter: nat, blockLen: word, flags: word): (r: seq<word>)
    requires |cv| == 8 && |block| == 16
    ensures |r| == 16
  {
    hide Rounds, Xor;
    var v := Rounds(7, InitialState(cv, counter, blockLen, flags), block);
    seq(16, i requires 0 <= i < 16 => if i < 8 then Xor(v[i], v[i + 8]) else Xor(v[i], cv[i - 8]))
  }

  // ----- nodes -----

  datatype RawOutput = Output(inputCv: seq<word>, blockWords: seq<word>, counter: nat, blockLen: word, flags: word)

  /** The inputs of a node's last compression, kept until it is known whether
      the node is the root. */
  type Output = o: RawOutput | |o.inputCv| == 8 && |o.blockWords| == 16 witness Output(IV, IV + IV, 0, 0, 0)

  function ChainingValue(o: Output): (cv: seq<word>)
    ensures |cv| == 8
  {
    Compress(o.inputCv, o.blockWords, o.counter, o.blockLen, o.flags)[..8]
  }

  function Parent(left: seq<word>, right: seq<word>): Output
    requires |left| == 8 && |right| == 8
  {
    Output(IV, left + right, 0, BLOCK_LEN, PARENT)
  }

  // ----- chunks -----

  function PaddedByte(block: seq<byte>, i: nat): byte {
    if i < |block| then block[i] else 0
  }

  /** A block of at most 64 bytes, zero padded, as sixteen little-endian words. */
  function BlockWords(block: seq<byte>): (w: seq<word>)
    ensures |w| == 16
  {
    seq(16, i requires 0 <= i < 16 =>
      LittleEndian(PaddedByte(block, 4 * i), PaddedByte(block, 4 * i + 1),
                   PaddedByte(block, 4 * i + 2), PaddedByte(block, 4 * i + 3)))
  }

  /** Every chunk has at least one block, and the last block is never empty
      unless it is the only one. */
  function LastBlock(len: nat): (n: nat)
    ensures BLOCK_LEN * n <= len && len <= BLOCK_LEN * (n + 1) && (n > 0 ==> BLOCK_LEN * n < len)
  {
    if len == 0 then 0 else (len - 1) / BLOCK_LEN
  }

  function StartFlag(block: nat): word {
    if block == 0 then CHUNK_START else 0
  }

  /** The chaining value into block n of a chunk. */
  function CvBefore(chunk: seq<byte>, counter: nat, n: nat): (cv: seq<word>)
    requires BLOCK_LEN * n <= |chunk|
    ensures |cv| == 8
  {
    if n == 0 then IV
    else
      var block := chunk[BLOCK_LEN * (n - 1)..BLOCK_LEN * n];
      Compress(CvBefore(chunk, counter, n - 1), BlockWords(block), counter, BLOCK_LEN, StartFlag(n - 1))[..8]
  }

  function ChunkOutput(chunk: seq<byte>, counter: nat): Output
    requires |chunk| <= CHUNK_LEN
  {
    var n := LastBlock(|chunk|);
    Output(CvBefore(chunk, counter, n), BlockWords(chunk[BLOCK_LEN * n..]), counter,
           |chunk| - BLOCK_LEN * n, Or(CHUNK_END, StartFlag(n)))
  }

  function NumChunks(input: seq<byte>): (n: nat)
    ensures n >= 1 && |input| <= CHUNK_LEN * n && (n > 1 ==> CHUNK_LEN * (n - 1) < |input|)
  {
    if |input| == 0 then 1 else (|input| - 1) / CHUNK_LEN + 1
  }

  /** The bytes of chunk i; past the end there are none. */
  function Chunk(input: seq<byte>, i: nat): (c: seq<byte>)
    ensures |c| <= CHUNK_LEN
  {
    input[Min(CHUNK_LEN * i, |input|)..Min(CHUNK_LEN * (i + 1), |input|)]
  }

  function Min(x: nat, y: nat): nat {
    if x < y then x else y
  }

  // ----- the tree -----

  ghost predicate IsPowerOfTwo(n: nat) {
    n == 1 || (n > 0 && n % 2 == 0 && IsPowerOfTwo(n / 2))
  }

  /** The largest power of two not above n. */
  function PowerOfTwoFloor(n: nat): (p: nat)
    requires n >= 1
    ensures 1 <= p <= n < 2 * p && IsPowerOfTwo(p)
  {
    if n == 1 then 1 else 2 * PowerOfTwoFloor(n / 2)
  }

  /** The largest power of two strictly below n. */
  function LeftLen(n: nat): (p: nat)
    requires n >= 2
    ensures 1 <= p < n <= 2 * p && IsPowerOfTwo(p)
  {
    PowerOfTwoFloor(n - 1)
  }

  datatype Tree = Leaf(chunk: nat) | Join(left: Tree, right: Tree)

  /** The tree over n chunks from chunk first on. */
  function Shape(first: nat, n: nat): Tree
    requires n >= 1
    decreases n
  {
    if n == 1 then Leaf(first) else Join(Shape(first, LeftLen(n)), Shape(first + LeftLen(n), n - LeftLen(n)))
  }

  function NodeOutput(input: seq<byte>, t: Tree): Output {
    hide ChainingValue, ChunkOutput, Chunk;
    match t
    case Leaf(i) => ChunkOutput(Chunk(input, i), i)
    case Join(l, r) => Parent(ChainingValue(NodeOutput(input, l)), ChainingValue(NodeOutput(input, r)))
  }

  /** Least significant byte first, as the digest is written. */
  function LittleEndianBytes(w: seq<word>): seq<byte> {
    if w == [] then []
    else ToLittleEndian(w[0]) + LittleEndianBytes(w[1..])
  }

  function RootBytes(o: Output): seq<byte> {
    LittleEndianBytes(Compress(o.inputCv, o.blockWords, 0, o.blockLen, Or(o.flags, ROOT))[..8])
  }

  function Hash(input: seq<byte>): seq<byte> {
    RootBytes(NodeOutput(input, Shape(0, NumChunks(input))))
  }
}
