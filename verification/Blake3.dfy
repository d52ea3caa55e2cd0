/** blake3.rs: the compression in place, the chunk loop and the one-shot hash
    with its stack of chaining values. */
module Blake3 {
  import opened Words
  import opened Blake3Spec
  import opened Blake3Tree

  method GInPlace(state: array<word>, a: nat, b: nat, c: nat, d: nat, mx: word, my: word)
    requires state.Length == 16 && a < b < c < 16 && d < 16 && c != d && a != d && b != d
    modifies state
    ensures state[..] == G(old(state[..]), a, b, c, d, mx, my)
  {
    hide Add, Xor, RotateRight;
    state[a] := Add(Add(state[a], state[b]), mx);
    state[d] := RotateRight(Xor(state[d], state[a]), 16);
    state[c] := Add(state[c], state[d]);
    state[b] := RotateRight(Xor(state[b], state[c]), 12);
    state[a] := Add(Add(state[a], state[b]), my);
    state[d] := RotateRight(Xor(state[d], state[a]), 8);
    state[c] := Add(state[c], state[d]);
    state[b] := RotateRight(Xor(state[b], state[c]), 7);
  }

  method Round(state: array<word>, m: seq<word>)
    requires state.Length == 16 && |m| == 16
    modifies state
    ensures state[..] == Diagonals(Columns(old(state[..]), m), m)
  {
    hide G;
    GInPlace(state, 0, 4, 8, 12, m[0], m[1]);
    GInPlace(state, 1, 5, 9, 13, m[2], m[3]);
    GInPlace(state, 2, 6, 10, 14, m[4], m[5]);
    GInPlace(state, 3, 7, 11, 15, m[6], m[7]);
    GInPlace(state, 0, 5, 10, 15, m[8], m[9]);
    GInPlace(state, 1, 6, 11, 12, m[10], m[11]);
    GInPlace(state, 2, 7, 8, 13, m[12], m[13]);
    GInPlace(state, 3, 4, 9, 14, m[14], m[15]);
  }

  lemma NextRounds(n: nat, s: seq<word>, m: seq<word>)
    requires |s| == 16 && |m| == 16 && n >= 1
    ensures Rounds(n, s, m) == Rounds(n - 1, Diagonals(Columns(s, m), m), Permute(m))
  {
  }

  method CompressInPlace(cv: seq<word>, blockWords: seq<word>, counter: nat, blockLen: word, flags: word)
    returns (state: array<word>)
    requires |cv| == 8 && |blockWords| == 16
    ensures fresh(state) && state[..] == Compress(cv, blockWords, counter, blockLen, flags)
  {
    hide Add, Xor, Columns, Diagonals, Rounds, Permute;
    ghost var init := InitialState(cv, counter, blockLen, flags);
    state := new word[16](i requires 0 <= i < 16 => InitialState(cv, counter, blockLen, flags)[i]);
    assert state[..] == init;
    var block := blockWords;
    for n := 0 to 7
      invariant |block| == 16 && fresh(state)
      invariant Rounds(7 - n, state[..], block) == Rounds(7, init, blockWords)
    {
      NextRounds(7 - n, state[..], block);
      Round(state, block);
      block := Permute(block);
    }
    NoRounds(state[..], block);
    FeedForward(state, cv);
  }

  /** The last loop of compress: the halves combined, and the input added to
      the second. */
  method FeedForward(state: array<word>, cv: seq<word>)
    requires state.Length == 16 && |cv| == 8
    modifies state
    ensures forall j :: 0 <= j < 8 ==> state[j] == Xor(old(state[j]), old(state[j + 8]))
    ensures forall j :: 8 <= j < 16 ==> state[j] == Xor(old(state[j]), cv[j - 8])
  {
    hide Xor;
    for i := 0 to 8
      invariant forall j :: 0 <= j < 8 ==>
        state[j] == if j < i then Xor(old(state[j]), old(state[j + 8])) else old(state[j])
      invariant forall j :: 8 <= j < 16 ==>
        state[j] == if j - 8 < i then Xor(old(state[j]), cv[j - 8]) else old(state[j])
    {
      state[i] := Xor(state[i], state[i + 8]);
      state[i + 8] := Xor(state[i + 8], cv[i]);
    }
  }

  lemma NoRounds(s: seq<word>, m: seq<word>)
    requires |s| == 16 && |m| == 16
    ensures Rounds(0, s, m) == s
  {
  }

  /** The final block of a chunk, assembled by whole words and a partial one. */
  method FinalBlockWords(rem: seq<byte>) returns (w: array<word>)
    requires |rem| <= BLOCK_LEN
    ensures fresh(w) && w[..] == BlockWords(rem)
  {
    hide LittleEndian;
    w := new word[16](_ => 0);
    for i := 0 to |rem| / 4
      invariant forall j :: 0 <= j < i ==> w[j] == BlockWords(rem)[j]
      invariant forall j :: i <= j < 16 ==> w[j] == 0
    {
      w[i] := LittleEndian(rem[4 * i], rem[4 * i + 1], rem[4 * i + 2], rem[4 * i + 3]);
    }
    if |rem| % 4 != 0 {
      var tail := rem[|rem| - |rem| % 4..];
      var buf := new byte[4](_ => 0);
      forall i | 0 <= i < |tail| { buf[i] := tail[i]; }
      w[|rem| / 4] := LittleEndian(buf[0], buf[1], buf[2], buf[3]);
    }
    assert LittleEndian(0, 0, 0, 0) == 0 by { ZeroWord(); }
  }

  lemma ZeroWord()
    ensures LittleEndian(0, 0, 0, 0) == 0
  {
  }

  method ProcessChunk(chunk: seq<byte>, counter: nat) returns (cv: seq<word>, out: Output)
    requires |chunk| <= CHUNK_LEN
    ensures out == ChunkOutput(chunk, counter) && cv == ChainingValue(out)
  {
    hide Compress, BlockWords, Or;
    cv := IV;
    var fullBlocks := |chunk| / BLOCK_LEN;
    var lastIsFull := fullBlocks > 0 && |chunk| % BLOCK_LEN == 0;
    var nUpdate := if lastIsFull then fullBlocks - 1 else fullBlocks;
    assert nUpdate == LastBlock(|chunk|);
    for i := 0 to nUpdate
      invariant cv == CvBefore(chunk, counter, i)
    {
      var blockWords := FinalBlockWords(chunk[i * BLOCK_LEN..(i + 1) * BLOCK_LEN]);
      var flags := if i == 0 then CHUNK_START else 0;
      var r := CompressInPlace(cv, blockWords[..], counter, BLOCK_LEN, flags);
      cv := r[..8];
    }
    var rem := chunk[nUpdate * BLOCK_LEN..];
    var blockWords := FinalBlockWords(rem);
    var flags := Or(CHUNK_END, if nUpdate == 0 then CHUNK_START else 0);
    out := Output(cv, blockWords[..], counter, |rem|, flags);
    var r := CompressInPlace(out.inputCv, out.blockWords, out.counter, out.blockLen, out.flags);
    cv := r[..8];
  }

  /** The chaining values of stacked trees. */
  function Cvs(input: seq<byte>, stack: seq<Tree>): (s: seq<seq<word>>)
    ensures |s| == |stack|
  {
    hide ChainingValue;
    seq(|stack|, i requires 0 <= i < |stack| => ChainingValue(NodeOutput(input, stack[i])))
  }

  method RootOutputBytes(out: Output) returns (digest: array<byte>)
    ensures fresh(digest) && digest[..] == RootBytes(out)
  {
    hide Compress, Or, LittleEndianBytes, ToLittleEndian;
    var words := CompressInPlace(out.inputCv, out.blockWords, 0, out.blockLen, Or(out.flags, ROOT));
    ghost var w := words[..8];
    digest := new byte[32](_ => 0);
    for i := 0 to 8
      invariant words[..8] == w
      invariant LittleEndianBytes(w) == digest[..4 * i] + LittleEndianBytes(w[i..])
    {
      NextWordBytes(w, i);
      CopyInto(digest, 4 * i, ToLittleEndian(words[i]));
      assert digest[..4 * (i + 1)] == digest[..4 * i] + digest[4 * i..4 * i + 4];
    }
    NoWordBytes(w[8..]);
  }

  lemma NextWordBytes(w: seq<word>, i: nat)
    requires i < |w|
    ensures LittleEndianBytes(w[i..]) == ToLittleEndian(w[i]) + LittleEndianBytes(w[i + 1..])
  {
    assert w[i..][1..] == w[i + 1..];
  }

  lemma NoWordBytes(w: seq<word>)
    requires w == []
    ensures LittleEndianBytes(w) == []
  {
  }

  /** The body of the chunk loop: chunk idx merged into the stack by the
      trailing zeros of the number of chunks so far. The pop is never of an
      empty stack. */
  method AddChunk(input: seq<byte>, stack: seq<seq<word>>, cv: seq<word>, idx: nat) returns (cvStack: seq<seq<word>>)
    requires stack == Cvs(input, Stack(0, idx)) && cv == ChainingValue(ChunkOutput(Chunk(input, idx), idx))
    ensures cvStack == Cvs(input, Stack(0, idx + 1))
  {
    hide ChunkOutput, Chunk, Shape, Stack, LowBit, IsPowerOfTwo, ChainingValue;
    cvStack := stack;
    var total := idx + 1;
    var newCv := cv;
    ghost var trees := Stack(0, idx);
    ghost var size: nat := 1;
    ghost var left: nat := idx;
    OneChunk(idx);
    while total % 2 == 0
      invariant left + size == idx + 1 && size >= 1 && total >= 1 && Halved(idx + 1, size, total)
      invariant trees == Stack(0, left) && cvStack == Cvs(input, trees)
      invariant newCv == ChainingValue(NodeOutput(input, Shape(left, size)))
      decreases total
    {
      HalvedStep(idx + 1, size, total);
      HalvedSize(idx + 1, size, total);
      StackEnds(0, left);
      MergeShapes(left - size, size);
      var top := cvStack[|cvStack| - 1];
      cvStack := cvStack[..|cvStack| - 1];
      trees := trees[..|trees| - 1];
      newCv := ChainingValue(Parent(top, newCv));
      total := total / 2;
      left := left - size;
      size := 2 * size;
    }
    HalvedSize(idx + 1, size, total);
    StackEnds(0, idx + 1);
    cvStack := cvStack + [newCv];
  }

  /** The last loop: the root output over the right edge of the tree. */
  method FoldStack(input: seq<byte>, cvStack: seq<seq<word>>, ghost trees: seq<Tree>, ghost lastTree: Tree, lastOutput: Output)
    returns (out: Output)
    requires cvStack == Cvs(input, trees) && lastOutput == NodeOutput(input, lastTree)
    ensures out == NodeOutput(input, Fold(trees, lastTree))
  {
    hide ChainingValue, ChunkOutput, Chunk;
    out := lastOutput;
    var remaining := |cvStack|;
    ghost var last := lastTree;
    assert trees[..remaining] == trees;
    while remaining > 0
      invariant 0 <= remaining <= |cvStack|
      invariant out == NodeOutput(input, last)
      invariant Fold(trees[..remaining], last) == Fold(trees, lastTree)
    {
      remaining := remaining - 1;
      FoldTop(trees[..remaining], trees[remaining], last);
      assert trees[..remaining + 1] == trees[..remaining] + [trees[remaining]];
      last := Join(trees[remaining], last);
      out := Parent(cvStack[remaining], ChainingValue(out));
    }
  }

  method Hash(input: seq<byte>) returns (digest: array<byte>)
    ensures fresh(digest) && digest[..] == Blake3Spec.Hash(input)
  {
    hide ChunkOutput, Chunk, NumChunks, Shape, Stack, RootBytes, ChainingValue;
    var cvStack: seq<seq<word>> := [];
    var nChunks := NumChunks(input);
    var lastOutput: Output := Output(IV, IV + IV, 0, 0, 0);
    OneChunk(0);
    for idx := 0 to nChunks
      invariant idx < nChunks && cvStack == Cvs(input, Stack(0, idx))
    {
      var cv, out := ProcessChunk(Chunk(input, idx), idx);
      if idx + 1 == nChunks {
        lastOutput := out;
        break;
      }
      cvStack := AddChunk(input, cvStack, cv, idx);
    }
    var out := FoldStack(input, cvStack, Stack(0, nChunks - 1), Leaf(nChunks - 1), lastOutput);
    FoldIsTree(0, nChunks - 1);
    digest := RootOutputBytes(out);
  }

  lemma OneChunk(i: nat)
    ensures Shape(i, 1) == Leaf(i) && Halved(i + 1, 1, i + 1) && Stack(0, 0) == []
  {
  }
}
