/** What the constants of BLAKE3 are and what tells its nodes apart. */
module Blake3Laws {
  import opened Words
  import opened Blake3Spec
  import Sha256Spec
  import Sha256Laws

  /** The initial chaining value is made of the square roots of the first eight
      primes, like that of SHA-256. */
  lemma IvIsSquareRoots(i: nat)
    requires i < 8
    ensures exists r: nat :: Sha256Laws.SquareRoot(r, Sha256Laws.Prime(i)) && r % Sha256Laws.TWO_32 == IV[i]
  {
    hide Sha256Laws.SquareRoot, Sha256Laws.Prime;
    assert IV[i] == Sha256Spec.H0[i];
    Sha256Laws.H0IsSquareRoots(i);
  }

  // ----- the message words of each round -----

  /** The index of the message word in each place of each round. */
  const SCHEDULE: seq<seq<nat>> := [
    [0, 1, 2, 3, 4, 5, 6, 7, 8, 9, 10, 11, 12, 13, 14, 15],
    [2, 6, 3, 10, 7, 0, 4, 13, 1, 11, 12, 5, 9, 14, 15, 8],
    [3, 4, 10, 12, 13, 2, 7, 14, 6, 5, 9, 0, 11, 15, 8, 1],
    [10, 7, 12, 9, 14, 3, 13, 15, 4, 0, 11, 2, 5, 8, 1, 6],
    [12, 13, 9, 11, 15, 10, 14, 8, 7, 2, 5, 3, 0, 1, 6, 4],
    [9, 14, 11, 5, 8, 12, 15, 1, 13, 3, 0, 10, 2, 6, 4, 7],
    [11, 15, 5, 0, 1, 9, 8, 6, 14, 10, 2, 12, 3, 4, 7, 13]]

  function Permuted(m: seq<word>, n: nat): (r: seq<word>)
    requires |m| == 16
    ensures |r| == 16
  {
    if n == 0 then m else Permute(Permuted(m, n - 1))
  }

  /** After n permutations the words stand as in row n of the schedule. */
  lemma {:induction false} ScheduleIsPermuted(m: seq<word>, n: nat, i: nat)
    requires |m| == 16 && n < 7 && i < 16
    ensures |SCHEDULE[n]| == 16 && SCHEDULE[n][i] < 16 && Permuted(m, n)[i] == m[SCHEDULE[n][i]]
  {
    if n > 0 {
      ScheduleIsPermuted(m, n - 1, Permutation(i));
      NextRow(n, i);
    }
  }

  lemma NextRow(n: nat, i: nat)
    requires 0 < n < 7 && i < 16
    ensures |SCHEDULE[n]| == |SCHEDULE[n - 1]| == 16 && SCHEDULE[n][i] == SCHEDULE[n - 1][Permutation(i)]
  {
  }

  /** Round n mixes the words as they stand in row n. */
  lemma {:induction false} RoundsFollowSchedule(n: nat, s: seq<word>, m: seq<word>)
    requires |s| == 16 && |m| == 16
    ensures
      var w := Permuted(m, n);
      Rounds(n + 1, s, m) == Diagonals(Columns(Rounds(n, s, m), w), w)
    decreases n
  {
    hide Columns, Diagonals, Permute;
    if n > 0 {
      RoundsFollowSchedule(n - 1, Diagonals(Columns(s, m), m), Permute(m));
      PermutedFront(m, n - 1);
    }
  }

  lemma {:induction false} PermutedFront(m: seq<word>, n: nat)
    requires |m| == 16
    ensures Permuted(Permute(m), n) == Permuted(m, n + 1)
  {
    hide Permute;
    if n > 0 { PermutedFront(m, n - 1); }
  }

  // ----- the quarter-rounds -----

  /** Four words of the state, a column or a diagonal of it as a square. */
  datatype Four = Four(a: word, b: word, c: word, d: word)

  /** One word mixed in, with the two distances of rotation. */
  function Half(q: Four, m: word, far: nat, near: nat): Four
    requires far < 32 && near < 32
  {
    var a := Add(Add(q.a, q.b), m);
    var d := RotateRight(Xor(q.d, a), far);
    var c := Add(q.c, d);
    Four(a, RotateRight(Xor(q.b, c), near), c, d)
  }

  function Quarter(q: Four, mx: word, my: word): Four {
    Half(Half(q, mx, 16, 12), my, 8, 7)
  }

  /** Row r of the state, each row turned by so many places. */
  function Line(s: seq<word>, i: nat, turn: nat): Four
    requires |s| == 16 && i < 4
  {
    Four(s[i], s[4 + (i + turn) % 4], s[8 + (i + 2 * turn) % 4], s[12 + (i + 3 * turn) % 4])
  }

  lemma GIsQuarter(s: seq<word>, a: nat, b: nat, c: nat, d: nat, mx: word, my: word)
    requires |s| == 16 && a < b < c < 16 && b < 16 && d < 16 && c != d && a != d && b != d
    ensures
      var r := G(s, a, b, c, d, mx, my);
      && Four(r[a], r[b], r[c], r[d]) == Quarter(Four(s[a], s[b], s[c], s[d]), mx, my)
      && forall i :: 0 <= i < 16 && i !in {a, b, c, d} ==> r[i] == s[i]
  {
    hide Add, Xor, RotateRight;
  }

  /** Each column is mixed with its own two words, and with nothing else. */
  lemma ColumnsAreMixed(s: seq<word>, m: seq<word>, i: nat)
    requires |s| == 16 && |m| == 16 && i < 4
    ensures Line(Columns(s, m), i, 0) == Quarter(Line(s, i, 0), m[2 * i], m[2 * i + 1])
  {
    hide G, Quarter;
    var s1 := G(s, 0, 4, 8, 12, m[0], m[1]);
    var s2 := G(s1, 1, 5, 9, 13, m[2], m[3]);
    var s3 := G(s2, 2, 6, 10, 14, m[4], m[5]);
    GIsQuarter(s, 0, 4, 8, 12, m[0], m[1]);
    GIsQuarter(s1, 1, 5, 9, 13, m[2], m[3]);
    GIsQuarter(s2, 2, 6, 10, 14, m[4], m[5]);
    GIsQuarter(s3, 3, 7, 11, 15, m[6], m[7]);
  }

  /** Then each diagonal with two of the other words. */
  lemma DiagonalsAreMixed(s: seq<word>, m: seq<word>, i: nat)
    requires |s| == 16 && |m| == 16 && i < 4
    ensures Line(Diagonals(s, m), i, 1) == Quarter(Line(s, i, 1), m[8 + 2 * i], m[9 + 2 * i])
  {
    hide G, Quarter;
    var s1 := G(s, 0, 5, 10, 15, m[8], m[9]);
    var s2 := G(s1, 1, 6, 11, 12, m[10], m[11]);
    var s3 := G(s2, 2, 7, 8, 13, m[12], m[13]);
    GIsQuarter(s, 0, 5, 10, 15, m[8], m[9]);
    GIsQuarter(s1, 1, 6, 11, 12, m[10], m[11]);
    GIsQuarter(s2, 2, 7, 8, 13, m[12], m[13]);
    GIsQuarter(s3, 3, 4, 9, 14, m[14], m[15]);
  }

  // ----- the compression -----

  /** The state starts as the chaining value, half of the initial one, the two
      halves of the counter, the length and the flags. */
  predicate Starts(s: seq<word>, cv: seq<word>, counter: nat, len: word, flags: word) {
    && |s| == 16 && s[..8] == cv && s[8..12] == IV[..4]
    && (s[12] as int) + 0x1_0000_0000 * (s[13] as int) == counter % 0x1_0000_0000_0000_0000 && s[14] == len && s[15] == flags
  }

  /** A chaining value is the two halves of the state after seven rounds, folded. */
  lemma CompressionFolds(cv: seq<word>, block: seq<word>, counter: nat, len: word, flags: word, s: seq<word>, i: nat)
    requires |cv| == 8 && |block| == 16 && Starts(s, cv, counter, len, flags) && i < 8
    ensures var v := Rounds(7, s, block);
      Compress(cv, block, counter, len, flags)[i] == Xor(v[i], v[i + 8])
  {
    hide Rounds, Xor;
    var t := InitialState(cv, counter, len, flags);
    SplitCounter(counter, s[12], s[13]);
    assert t[12] == s[12] && t[13] == s[13];
    assert s == s[..8] + s[8..12] + [s[12], s[13], s[14], s[15]];
  }

  lemma SplitCounter(counter: nat, low: word, high: word)
    requires (low as int) + 0x1_0000_0000 * (high as int) == counter % 0x1_0000_0000_0000_0000
    ensures low == counter % 0x1_0000_0000 && high == counter / 0x1_0000_0000 % 0x1_0000_0000
  {
    var q := counter / 0x1_0000_0000_0000_0000;
    assert counter == low + 0x1_0000_0000 * (high + 0x1_0000_0000 * q);
  }

  /** The chaining value after block n of a chunk: the first block alone carries
      the first flag. */
  function AfterBlock(cv: seq<word>, block: seq<byte>, counter: nat, n: nat): (r: seq<word>)
    requires |cv| == 8
    ensures |r| == 8
  {
    Compress(cv, BlockWords(block), counter, 64, if n == 0 then 1 else 0)[..8]
  }

  lemma BlocksChain(chunk: seq<byte>, counter: nat, n: nat)
    requires 0 <= BLOCK_LEN * n <= BLOCK_LEN * (n + 1) <= |chunk|
    ensures CvBefore(chunk, counter, 0) == IV
    ensures CvBefore(chunk, counter, n + 1) ==
      AfterBlock(CvBefore(chunk, counter, n), chunk[BLOCK_LEN * n..BLOCK_LEN * (n + 1)], counter, n)
  {
    hide Compress, BlockWords;
  }

  // ----- what tells the nodes apart -----

  /** The flags of a node's last compression: two bits for the last block of a
      chunk, the first of them only if it is the chunk's first block too, and
      another one for a parent; the root's has a fourth. Nodes of different kinds
      differ in them, and a parent's block is its children's values in order. */
  lemma NodesAreTold(chunk: seq<byte>, counter: nat, left: seq<word>, right: seq<word>)
    requires |chunk| <= CHUNK_LEN && |left| == 8 && |right| == 8
    ensures
      var c, p := ChunkOutput(chunk, counter), Parent(left, right);
      && c.flags == (if |chunk| <= 64 then 3 else 2) && c.counter == counter
      && p.flags == 4 && p.counter == 0 && p.blockLen == 64 && p.inputCv == IV
      && p.blockWords[..8] == left && p.blockWords[8..] == right
      && Or(c.flags, ROOT) == c.flags + 8 && Or(p.flags, ROOT) == 12
  {
    hide Or, CvBefore, BlockWords;
    OrOfFlags();
    var n := LastBlock(|chunk|);
    assert n == 0 <==> |chunk| <= 64;
  }

  lemma OrOfFlags()
    ensures Or(CHUNK_END, CHUNK_START) == 3 && Or(CHUNK_END, 0) == 2
    ensures Or(2, ROOT) == 10 && Or(3, ROOT) == 11 && Or(4, ROOT) == 12
  {
  }
}
