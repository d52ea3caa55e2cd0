/** The chaining-value stack of blake3.rs in terms of the tree: after k chunks
    it holds one complete subtree per one-bit of k, largest first. */
module Blake3Tree {
  import opened Blake3Spec

  /** The trees stacked over the k chunks from chunk first on. */
  function Stack(first: nat, k: nat): (s: seq<Tree>)
    decreases k
  {
    if k == 0 then []
    else
      var p := PowerOfTwoFloor(k);
      [Shape(first, p)] + Stack(first + p, k - p)
  }

  /** The lowest one-bit of n. */
  function LowBit(n: nat): (p: nat)
    requires n >= 1
    ensures 1 <= p <= n
  {
    if n % 2 == 1 then 1 else 2 * LowBit(n / 2)
  }

  lemma {:induction false} HighAndLowBit(n: nat)
    requires n >= 1
    ensures
      var p := PowerOfTwoFloor(n);
      if n == p then LowBit(n) == p else LowBit(n) == LowBit(n - p) && n - LowBit(n) >= p
  {
    hide IsPowerOfTwo;
    if n > 1 { HighAndLowBit(n / 2); }
  }

  lemma {:induction false} PowerOfTwoFloorUnique(n: nat, p: nat)
    requires IsPowerOfTwo(p) && p <= n < 2 * p
    ensures PowerOfTwoFloor(n) == p
  {
    if n > 1 { PowerOfTwoFloorUnique(n / 2, p / 2); }
  }

  /** The stack ends in a complete subtree of the size of k's lowest bit. */
  lemma {:induction false} StackEnds(first: nat, k: nat)
    requires k >= 1
    ensures
      var size := LowBit(k);
      Stack(first, k) == Stack(first, k - size) + [Shape(first + (k - size), size)]
    decreases k
  {
    hide IsPowerOfTwo, Shape, LowBit, PowerOfTwoFloor;
    var p := PowerOfTwoFloor(k);
    HighAndLowBit(k);
    if k > p {
      StackEnds(first + p, k - p);
      PowerOfTwoFloorUnique(k - LowBit(k), p);
    }
  }

  /** total is n after halving size, a power of two, away. */
  ghost predicate Halved(n: nat, size: nat, total: nat) {
    if size == 1 then total == n else size > 0 && size % 2 == 0 && n % 2 == 0 && Halved(n / 2, size / 2, total)
  }

  lemma {:induction false} HalvedSize(n: nat, size: nat, total: nat)
    requires n >= 1 && Halved(n, size, total)
    ensures 1 <= size <= n && total >= 1 && IsPowerOfTwo(size)
    ensures total % 2 == 1 ==> LowBit(n) == size
  {
    if size > 1 { HalvedSize(n / 2, size / 2, total); }
  }

  lemma {:induction false} HalvedStep(n: nat, size: nat, total: nat)
    requires n >= 1 && Halved(n, size, total) && total % 2 == 0 && total >= 1
    ensures n > size && Halved(n, 2 * size, total / 2) && LowBit(n - size) == size
  {
    hide IsPowerOfTwo;
    if size == 1 {
      assert Halved(n / 2, 1, total / 2);
    } else {
      HalvedStep(n / 2, size / 2, total);
      assert (n - size) / 2 == n / 2 - size / 2;
    }
  }

  /** The stack folded onto one more tree, from its top down. */
  function Fold(stack: seq<Tree>, last: Tree): Tree {
    if stack == [] then last else Join(stack[0], Fold(stack[1..], last))
  }

  lemma {:induction false} FoldTop(stack: seq<Tree>, top: Tree, last: Tree)
    ensures Fold(stack + [top], last) == Fold(stack, Join(top, last))
  {
    if stack != [] {
      assert (stack + [top])[1..] == stack[1..] + [top];
      FoldTop(stack[1..], top, last);
    }
  }

  /** Folding the stack over the first k chunks onto the next chunk builds the
      right edge of the tree over k + 1 chunks. */
  lemma {:induction false} FoldIsTree(first: nat, k: nat)
    ensures Fold(Stack(first, k), Leaf(first + k)) == Shape(first, k + 1)
    decreases k
  {
    hide IsPowerOfTwo, PowerOfTwoFloor;
    if k > 0 {
      var p := PowerOfTwoFloor(k);
      FoldIsTree(first + p, k - p);
      assert Stack(first, k)[1..] == Stack(first + p, k - p);
    }
  }

  /** Two neighbouring complete subtrees of one size make one of twice it. */
  lemma MergeShapes(first: nat, size: nat)
    requires IsPowerOfTwo(size)
    ensures size >= 1 && Shape(first, 2 * size) == Join(Shape(first, size), Shape(first + size, size))
  {
    hide PowerOfTwoFloor;
    PowerOfTwoFloorUnique(2 * size - 1, size);
  }
}
