/** The bit operators on words, bit by bit. The solver reasons about bit vectors
    or about numbers, so each operator is taken over to bit vectors once. */
module WordBits {
  import opened Words

  function Bits(x: word): bv32 { x as bv32 }

  predicate BitOf(v: bv32, i: bv5) { (v >> i) & 1 == 1 }

  /** Bit i of a word, counted from the least significant one; places add up
      modulo 32. */
  predicate Bit(x: word, i: bv5) { BitOf(Bits(x), i) }

  lemma Represents(y: word, v: bv32)
    requires y == v as int
    ensures Bits(y) == v
  {
  }

  // ----- and, or exclusive, not -----

  lemma XorValue(x: word, y: word, a: bv32, b: bv32)
    requires Bits(x) == a && Bits(y) == b
    ensures Xor(x, y) == (a ^ b) as int
  {
  }

  lemma XorBits(x: word, y: word, a: bv32, b: bv32)
    requires Bits(x) == a && Bits(y) == b
    ensures Bits(Xor(x, y)) == a ^ b
  {
    hide Xor, Bits;
    XorValue(x, y, a, b);
    Represents(Xor(x, y), a ^ b);
  }

  lemma AndBits(x: word, y: word, a: bv32, b: bv32)
    requires Bits(x) == a && Bits(y) == b
    ensures Bits(And(x, y)) == a & b
  {
    Represents(And(x, y), a & b);
  }

  lemma NotBits(x: word, a: bv32)
    requires Bits(x) == a
    ensures Bits(Not(x)) == !a
  {
    Represents(Not(x), !a);
  }

  lemma XorBit(a: bv32, b: bv32, i: bv5)
    ensures BitOf(a ^ b, i) == (BitOf(a, i) != BitOf(b, i))
  {
  }

  lemma AndBit(a: bv32, b: bv32, i: bv5)
    ensures BitOf(a & b, i) == (BitOf(a, i) && BitOf(b, i))
    ensures BitOf(!a, i) == !BitOf(a, i)
  {
  }

  lemma Bitwise(x: word, y: word, i: bv5)
    ensures Bit(Xor(x, y), i) == (Bit(x, i) != Bit(y, i))
    ensures Bit(And(x, y), i) == (Bit(x, i) && Bit(y, i))
    ensures Bit(Not(x), i) == !Bit(x, i)
  {
    hide Xor, And, Not, Bits, BitOf;
    var a, b := Bits(x), Bits(y);
    XorBits(x, y, a, b);
    AndBits(x, y, a, b);
    NotBits(x, a);
    XorBit(a, b, i);
    AndBit(a, b, i);
  }

  // ----- rotations and shifts, one lemma for each distance -----

  function Turned(v: bv32, n: nat): bv32
    requires n < 32
  {
    v.RotateRight(n)
  }

  function Shifted(v: bv32, n: nat): bv32
    requires n < 32
  {
    v >> n
  }

  lemma Turned2(x: word, v: bv32)
    requires Bits(x) == v
    ensures Bits(RotateRight(x, 2)) == Turned(v, 2)
  {
    Represents(RotateRight(x, 2), Turned(v, 2));
  }

  lemma TurnedBit2(v: bv32, i: bv5)
    ensures BitOf(Turned(v, 2), i) == BitOf(v, i + 2)
  {
  }

  lemma Rotate2(x: word, i: bv5)
    ensures Bit(RotateRight(x, 2), i) == Bit(x, i + 2)
  {
    hide RotateRight, Bits, Turned, BitOf;
    Turned2(x, Bits(x));
    TurnedBit2(Bits(x), i);
  }

  lemma Turned6(x: word, v: bv32)
    requires Bits(x) == v
    ensures Bits(RotateRight(x, 6)) == Turned(v, 6)
  {
    Represents(RotateRight(x, 6), Turned(v, 6));
  }

  lemma TurnedBit6(v: bv32, i: bv5)
    ensures BitOf(Turned(v, 6), i) == BitOf(v, i + 6)
  {
  }

  lemma Rotate6(x: word, i: bv5)
    ensures Bit(RotateRight(x, 6), i) == Bit(x, i + 6)
  {
    hide RotateRight, Bits, Turned, BitOf;
    Turned6(x, Bits(x));
    TurnedBit6(Bits(x), i);
  }

  lemma Turned7(x: word, v: bv32)
    requires Bits(x) == v
    ensures Bits(RotateRight(x, 7)) == Turned(v, 7)
  {
    Represents(RotateRight(x, 7), Turned(v, 7));
  }

  lemma TurnedBit7(v: bv32, i: bv5)
    ensures BitOf(Turned(v, 7), i) == BitOf(v, i + 7)
  {
  }

  lemma Rotate7(x: word, i: bv5)
    ensures Bit(RotateRight(x, 7), i) == Bit(x, i + 7)
  {
    hide RotateRight, Bits, Turned, BitOf;
    Turned7(x, Bits(x));
    TurnedBit7(Bits(x), i);
  }

  lemma Turned11(x: word, v: bv32)
    requires Bits(x) == v
    ensures Bits(RotateRight(x, 11)) == Turned(v, 11)
  {
    Represents(RotateRight(x, 11), Turned(v, 11));
  }

  lemma TurnedBit11(v: bv32, i: bv5)
    ensures BitOf(Turned(v, 11), i) == BitOf(v, i + 11)
  {
  }

  lemma Rotate11(x: word, i: bv5)
    ensures Bit(RotateRight(x, 11), i) == Bit(x, i + 11)
  {
    hide RotateRight, Bits, Turned, BitOf;
    Turned11(x, Bits(x));
    TurnedBit11(Bits(x), i);
  }

  lemma Turned13(x: word, v: bv32)
    requires Bits(x) == v
    ensures Bits(RotateRight(x, 13)) == Turned(v, 13)
  {
    Represents(RotateRight(x, 13), Turned(v, 13));
  }

  lemma TurnedBit13(v: bv32, i: bv5)
    ensures BitOf(Turned(v, 13), i) == BitOf(v, i + 13)
  {
  }

  lemma Rotate13(x: word, i: bv5)
    ensures Bit(RotateRight(x, 13), i) == Bit(x, i + 13)
  {
    hide RotateRight, Bits, Turned, BitOf;
    Turned13(x, Bits(x));
    TurnedBit13(Bits(x), i);
  }

  lemma Turned17(x: word, v: bv32)
    requires Bits(x) == v
    ensures Bits(RotateRight(x, 17)) == Turned(v, 17)
  {
    Represents(RotateRight(x, 17), Turned(v, 17));
  }

  lemma TurnedBit17(v: bv32, i: bv5)
    ensures BitOf(Turned(v, 17), i) == BitOf(v, i + 17)
  {
  }

  lemma Rotate17(x: word, i: bv5)
    ensures Bit(RotateRight(x, 17), i) == Bit(x, i + 17)
  {
    hide RotateRight, Bits, Turned, BitOf;
    Turned17(x, Bits(x));
    TurnedBit17(Bits(x), i);
  }

  lemma Turned18(x: word, v: bv32)
    requires Bits(x) == v
    ensures Bits(RotateRight(x, 18)) == Turned(v, 18)
  {
    Represents(RotateRight(x, 18), Turned(v, 18));
  }

  lemma TurnedBit18(v: bv32, i: bv5)
    ensures BitOf(Turned(v, 18), i) == BitOf(v, i + 18)
  {
  }

  lemma Rotate18(x: word, i: bv5)
    ensures Bit(RotateRight(x, 18), i) == Bit(x, i + 18)
  {
    hide RotateRight, Bits, Turned, BitOf;
    Turned18(x, Bits(x));
    TurnedBit18(Bits(x), i);
  }

  lemma Turned19(x: word, v: bv32)
    requires Bits(x) == v
    ensures Bits(RotateRight(x, 19)) == Turned(v, 19)
  {
    Represents(RotateRight(x, 19), Turned(v, 19));
  }

  lemma TurnedBit19(v: bv32, i: bv5)
    ensures BitOf(Turned(v, 19), i) == BitOf(v, i + 19)
  {
  }

  lemma Rotate19(x: word, i: bv5)
    ensures Bit(RotateRight(x, 19), i) == Bit(x, i + 19)
  {
    hide RotateRight, Bits, Turned, BitOf;
    Turned19(x, Bits(x));
    TurnedBit19(Bits(x), i);
  }

  lemma Turned22(x: word, v: bv32)
    requires Bits(x) == v
    ensures Bits(RotateRight(x, 22)) == Turned(v, 22)
  {
    Represents(RotateRight(x, 22), Turned(v, 22));
  }

  lemma TurnedBit22(v: bv32, i: bv5)
    ensures BitOf(Turned(v, 22), i) == BitOf(v, i + 22)
  {
  }

  lemma Rotate22(x: word, i: bv5)
    ensures Bit(RotateRight(x, 22), i) == Bit(x, i + 22)
  {
    hide RotateRight, Bits, Turned, BitOf;
    Turned22(x, Bits(x));
    TurnedBit22(Bits(x), i);
  }

  lemma Turned25(x: word, v: bv32)
    requires Bits(x) == v
    ensures Bits(RotateRight(x, 25)) == Turned(v, 25)
  {
    Represents(RotateRight(x, 25), Turned(v, 25));
  }

  lemma TurnedBit25(v: bv32, i: bv5)
    ensures BitOf(Turned(v, 25), i) == BitOf(v, i + 25)
  {
  }

  lemma Rotate25(x: word, i: bv5)
    ensures Bit(RotateRight(x, 25), i) == Bit(x, i + 25)
  {
    hide RotateRight, Bits, Turned, BitOf;
    Turned25(x, Bits(x));
    TurnedBit25(Bits(x), i);
  }

  lemma Shifted3(x: word, v: bv32)
    requires Bits(x) == v
    ensures Bits(ShiftRight(x, 3)) == Shifted(v, 3)
  {
    Represents(ShiftRight(x, 3), Shifted(v, 3));
  }

  lemma ShiftedBit3(v: bv32, i: bv5)
    ensures BitOf(Shifted(v, 3), i) == (i < 29 && BitOf(v, i + 3))
  {
  }

  lemma Shift3(x: word, i: bv5)
    ensures Bit(ShiftRight(x, 3), i) == (i < 29 && Bit(x, i + 3))
  {
    hide ShiftRight, Bits, Shifted, BitOf;
    Shifted3(x, Bits(x));
    ShiftedBit3(Bits(x), i);
  }

  lemma Shifted10(x: word, v: bv32)
    requires Bits(x) == v
    ensures Bits(ShiftRight(x, 10)) == Shifted(v, 10)
  {
    Represents(ShiftRight(x, 10), Shifted(v, 10));
  }

  lemma ShiftedBit10(v: bv32, i: bv5)
    ensures BitOf(Shifted(v, 10), i) == (i < 22 && BitOf(v, i + 10))
  {
  }

  lemma Shift10(x: word, i: bv5)
    ensures Bit(ShiftRight(x, 10), i) == (i < 22 && Bit(x, i + 10))
  {
    hide ShiftRight, Bits, Shifted, BitOf;
    Shifted10(x, Bits(x));
    ShiftedBit10(Bits(x), i);
  }
}
