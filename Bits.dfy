/**
 * Exclusive or on unsigned machine words, taken as natural numbers and
 * combined bit by bit from the lowest bit up. Hashes that are built by
 * exclusive or (the Zobrist keys of the boards, the FNV-style hashes) use it.
 */
module Bits {

  function Pow2(n: nat): (p: nat)
    ensures p >= 1
  {
    if n == 0 then 1 else 2 * Pow2(n - 1)
  }

  /** The exclusive or of the lowest bits of x and y. */
  function XorBit(x: nat, y: nat): nat
  {
    if x % 2 == y % 2 then 0 else 1
  }

  function Xor(a: nat, b: nat): nat
    decreases a + b
  {
    if a == 0 then b else if b == 0 then a
    else 2 * Xor(a / 2, b / 2) + XorBit(a, b)
  }

  /** Exclusive or works bit by bit: the lowest bit, then the rest. */
  lemma XorHalf(a: nat, b: nat)
    ensures Xor(a, b) / 2 == Xor(a / 2, b / 2) && Xor(a, b) % 2 == XorBit(a, b)
  {
    if a == 0 {
      assert Xor(0, b / 2) == b / 2;
    } else if b == 0 {
      assert Xor(a / 2, 0) == a / 2;
    }
  }

  lemma SameHalves(x: nat, y: nat)
    requires x / 2 == y / 2 && x % 2 == y % 2
    ensures x == y
  {
  }

  lemma XorZero(a: nat)
    ensures Xor(a, 0) == a && Xor(0, a) == a
  {
  }

  lemma {:induction false} XorSelf(a: nat)
    ensures Xor(a, a) == 0
    decreases a
  {
    if a > 0 {
      XorSelf(a / 2);
    }
  }

  lemma {:induction false} XorComm(a: nat, b: nat)
    ensures Xor(a, b) == Xor(b, a)
    decreases a + b
  {
    if a > 0 && b > 0 {
      XorComm(a / 2, b / 2);
    }
  }

  lemma {:induction false} XorAssoc(a: nat, b: nat, c: nat)
    ensures Xor(Xor(a, b), c) == Xor(a, Xor(b, c))
    decreases a + b + c
  {
    if a + b + c > 0 {
      XorAssoc(a / 2, b / 2, c / 2);
      var ab, bc := Xor(a, b), Xor(b, c);
      XorHalf(a, b);
      XorHalf(b, c);
      XorHalf(ab, c);
      XorHalf(a, bc);
      assert XorBit(ab, c) == XorBit(a, bc);
      SameHalves(Xor(ab, c), Xor(a, bc));
    }
  }

  /** Folding the same word in twice takes it out again. */
  lemma XorCancel(a: nat, b: nat)
    ensures Xor(Xor(a, b), b) == a
  {
    XorAssoc(a, b, b);
    XorSelf(b);
    XorZero(a);
  }

  /** The order in which two words are folded in does not matter. */
  lemma XorSwap(a: nat, x: nat, y: nat)
    ensures Xor(Xor(a, x), y) == Xor(Xor(a, y), x)
  {
    XorAssoc(a, x, y);
    XorAssoc(a, y, x);
    XorComm(x, y);
  }

  /** Two words of n bits give a word of n bits. */
  lemma {:induction false} XorBound(a: nat, b: nat, n: nat)
    requires a < Pow2(n) && b < Pow2(n)
    ensures Xor(a, b) < Pow2(n)
    decreases n
  {
    if a > 0 && b > 0 {
      XorBound(a / 2, b / 2, n - 1);
    }
  }
}
