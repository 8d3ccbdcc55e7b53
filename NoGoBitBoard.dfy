/**
 * The NoGo bitboard: a set of board positions kept as the bits of two
 * 64-bit words, position i being bit `i & 63` of word `i >> 6`: for the
 * positions 0 .. 127 the two words hold, bit i of word 0 below 64 and bit
 * i - 64 of word 1 from 64 on. The 9x9 board has 81 positions, so
 * 81 / 64 + 1 = 2 words. A position is a `bv7`, the numbers 0 .. 127
 * the two words can address; the source passes an `int` and takes its
 * word `i >> 6` and bit `i & 63` alike.
 *
 * The words are `long long` in the source. They are modelled as `bv64`:
 * `|`, `&`, `~` and `^` act on the bits alike, `-x` is two's complement
 * negation (which the compiler produces for the one word the C++ standard
 * leaves undefined, the word holding only bit 63), and every right shift
 * in the source is masked so that the sign bit an arithmetic shift copies
 * in is cleared again, so a logical shift gives the same result.
 *
 * The specification of a word is `Pop`, the number of its set bits: the
 * sum of its lowest bit, the lowest bit of the word shifted right once,
 * and so on 64 times. The source's own bit tricks are proved against it.
 */
module NoGoBitBoard {

  /** kNOGO_GRIDS_NUM: the 81 positions of the 9x9 board. */
  const GridsNum: int := 81

  /** The positions the two words can hold. */
  const Capacity: int := 128

  // ---------------------------------------------------------------------
  // Sums along a sequence of values

  /** `next` applied n times to v. */
  function Iterate<T>(next: T -> T, n: nat, v: T): T
    decreases n
  {
    if n == 0 then v else Iterate(next, n - 1, next(v))
  }

  /** lo(v) + lo(next(v)) + lo(next(next(v))) + ..., n terms. */
  function Sum<T>(lo: T -> int, next: T -> T, v: T, n: nat): int
    decreases n
  {
    if n == 0 then 0 else lo(v) + Sum(lo, next, next(v), n - 1)
  }

  /**
   * A round that turns each value into one whose field holds the sum of
   * two neighbouring fields keeps the total, when taking one step of the
   * new kind is taking two of the old.
   */
  lemma {:induction false} PairSums<T>(lo: T -> int, next: T -> T, lo2: T -> int, next2: T -> T, round: T -> T, v: T, n: nat)
    requires forall u {:trigger lo2(round(u))} :: lo2(round(u)) == lo(u) + lo(next(u))
    requires forall u {:trigger next2(round(u))} :: next2(round(u)) == round(next2(u))
    requires forall u {:trigger next(next(u))} :: next(next(u)) == next2(u)
    ensures Sum(lo2, next2, round(v), n) == Sum(lo, next, v, 2 * n)
    decreases n
  {
    if n > 0 {
      PairSums(lo, next, lo2, next2, round, next2(v), n - 1);
      assert Sum(lo, next, v, 2 * n) == lo(v) + lo(next(v)) + Sum(lo, next, next(next(v)), 2 * n - 2);
    }
  }

  /** Taking 2n steps of one kind is taking n steps of a kind twice as long. */
  lemma {:induction false} IteratePairs<T>(next: T -> T, next2: T -> T, v: T, n: nat)
    requires forall u {:trigger next(next(u))} :: next(next(u)) == next2(u)
    ensures Iterate(next, 2 * n, v) == Iterate(next2, n, v)
    decreases n
  {
    if n > 0 {
      IteratePairs(next, next2, next2(v), n - 1);
      assert Iterate(next, 2 * n, v) == Iterate(next, 2 * n - 2, next(next(v)));
    }
  }

  /** Adding two values whose fields do not overflow adds their totals. */
  lemma {:induction false} AddSums<T>(lo: T -> int, next: T -> T, plus: (T, T) -> T, narrow: T -> bool, a: T, b: T, n: nat)
    requires narrow(a) && narrow(b)
    requires forall u, w {:trigger lo(plus(u, w))} :: narrow(u) && narrow(w) ==> lo(plus(u, w)) == lo(u) + lo(w)
    requires forall u, w {:trigger next(plus(u, w))} :: narrow(u) && narrow(w) ==> next(plus(u, w)) == plus(next(u), next(w))
    requires forall u {:trigger narrow(next(u))} :: narrow(u) ==> narrow(next(u))
    ensures Sum(lo, next, plus(a, b), n) == Sum(lo, next, a, n) + Sum(lo, next, b, n)
    decreases n
  {
    if n > 0 {
      AddSums(lo, next, plus, narrow, next(a), next(b), n - 1);
    }
  }

  /** A sum of n terms each 0 or 1 lies between 0 and n. */
  lemma {:induction false} SumBound<T>(lo: T -> int, next: T -> T, v: T, n: nat)
    requires forall u {:trigger lo(u)} :: lo(u) == 0 || lo(u) == 1
    ensures 0 <= Sum(lo, next, v, n) <= n
    decreases n
  {
    if n > 0 {
      SumBound(lo, next, next(v), n - 1);
    }
  }

  /**
   * When a value is "zero" exactly when its term is 0 and the next value is
   * zero, is "one" exactly when its term is 1 and the next is zero or its
   * term is 0 and the next is one, and the n-th value is zero, then the sum
   * of n terms is 0 or 1 exactly when the value is zero or one.
   */
  lemma {:induction false} ZeroOrOne<T>(lo: T -> int, next: T -> T, zero: T -> bool, one: T -> bool, v: T, n: nat)
    requires zero(Iterate(next, n, v))
    requires forall u {:trigger lo(u)} :: lo(u) == 0 || lo(u) == 1
    requires forall u {:trigger one(u)} :: zero(u) ==> !one(u)
    requires forall u {:trigger zero(next(u))} :: zero(u) <==> lo(u) == 0 && zero(next(u))
    requires forall u {:trigger one(u)} :: one(u) <==> (lo(u) == 1 && zero(next(u))) || (lo(u) == 0 && one(next(u)))
    ensures Sum(lo, next, v, n) == 0 <==> zero(v)
    ensures Sum(lo, next, v, n) == 1 <==> one(v)
    decreases n
  {
    if n > 0 {
      assert Iterate(next, n, v) == Iterate(next, n - 1, next(v));
      ZeroOrOne(lo, next, zero, one, next(v), n - 1);
      SumBound(lo, next, next(v), n - 1);
      assert zero(v) <==> lo(v) == 0 && zero(next(v));
      assert one(v) <==> (lo(v) == 1 && zero(next(v))) || (lo(v) == 0 && one(next(v)));
    } else {
      assert !one(v);
    }
  }

  // ---------------------------------------------------------------------
  // Fields of a word, their shifts and the rounds of `Count()`

  /** The lowest field of 1, 2, 4, ..., 32 bits of u, as a number. */
  function Lo1(u: bv64): int { ((u & 1) as bv1) as int }
  function Lo2(u: bv64): int { ((u & 3) as bv2) as int }
  function Lo4(u: bv64): int { ((u & 0xf) as bv4) as int }
  function Lo8(u: bv64): int { ((u & 0xff) as bv8) as int }
  function Lo16(u: bv64): int { ((u & 0xffff) as bv16) as int }
  function Lo32(u: bv64): int { ((u & 0xffff_ffff) as bv32) as int }

  /** u shifted right by one field of 1, 2, 4, ..., 32 bits. */
  function Shr1(u: bv64): bv64 { u >> 1 }
  function Shr2(u: bv64): bv64 { u >> 2 }
  function Shr4(u: bv64): bv64 { u >> 4 }
  function Shr8(u: bv64): bv64 { u >> 8 }
  function Shr16(u: bv64): bv64 { u >> 16 }
  function Shr32(u: bv64): bv64 { u >> 32 }

  /** `v += v1` in `Count()`. */
  function Plus(a: bv64, b: bv64): bv64 { a + b }

  /** How many of the 64 bits of x are set. */
  function Pop(x: bv64): int
  {
    Sum(Lo1, Shr1, x, 64)
  }

  /** The rounds of `Count()`: each field of the result holds the sum of two neighbouring fields of u. */
  function Round1(u: bv64): bv64 { (u & 0x5555_5555_5555_5555) + ((u >> 1) & 0x5555_5555_5555_5555) }
  function Round2(u: bv64): bv64 { (u & 0x3333_3333_3333_3333) + ((u >> 2) & 0x3333_3333_3333_3333) }
  function Round3(u: bv64): bv64 { (u & 0x0f0f_0f0f_0f0f_0f0f) + ((u >> 4) & 0x0f0f_0f0f_0f0f_0f0f) }
  function Round4(u: bv64): bv64 { (u & 0x00ff_00ff_00ff_00ff) + ((u >> 8) & 0x00ff_00ff_00ff_00ff) }
  function Round5(u: bv64): bv64 { (u & 0x0000_ffff_0000_ffff) + ((u >> 16) & 0x0000_ffff_0000_ffff) }
  function Last(u: bv64): bv64 { (u & 0x0000_0000_ffff_ffff) + (u >> 32) }

  /** `Count()` on the two words: two rounds on each word, their sum, then the remaining rounds. */
  function SwarCount(w0: bv64, w1: bv64): bv64
  {
    Last(Round5(Round4(Round3(Plus(Round2(Round1(w0)), Round2(Round1(w1)))))))
  }

  /** Every field of 4 bits has its top bit clear. */
  predicate Narrow(u: bv64) { u & 0x8888_8888_8888_8888 == 0 }

  /** The test of `CheckIsOne()` on one word: x has no set bit other than its lowest. */
  predicate LowestOnly(x: bv64)
  {
    x ^ ((0 - x) & x) == 0
  }

  predicate IsZero(x: bv64) { x == 0 }

  /** Exactly one bit of x is set, as `CheckIsOne()` tests it. */
  predicate IsOne(x: bv64) { x != 0 && LowestOnly(x) }

  /** `CheckIsOne()` on the two words. */
  predicate CheckIsOneWords(w0: bv64, w1: bv64)
  {
    if w0 == 0 then w1 != 0 && LowestOnly(w1)
    else if w1 == 0 then LowestOnly(w0)
    else false
  }

  // ---------------------------------------------------------------------
  // Positions

  /** The word `i >> 6` of position i. */
  function WordOf(i: bv7): (w: int)
    ensures w == 0 || w == 1
  {
    if i < 64 then 0 else 1
  }

  /** The bit number `i & 63` of position i in its word. */
  function BitOf(i: bv7): (b: bv7)
    ensures b < 64
  {
    i & 63
  }

  /** The mask `1LL << (i & 63)` of position i. */
  function MaskOf(i: bv7): bv64
  {
    1 << BitOf(i)
  }

  /** The mask `~(1LL << (i & 63))` that clears position i. */
  function ClearOf(i: bv7): bv64
  {
    !MaskOf(i)
  }

  /** Position i is set in the two words. */
  ghost predicate Has(words: seq<bv64>, i: bv7)
    requires |words| == 2
  {
    words[WordOf(i)] & MaskOf(i) != 0
  }

  /** The words after `AddPosition(i)`. */
  function Added(words: seq<bv64>, i: bv7): (r: seq<bv64>)
    requires |words| == 2
    ensures |r| == 2
  {
    if WordOf(i) == 0 then [words[0] | MaskOf(i), words[1]]
    else [words[0], words[1] | MaskOf(i)]
  }

  /** The words after `DeletePosition(i)`. */
  function Deleted(words: seq<bv64>, i: bv7): (r: seq<bv64>)
    requires |words| == 2
    ensures |r| == 2
  {
    if WordOf(i) == 0 then [words[0] & ClearOf(i), words[1]]
    else [words[0], words[1] & ClearOf(i)]
  }

  class NoGoBitBoard {
    /** `bitboard_`: the two words. */
    const bitboard: array<bv64>

    ghost predicate Valid()
      reads this
    {
      bitboard.Length == 2
    }

    /** The board as a sequence of its two words. */
    ghost function Words(): (r: seq<bv64>)
      requires Valid()
      reads this, bitboard
      ensures |r| == 2
    {
      bitboard[..]
    }

    /** `NoGoBitBoard()`: an empty board. */
    constructor()
      ensures Valid() && fresh(bitboard) && Words() == [0, 0]
    {
      bitboard := new bv64[2];
      new;
      Reset();
    }

    /** `Reset()`: both words cleared. */
    method Reset()
      requires Valid()
      modifies bitboard
      ensures Words() == [0, 0]
    {
      bitboard[0] := 0;
      bitboard[1] := 0;
    }

    /** `operator=`: both words copied from `rhs`. */
    method Assign(rhs: NoGoBitBoard)
      requires Valid() && rhs.Valid()
      modifies bitboard
      ensures Words() == old(rhs.Words())
    {
      var r0, r1 := rhs.bitboard[0], rhs.bitboard[1];
      bitboard[0] := r0;
      bitboard[1] := r1;
    }

    /** `Count()`: how many positions are set. */
    function Count(): (r: int)
      requires Valid()
      reads this, bitboard
      ensures r == Pop(bitboard[0]) + Pop(bitboard[1]) && 0 <= r <= Capacity
    {
      SwarIsPop(bitboard[0], bitboard[1]);
      SwarCount(bitboard[0], bitboard[1]) as int
    }

    /** `GetPosition(i)`: whether position i is set. */
    function GetPosition(i: bv7): (r: bool)
      requires Valid()
      reads this, bitboard
      ensures r == Has(Words(), i)
    {
      bitboard[WordOf(i)] & MaskOf(i) != 0
    }

    /** `DeletePosition(i)`: position i cleared in its word. */
    method DeletePosition(i: bv7)
      requires Valid()
      modifies bitboard
      ensures Words() == Deleted(old(Words()), i)
    {
      bitboard[WordOf(i)] := bitboard[WordOf(i)] & ClearOf(i);
    }

    /** `AddPosition(i)`: position i set in its word. */
    method AddPosition(i: bv7)
      requires Valid()
      modifies bitboard
      ensures Words() == Added(old(Words()), i)
    {
      bitboard[WordOf(i)] := bitboard[WordOf(i)] | MaskOf(i);
    }

    /** `operator|=(rhs)`: each word or-ed with the word of `rhs`, which is passed by value. */
    method UnionWith(rhs: NoGoBitBoard)
      requires Valid() && rhs.Valid()
      modifies bitboard
      ensures bitboard[0] == old(bitboard[0]) | old(rhs.bitboard[0])
      ensures bitboard[1] == old(bitboard[1]) | old(rhs.bitboard[1])
    {
      var r0, r1 := rhs.bitboard[0], rhs.bitboard[1];
      bitboard[0] := bitboard[0] | r0;
      bitboard[1] := bitboard[1] | r1;
    }

    /** `Isempty()`: no position is set. */
    function IsEmpty(): (r: bool)
      requires Valid()
      reads this, bitboard
      ensures r <==> Pop(bitboard[0]) + Pop(bitboard[1]) == 0
    {
      PopZeroOne(bitboard[0]);
      PopZeroOne(bitboard[1]);
      PopBound(bitboard[0]);
      PopBound(bitboard[1]);
      bitboard[0] == 0 && bitboard[1] == 0
    }

    /** `CheckIsOne()`: exactly one position is set. */
    function CheckIsOne(): (r: bool)
      requires Valid()
      reads this, bitboard
      ensures r <==> Pop(bitboard[0]) + Pop(bitboard[1]) == 1
    {
      CheckIsOneIsPop(bitboard[0], bitboard[1]);
      CheckIsOneWords(bitboard[0], bitboard[1])
    }
  }

  // ---------------------------------------------------------------------
  // Positions: adding, deleting, union

  /** Two positions of the same word have masks with no bit in common. */
  lemma MaskDistinct(i: bv7, k: bv7)
    requires WordOf(i) == WordOf(k) && i != k
    ensures MaskOf(i) & MaskOf(k) == 0
  {
  }

  lemma MaskNonzero(i: bv7)
    ensures MaskOf(i) != 0
  {
  }

  /** After `AddPosition(i)`, position i is set and every other position is as it was. */
  lemma AddedHas(words: seq<bv64>, i: bv7, k: bv7)
    requires |words| == 2
    ensures Has(Added(words, i), k) == (k == i || Has(words, k))
  {
    MaskNonzero(k);
    if WordOf(k) == WordOf(i) && k != i {
      MaskDistinct(i, k);
    }
  }

  /** After `DeletePosition(i)`, position i is clear and every other position is as it was. */
  lemma DeletedHas(words: seq<bv64>, i: bv7, k: bv7)
    requires |words| == 2
    ensures Has(Deleted(words, i), k) == (k != i && Has(words, k))
  {
    if WordOf(k) == WordOf(i) && k != i {
      MaskDistinct(i, k);
    }
  }

  /** `operator|=` makes the union of the two sets of positions. */
  lemma UnionHas(a: seq<bv64>, b: seq<bv64>, k: bv7)
    requires |a| == 2 && |b| == 2
    ensures Has([a[0] | b[0], a[1] | b[1]], k) == (Has(a, k) || Has(b, k))
  {
  }

  /** A set position is counted: the board holding it is not empty. */
  lemma HasCounted(words: seq<bv64>, k: bv7)
    requires |words| == 2 && Has(words, k)
    ensures Pop(words[0]) + Pop(words[1]) >= 1
  {
    PopZeroOne(words[WordOf(k)]);
    PopBound(words[0]);
    PopBound(words[1]);
  }

  /** After `Reset()`, no position is set. */
  lemma ResetEmpty(k: bv7)
    ensures !Has([0, 0], k)
  {
  }

  // ---------------------------------------------------------------------
  // Count: each round keeps the total of the fields

  /*
   * Each field fact below is proved on the bits of one word, casting the
   * fields to bit-vectors just wide enough to hold them, so that their sum
   * is widened before it is added and never overflows.
   */

  lemma Widen1(a: bv1, b: bv1) ensures (a as bv2 + b as bv2) as int == a as int + b as int {}
  lemma Widen2(a: bv2, b: bv2) ensures (a as bv4 + b as bv4) as int == a as int + b as int {}
  lemma Widen3(a: bv3, b: bv3) ensures (a as bv4 + b as bv4) as int == a as int + b as int {}
  lemma Widen4(a: bv4, b: bv4) ensures (a as bv8 + b as bv8) as int == a as int + b as int {}
  lemma Widen8(a: bv8, b: bv8) ensures (a as bv16 + b as bv16) as int == a as int + b as int {}
  lemma Widen16(a: bv16, b: bv16) ensures (a as bv32 + b as bv32) as int == a as int + b as int {}
  lemma WidenTo4(a: bv3) ensures (a as bv4) as int == a as int {}

  lemma Cast1(u: bv64)
    ensures Lo2(Round1(u)) == (((u & 1) as bv1) as bv2 + (((u >> 1) & 1) as bv1) as bv2) as int
  {
  }

  lemma Cast2(u: bv64)
    ensures Lo4(Round2(u)) == (((u & 3) as bv2) as bv4 + (((u >> 2) & 3) as bv2) as bv4) as int
  {
  }

  lemma Cast3(u: bv64)
    ensures Lo8(Round3(u)) == (((u & 0xf) as bv4) as bv8 + (((u >> 4) & 0xf) as bv4) as bv8) as int
  {
  }

  lemma Cast4(u: bv64)
    ensures Lo16(Round4(u)) == (((u & 0xff) as bv8) as bv16 + (((u >> 8) & 0xff) as bv8) as bv16) as int
  {
  }

  lemma Cast5(u: bv64)
    ensures Lo32(Round5(u)) == (((u & 0xffff) as bv16) as bv32 + (((u >> 16) & 0xffff) as bv16) as bv32) as int
  {
  }

  lemma LowOfRound1(u: bv64)
    ensures Lo2(Round1(u)) == Lo1(u) + Lo1(Shr1(u))
  {
    Cast1(u);
    Widen1((u & 1) as bv1, ((u >> 1) & 1) as bv1);
  }

  lemma LowOfRound2(u: bv64)
    ensures Lo4(Round2(u)) == Lo2(u) + Lo2(Shr2(u))
  {
    Cast2(u);
    Widen2((u & 3) as bv2, ((u >> 2) & 3) as bv2);
  }

  lemma LowOfRound3(u: bv64)
    ensures Lo8(Round3(u)) == Lo4(u) + Lo4(Shr4(u))
  {
    Cast3(u);
    Widen4((u & 0xf) as bv4, ((u >> 4) & 0xf) as bv4);
  }

  lemma LowOfRound4(u: bv64)
    ensures Lo16(Round4(u)) == Lo8(u) + Lo8(Shr8(u))
  {
    Cast4(u);
    Widen8((u & 0xff) as bv8, ((u >> 8) & 0xff) as bv8);
  }

  lemma LowOfRound5(u: bv64)
    ensures Lo32(Round5(u)) == Lo16(u) + Lo16(Shr16(u))
  {
    Cast5(u);
    Widen16((u & 0xffff) as bv16, ((u >> 16) & 0xffff) as bv16);
  }

  lemma ShiftOfRound1(u: bv64) ensures Round1(u) >> 2 == Round1(u >> 2) {}
  lemma ShiftOfRound2(u: bv64) ensures Round2(u) >> 4 == Round2(u >> 4) {}
  lemma ShiftOfRound3(u: bv64) ensures Round3(u) >> 8 == Round3(u >> 8) {}
  lemma ShiftOfRound4(u: bv64) ensures Round4(u) >> 16 == Round4(u >> 16) {}

  lemma HighOfRound5(u: bv64)
    ensures Round5(u) >> 32 == ((u >> 32) & 0xffff) + ((u >> 48) & 0xffff)
  {
  }

  lemma RoundOfHigh5(u: bv64)
    ensures Round5(u >> 32) == ((u >> 32) & 0xffff) + ((u >> 48) & 0xffff)
  {
  }

  lemma ShiftOfRound5(u: bv64)
    ensures Round5(u) >> 32 == Round5(u >> 32)
  {
    HighOfRound5(u);
    RoundOfHigh5(u);
  }

  lemma Shr1Twice(u: bv64) ensures Shr1(u >> 1) == u >> 2 {}
  lemma Shr2Twice(u: bv64) ensures Shr2(u >> 2) == u >> 4 {}
  lemma Shr4Twice(u: bv64) ensures Shr4(u >> 4) == u >> 8 {}
  lemma Shr8Twice(u: bv64) ensures Shr8(u >> 8) == u >> 16 {}
  lemma Shr16Twice(u: bv64) ensures Shr16(u >> 16) == u >> 32 {}

  lemma Twice()
    ensures forall u {:trigger Shr1(Shr1(u))} :: Shr1(Shr1(u)) == Shr2(u)
    ensures forall u {:trigger Shr2(Shr2(u))} :: Shr2(Shr2(u)) == Shr4(u)
    ensures forall u {:trigger Shr4(Shr4(u))} :: Shr4(Shr4(u)) == Shr8(u)
    ensures forall u {:trigger Shr8(Shr8(u))} :: Shr8(Shr8(u)) == Shr16(u)
    ensures forall u {:trigger Shr16(Shr16(u))} :: Shr16(Shr16(u)) == Shr32(u)
  {
    forall u ensures Shr1(Shr1(u)) == Shr2(u) { Shr1Twice(u); }
    forall u ensures Shr2(Shr2(u)) == Shr4(u) { Shr2Twice(u); }
    forall u ensures Shr4(Shr4(u)) == Shr8(u) { Shr4Twice(u); }
    forall u ensures Shr8(Shr8(u)) == Shr16(u) { Shr8Twice(u); }
    forall u ensures Shr16(Shr16(u)) == Shr32(u) { Shr16Twice(u); }
  }

  /** The first round: the fields of 2 bits hold the bit count of the word. */
  lemma Level1(v: bv64)
    ensures Sum(Lo2, Shr2, Round1(v), 32) == Pop(v)
  {
    Twice();
    forall u ensures Lo2(Round1(u)) == Lo1(u) + Lo1(Shr1(u)) { LowOfRound1(u); }
    forall u ensures Shr2(Round1(u)) == Round1(Shr2(u)) { ShiftOfRound1(u); }
    PairSums(Lo1, Shr1, Lo2, Shr2, Round1, v, 32);
  }

  lemma Level2(v: bv64)
    ensures Sum(Lo4, Shr4, Round2(v), 16) == Sum(Lo2, Shr2, v, 32)
  {
    Twice();
    forall u ensures Lo4(Round2(u)) == Lo2(u) + Lo2(Shr2(u)) { LowOfRound2(u); }
    forall u ensures Shr4(Round2(u)) == Round2(Shr4(u)) { ShiftOfRound2(u); }
    PairSums(Lo2, Shr2, Lo4, Shr4, Round2, v, 16);
  }

  lemma Level3(v: bv64)
    ensures Sum(Lo8, Shr8, Round3(v), 8) == Sum(Lo4, Shr4, v, 16)
  {
    Twice();
    forall u ensures Lo8(Round3(u)) == Lo4(u) + Lo4(Shr4(u)) { LowOfRound3(u); }
    forall u ensures Shr8(Round3(u)) == Round3(Shr8(u)) { ShiftOfRound3(u); }
    PairSums(Lo4, Shr4, Lo8, Shr8, Round3, v, 8);
  }

  lemma Level4(v: bv64)
    ensures Sum(Lo16, Shr16, Round4(v), 4) == Sum(Lo8, Shr8, v, 8)
  {
    Twice();
    forall u ensures Lo16(Round4(u)) == Lo8(u) + Lo8(Shr8(u)) { LowOfRound4(u); }
    forall u ensures Shr16(Round4(u)) == Round4(Shr16(u)) { ShiftOfRound4(u); }
    PairSums(Lo8, Shr8, Lo16, Shr16, Round4, v, 4);
  }

  lemma Level5(v: bv64)
    ensures Sum(Lo32, Shr32, Round5(v), 2) == Sum(Lo16, Shr16, v, 4)
  {
    Twice();
    forall u ensures Lo32(Round5(u)) == Lo16(u) + Lo16(Shr16(u)) { LowOfRound5(u); }
    forall u ensures Shr32(Round5(u)) == Round5(Shr32(u)) { ShiftOfRound5(u); }
    PairSums(Lo16, Shr16, Lo32, Shr32, Round5, v, 2);
  }

  /** The final step adds the two halves as numbers of 32 bits widened to 64, so it cannot overflow. */
  function Widened(a: bv32, b: bv32): bv64 { a as bv64 + b as bv64 }

  lemma WidenedSum(a: bv32, b: bv32, x: bv64)
    requires x == a as bv64 + b as bv64
    ensures x as int == a as int + b as int
  {
  }

  lemma WidenedIsSum(a: bv32, b: bv32)
    ensures Widened(a, b) as int == a as int + b as int
  {
    WidenedSum(a, b, Widened(a, b));
  }

  lemma LastWidened(u: bv64)
    ensures Last(u) == Widened((u & 0xffff_ffff) as bv32, (u >> 32) as bv32)
  {
  }

  lemma HighHalf(u: bv64)
    ensures Lo32(Shr32(u)) == ((u >> 32) as bv32) as int
  {
  }

  lemma LastIsSum(u: bv64)
    ensures Last(u) as int == Lo32(u) + Lo32(Shr32(u))
  {
    LastWidened(u);
    WidenedIsSum((u & 0xffff_ffff) as bv32, (u >> 32) as bv32);
    HighHalf(u);
  }

  // The sum `v += v1` of two words whose fields of 4 bits hold at most 4

  lemma NarrowRound2(u: bv64)
    ensures Narrow(Round2(u))
  {
  }

  lemma NarrowShift(u: bv64)
    requires Narrow(u)
    ensures Narrow(Shr4(u))
  {
  }

  lemma CastNarrow(u: bv64, w: bv64)
    requires Narrow(u) && Narrow(w)
    ensures Lo4(Plus(u, w)) == (((u & 7) as bv3) as bv4 + ((w & 7) as bv3) as bv4) as int
  {
  }

  lemma NarrowLow(u: bv64)
    requires Narrow(u)
    ensures Lo4(u) == ((u & 7) as bv3) as int
  {
  }

  lemma LowOfPlus(u: bv64, w: bv64)
    requires Narrow(u) && Narrow(w)
    ensures Lo4(Plus(u, w)) == Lo4(u) + Lo4(w)
  {
    CastNarrow(u, w);
    Widen3((u & 7) as bv3, (w & 7) as bv3);
    NarrowLow(u);
    NarrowLow(w);
  }

  lemma NarrowMask(u: bv64)
    requires Narrow(u)
    ensures u & 0x7777_7777_7777_7777 == u
  {
  }

  lemma NarrowShiftMask(u: bv64)
    requires Narrow(u)
    ensures (u >> 4) & 0x0777_7777_7777_7777 == u >> 4
  {
  }

  lemma MaskedShiftOfPlus(u: bv64, w: bv64)
    ensures Shr4(Plus(u & 0x7777_7777_7777_7777, w & 0x7777_7777_7777_7777)) ==
            ((u >> 4) & 0x0777_7777_7777_7777) + ((w >> 4) & 0x0777_7777_7777_7777)
  {
  }

  lemma NarrowShiftOfPlus(u: bv64, w: bv64)
    requires Narrow(u) && Narrow(w)
    ensures Shr4(Plus(u, w)) == (u >> 4) + (w >> 4)
  {
    NarrowMask(u);
    NarrowMask(w);
    NarrowShiftMask(u);
    NarrowShiftMask(w);
    MaskedShiftOfPlus(u, w);
  }

  lemma PlusShifted(u: bv64, w: bv64)
    ensures Plus(u >> 4, w >> 4) == (u >> 4) + (w >> 4)
  {
  }

  lemma PlusOfShifts(u: bv64, w: bv64)
    ensures Plus(Shr4(u), Shr4(w)) == Plus(u >> 4, w >> 4)
  {
  }

  lemma ShiftOfPlus(u: bv64, w: bv64)
    requires Narrow(u) && Narrow(w)
    ensures Shr4(Plus(u, w)) == Plus(Shr4(u), Shr4(w))
  {
    NarrowShiftOfPlus(u, w);
    PlusShifted(u, w);
    PlusOfShifts(u, w);
  }

  /** `v += v1`: the fields of 4 bits of the sum hold the sums of the fields. */
  lemma Merge(a: bv64, b: bv64)
    requires Narrow(a) && Narrow(b)
    ensures Sum(Lo4, Shr4, Plus(a, b), 16) == Sum(Lo4, Shr4, a, 16) + Sum(Lo4, Shr4, b, 16)
  {
    forall u, w | Narrow(u) && Narrow(w) ensures Lo4(Plus(u, w)) == Lo4(u) + Lo4(w) { LowOfPlus(u, w); }
    forall u, w | Narrow(u) && Narrow(w) ensures Shr4(Plus(u, w)) == Plus(Shr4(u), Shr4(w)) { ShiftOfPlus(u, w); }
    forall u | Narrow(u) ensures Narrow(Shr4(u)) { NarrowShift(u); }
    AddSums(Lo4, Shr4, Plus, Narrow, a, b, 16);
  }

  /** The first two rounds on one word leave its bit count in its fields of 4 bits, each at most 4. */
  lemma TwoRounds(x: bv64)
    ensures Sum(Lo4, Shr4, Round2(Round1(x)), 16) == Pop(x) && Narrow(Round2(Round1(x)))
  {
    Level1(x);
    Level2(Round1(x));
    NarrowRound2(Round1(x));
  }

  /** `Count()` is the number of set bits of the two words. */
  lemma SwarIsPop(w0: bv64, w1: bv64)
    ensures SwarCount(w0, w1) as int == Pop(w0) + Pop(w1) <= 128
  {
    var a, b := Round2(Round1(w0)), Round2(Round1(w1));
    TwoRounds(w0);
    TwoRounds(w1);
    Merge(a, b);
    var v3 := Round3(Plus(a, b));
    Level3(Plus(a, b));
    var v4 := Round4(v3);
    Level4(v3);
    var v5 := Round5(v4);
    Level5(v4);
    LastIsSum(v5);
    PopBound(w0);
    PopBound(w1);
  }

  /** A word has at most 64 set bits. */
  lemma PopBound(x: bv64)
    ensures 0 <= Pop(x) <= 64
  {
    forall u ensures Lo1(u) == 0 || Lo1(u) == 1 { LowBit(u); }
    SumBound(Lo1, Shr1, x, 64);
  }

  // ---------------------------------------------------------------------
  // IsEmpty and CheckIsOne: none or one set bit

  lemma LowBit(x: bv64)
    ensures Lo1(x) == 0 || Lo1(x) == 1
  {
  }

  lemma ZeroStep(x: bv64)
    ensures IsZero(x) <==> Lo1(x) == 0 && IsZero(Shr1(x))
  {
  }

  lemma OneStep(x: bv64)
    ensures x != 0 && LowestOnly(x) <==> (x & 1 == 1 && x >> 1 == 0) || (x & 1 == 0 && x >> 1 != 0 && LowestOnly(x >> 1))
  {
  }

  lemma OneStepLo(x: bv64)
    ensures IsOne(x) <==> (Lo1(x) == 1 && IsZero(Shr1(x))) || (Lo1(x) == 0 && IsOne(Shr1(x)))
  {
    OneStep(x);
  }

  lemma ShiftedOut(x: bv64)
    ensures Shr32(Shr32(x)) == 0
  {
  }

  /** Shifting a word right by one bit 64 times leaves 0. */
  lemma AllShiftedOut(x: bv64)
    ensures IsZero(Iterate(Shr1, 64, x))
  {
    Twice();
    IteratePairs(Shr1, Shr2, x, 32);
    IteratePairs(Shr2, Shr4, x, 16);
    IteratePairs(Shr4, Shr8, x, 8);
    IteratePairs(Shr8, Shr16, x, 4);
    IteratePairs(Shr16, Shr32, x, 2);
    ShiftedOut(x);
    assert Iterate(Shr32, 2, x) == Shr32(Shr32(x));
  }

  /** No set bit exactly for the word 0; one set bit exactly when `-x & x` is all of x. */
  lemma PopZeroOne(x: bv64)
    ensures Pop(x) == 0 <==> x == 0
    ensures Pop(x) == 1 <==> x != 0 && LowestOnly(x)
  {
    AllShiftedOut(x);
    forall u ensures Lo1(u) == 0 || Lo1(u) == 1 { LowBit(u); }
    forall u ensures IsZero(u) <==> Lo1(u) == 0 && IsZero(Shr1(u)) { ZeroStep(u); }
    forall u ensures IsOne(u) <==> (Lo1(u) == 1 && IsZero(Shr1(u))) || (Lo1(u) == 0 && IsOne(Shr1(u))) { OneStepLo(u); }
    ZeroOrOne(Lo1, Shr1, IsZero, IsOne, x, 64);
  }

  /** `CheckIsOne()` holds exactly when the two words hold one set bit between them. */
  lemma CheckIsOneIsPop(w0: bv64, w1: bv64)
    ensures CheckIsOneWords(w0, w1) <==> Pop(w0) + Pop(w1) == 1
  {
    PopZeroOne(w0);
    PopZeroOne(w1);
    PopBound(w0);
    PopBound(w1);
  }
}
