/** Questions about 64 bits, with masks as bit-vectors: one question a lemma. */
module WordAlgebra {
  type Word = bv64

  predicate OneHot(m: Word) {
    m != 0 && m & (m - 1) == 0
  }

  predicate Meets(w: Word, m: Word) {
    w & m != 0
  }

  /** No bit of `w` lies below the one-hot mask `m`. */
  predicate ClearBelow(w: Word, m: Word) {
    w & (m - 1) == 0
  }

  lemma OrIsZero(x: Word, y: Word)
    ensures x | y == 0 <==> x == 0 && y == 0
  {}

  lemma OrUnder(a: Word, b: Word, m: Word)
    ensures (a | b) & m == (a & m) | (b & m)
  {}

  lemma AndNotUnder(a: Word, b: Word, m: Word)
    requires m != 0 && m & (m - 1) == 0
    ensures (a & !b) & m == if b & m == 0 then a & m else 0
  {}

  lemma MeetsOr(a: Word, b: Word, m: Word)
    ensures Meets(a | b, m) <==> Meets(a, m) || Meets(b, m)
  {
    OrUnder(a, b, m);
    OrIsZero(a & m, b & m);
  }

  lemma MeetsAndNot(a: Word, b: Word, m: Word)
    requires OneHot(m)
    ensures Meets(a & !b, m) <==> Meets(a, m) && !Meets(b, m)
  {
    if Meets(b, m) {
      AndNotUnder(a, b, m);
    } else {
      AndNotUnder(a, b, m);
    }
  }

  lemma MeetsAnd(a: Word, b: Word, m: Word)
    requires OneHot(m)
    ensures Meets(a & b, m) <==> Meets(a, m) && Meets(b, m)
  {}

  lemma OneHotsMeet(m: Word, n: Word)
    requires OneHot(m) && OneHot(n)
    ensures Meets(m, n) <==> m == n
  {}

  lemma ZeroMeetsNothing(m: Word)
    ensures !Meets(0, m)
  {}

  lemma ClearBelowOne(w: Word)
    ensures ClearBelow(w, 1)
  {}

  lemma ClearBelowNext(w: Word, m: Word)
    requires OneHot(m) && ClearBelow(w, m) && !Meets(w, m)
    ensures ClearBelow(w, m << 1)
  {}

  lemma ClearUpToTop(w: Word)
    requires ClearBelow(w, 0x8000_0000_0000_0000) && !Meets(w, 0x8000_0000_0000_0000)
    ensures w == 0
  {}

  lemma ClearLowest(w: Word, m: Word)
    requires OneHot(m) && Meets(w, m) && ClearBelow(w, m)
    ensures w & (w - 1) == w & !m
  {}

  lemma ShiftsDiffer(j: bv7, k: bv7)
    requires j < 64 && k < 64 && j != k
    ensures (1 as Word) << j != (1 as Word) << k
  {}

  lemma ShiftNext(k: bv7)
    requires k < 63
    ensures (1 as Word) << (k + 1) == ((1 as Word) << k) << 1
  {}
}

/** Machine words of the bit vector: one bit of a 64-bit word by its integer index, and what
    the word-wise operations of the source do to it. The proofs hide the definitions over
    bit-vectors and use the lemmas above. */
module Words {
  import opened WordAlgebra

  function Mask(i: nat): Word
    requires i < 64
  {
    1 << i
  }

  predicate Bit(w: Word, i: nat)
    requires i < 64
  {
    Meets(w, Mask(i))
  }

  // The word operators of the source: `a | b`, `a & b`, `a &^ b`, `w & (w - 1)`.

  function Or(a: Word, b: Word): Word { a | b }

  function And(a: Word, b: Word): Word { a & b }

  function AndNot(a: Word, b: Word): Word { a & !b }

  function ClearLowestSet(w: Word): Word { w & (w - 1) }

  lemma NextIndex(i: nat)
    requires i + 1 < 64
    ensures (i + 1) as bv7 == (i as bv7) + 1
  {
    var k := i as bv7;
    assert k as int == i;
    assert (k + 1) as int == i + 1;
  }

  lemma IndicesDiffer(i: nat, j: nat)
    requires i < 64 && j < 64 && i != j
    ensures i as bv7 != j as bv7
  {
    var a, b := i as bv7, j as bv7;
    assert a as int == i && b as int == j;
  }

  lemma MaskOneHot(i: nat)
    requires i < 64
    ensures OneHot(Mask(i))
  {}

  lemma MasksDiffer(i: nat, j: nat)
    requires i < 64 && j < 64 && i != j
    ensures Mask(i) != Mask(j)
  {
    IndicesDiffer(i, j);
    ShiftsDiffer(i as bv7, j as bv7);
  }

  lemma MaskNext(i: nat)
    requires i + 1 < 64
    ensures Mask(i + 1) == Mask(i) << 1
  {
    NextIndex(i);
    ShiftNext(i as bv7);
  }

  lemma MaskEnds()
    ensures Mask(0) == 1 && Mask(63) == 0x8000_0000_0000_0000
  {}

  lemma BitOr(a: Word, b: Word, i: nat)
    requires i < 64
    ensures Bit(Or(a, b), i) <==> Bit(a, i) || Bit(b, i)
  {
    hide Mask, Meets;
    MeetsOr(a, b, Mask(i));
  }

  lemma BitAnd(a: Word, b: Word, i: nat)
    requires i < 64
    ensures Bit(And(a, b), i) <==> Bit(a, i) && Bit(b, i)
  {
    hide Mask, Meets, OneHot;
    MaskOneHot(i);
    MeetsAnd(a, b, Mask(i));
  }

  lemma BitAndNot(a: Word, b: Word, i: nat)
    requires i < 64
    ensures Bit(AndNot(a, b), i) <==> Bit(a, i) && !Bit(b, i)
  {
    hide Mask, Meets, OneHot;
    MaskOneHot(i);
    MeetsAndNot(a, b, Mask(i));
  }

  lemma BitOfMask(i: nat, j: nat)
    requires i < 64 && j < 64
    ensures Bit(Mask(i), j) <==> i == j
  {
    hide Mask, Meets, OneHot;
    MaskOneHot(i); MaskOneHot(j);
    OneHotsMeet(Mask(i), Mask(j));
    if i != j {
      MasksDiffer(i, j);
    }
  }

  lemma {:induction false} NoBitsBelow(w: Word, i: nat)
    requires i < 64
    requires forall j: nat :: j < i ==> !Bit(w, j)
    ensures ClearBelow(w, Mask(i))
  {
    hide Mask, Meets, OneHot, ClearBelow;
    MaskEnds();
    if i == 0 {
      ClearBelowOne(w);
    } else {
      NoBitsBelow(w, i - 1);
      MaskOneHot(i - 1);
      assert !Bit(w, i - 1);
      ClearBelowNext(w, Mask(i - 1));
      MaskNext(i - 1);
    }
  }

  /** A word is zero exactly when it has no bit. */
  lemma ZeroWord(w: Word)
    ensures w == 0 <==> forall i: nat :: i < 64 ==> !Bit(w, i)
  {
    hide Mask, Meets, OneHot, ClearBelow;
    if forall i: nat :: i < 64 ==> !Bit(w, i) {
      NoBitsBelow(w, 63);
      MaskEnds();
      assert !Bit(w, 63);
      ClearUpToTop(w);
    }
    if w == 0 {
      forall i: nat | i < 64 ensures !Bit(w, i) {
        ZeroMeetsNothing(Mask(i));
      }
    }
  }

  /** Index of the lowest set bit at or above `from` (bits.TrailingZeros64 is `TrailingZeros(w, 0)`). */
  function TrailingZeros(w: Word, from: nat := 0): (i: nat)
    requires from < 64
    requires exists j: nat :: from <= j < 64 && Bit(w, j)
    ensures from <= i < 64 && Bit(w, i)
    ensures forall j: nat :: from <= j < i ==> !Bit(w, j)
    decreases 64 - from
  {
    if Bit(w, from) then from else TrailingZeros(w, from + 1)
  }

  /** `w &= w - 1` removes the lowest set bit and no other. */
  lemma ClearLowestBit(w: Word, i: nat, j: nat)
    requires i < 64 && j < 64
    requires Bit(w, i) && forall k: nat :: k < i ==> !Bit(w, k)
    ensures Bit(ClearLowestSet(w), j) <==> Bit(w, j) && j != i
  {
    hide Mask, Meets, OneHot, ClearBelow;
    NoBitsBelow(w, i);
    MaskOneHot(i);
    ClearLowest(w, Mask(i));
    BitAndNot(w, Mask(i), j);
    BitOfMask(i, j);
  }

  /** Number of set bits below `n` (bits.OnesCount64 is `OnesCount(w, 64)`). */
  function OnesCount(w: Word, n: nat := 64): nat
    requires n <= 64
  {
    if n == 0 then 0 else OnesCount(w, n - 1) + (if Bit(w, n - 1) then 1 else 0)
  }
}
