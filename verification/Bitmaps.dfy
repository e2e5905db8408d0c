/** Byte strings read as bitmaps in Redis bit order: bit `p` is the `p % 8`-th bit, from the
    most significant, of byte `p / 8`. */
module Bitmaps {
  import opened Ints

  type Byte = bv8

  /** `1 << (7 - r)`, written out. */
  function ByteMask(r: nat): Byte
    requires r < 8
  {
    if r == 0 then 0x80 else if r == 1 then 0x40 else if r == 2 then 0x20 else if r == 3 then 0x10
    else if r == 4 then 0x08 else if r == 5 then 0x04 else if r == 6 then 0x02 else 0x01
  }

  lemma MaskIsShift(r: nat)
    requires r < 8
    ensures ByteMask(r) == 1 << (7 - r)
  {}

  predicate ByteBit(x: Byte, r: nat)
    requires r < 8
  {
    x & ByteMask(r) != 0
  }

  function Set(x: Byte, r: nat): Byte
    requires r < 8
  {
    x | ByteMask(r)
  }

  function Clear(x: Byte, r: nat): Byte
    requires r < 8
  {
    x & !ByteMask(r)
  }

  function Not(x: Byte): Byte { !x }

  function And(x: Byte, y: Byte): Byte { x & y }

  lemma ZeroByte(s: nat)
    requires s < 8
    ensures !ByteBit(0, s)
  {}

  lemma BytesEqual(x: Byte, y: Byte)
    requires forall s: nat :: s < 8 ==> ByteBit(x, s) == ByteBit(y, s)
    ensures x == y
  {
    assert ByteBit(x, 0) == ByteBit(y, 0) && ByteBit(x, 1) == ByteBit(y, 1) && ByteBit(x, 2) == ByteBit(y, 2)
        && ByteBit(x, 3) == ByteBit(y, 3) && ByteBit(x, 4) == ByteBit(y, 4) && ByteBit(x, 5) == ByteBit(y, 5)
        && ByteBit(x, 6) == ByteBit(y, 6) && ByteBit(x, 7) == ByteBit(y, 7);
  }

  type Bitmap = seq<Byte>

  predicate BitAt(b: Bitmap, p: int)
    requires 0 <= p < 8 * |b|
  {
    ByteBit(b[p / 8], p % 8)
  }

  /** The numbers of the bits set in `b`. */
  ghost function IdsOf(b: Bitmap): set<int> {
    set p: int | 0 <= p < 8 * |b| && BitAt(b, p)
  }

  /** A bitmap is determined by its length and its members. */
  lemma BitmapsEqual(b: Bitmap, c: Bitmap)
    requires |b| == |c| && IdsOf(b) == IdsOf(c)
    ensures b == c
  {
    hide ByteBit;
    forall i | 0 <= i < |b| ensures b[i] == c[i] {
      forall r: nat | r < 8 ensures ByteBit(b[i], r) == ByteBit(c[i], r) {
        assert (8 * i + r) / 8 == i && (8 * i + r) % 8 == r;
        assert 8 * i + r in IdsOf(b) <==> 8 * i + r in IdsOf(c);
      }
      BytesEqual(b[i], c[i]);
    }
  }

  function Zeros(n: nat): Bitmap {
    seq(n, _ => 0)
  }

  lemma ZerosHoldNothing(n: nat)
    ensures IdsOf(Zeros(n)) == {}
  {
    hide ByteBit;
    forall p | 0 <= p < 8 * n ensures !BitAt(Zeros(n), p) {
      ZeroByte(p % 8);
    }
  }

  // What the Redis commands in use do to a string value.

  /** SETBIT: the string grows with zero bytes until it holds the bit. */
  function WithBit(b: Bitmap, p: nat, v: bool): Bitmap {
    var grown := if p / 8 < |b| then b else b + Zeros(p / 8 + 1 - |b|);
    grown[p / 8 := if v then Set(grown[p / 8], p % 8) else Clear(grown[p / 8], p % 8)]
  }

  lemma WithBitMeaning(b: Bitmap, p: nat, v: bool)
    ensures |WithBit(b, p, v)| == if p / 8 < |b| then |b| else p / 8 + 1
    ensures IdsOf(WithBit(b, p, v)) == if v then IdsOf(b) + {p} else IdsOf(b) - {p}
  {}

  /** BITOP NOT: exactly as long as its operand. */
  function Inverted(b: Bitmap): Bitmap {
    seq(|b|, i requires 0 <= i < |b| => Not(b[i]))
  }

  lemma InvertedMeaning(b: Bitmap)
    ensures |Inverted(b)| == |b|
    ensures forall p :: p in IdsOf(Inverted(b)) <==> 0 <= p < 8 * |b| && p !in IdsOf(b)
  {}

  /** BITOP AND: as long as the longer operand, the shorter one padded with zeros. */
  function Both(b: Bitmap, c: Bitmap): Bitmap {
    seq(if |b| < |c| then |c| else |b|, i requires 0 <= i =>
      if i < |b| && i < |c| then And(b[i], c[i]) else 0)
  }

  lemma BothMeaning(b: Bitmap, c: Bitmap)
    ensures IdsOf(Both(b, c)) == IdsOf(b) * IdsOf(c)
  {}

  /** BITCOUNT, over the first `n` bits. */
  function BitCount(b: Bitmap, n: nat := 8 * |b|): nat
    requires n <= 8 * |b|
  {
    if n == 0 then 0 else BitCount(b, n - 1) + (if BitAt(b, n - 1) then 1 else 0)
  }

  lemma {:induction false} BitCountPrefix(b: Bitmap, n: nat)
    requires n <= 8 * |b|
    ensures BitCount(b, n) == |set p | p in IdsOf(b) && p < n|
  {
    hide ByteBit;
    var below := set p | p in IdsOf(b) && p < n;
    if n == 0 {
      assert below == {};
    } else {
      BitCountPrefix(b, n - 1);
      var rest := set p | p in IdsOf(b) && p < n - 1;
      assert below == if n - 1 in IdsOf(b) then rest + {n - 1} else rest;
    }
  }

  lemma BitCountMeaning(b: Bitmap)
    ensures BitCount(b) == |IdsOf(b)|
  {
    BitCountPrefix(b, 8 * |b|);
    assert IdsOf(b) == set p | p in IdsOf(b) && p < 8 * |b|;
  }
}
