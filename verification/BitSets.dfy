/** The membership bit vector (internal/bitset/bitset.go): a set of ids below a fixed
    capacity, one bit an id, with the set algebra done word by word. */
module BitSets {
  import opened Ints
  import opened Sorting
  import opened Words
  import opened WordAlgebra
  import B = Bitmaps

  /** The ids whose bit is set in `ws`. */
  ghost function IdsIn(ws: seq<Word>): set<int> {
    set p: int | 0 <= p < 64 * |ws| && Bit(ws[p / 64], p % 64)
  }

  /** Number of ids of `ws` below `n`, one bit at a time. */
  ghost function CountBelow(ws: seq<Word>, n: nat): nat
    requires n <= 64 * |ws|
  {
    if n == 0 then 0 else CountBelow(ws, n - 1) + (if n - 1 in IdsIn(ws) then 1 else 0)
  }

  lemma {:induction false} CountIsCardinality(ws: seq<Word>, n: nat)
    requires n <= 64 * |ws|
    ensures CountBelow(ws, n) == |set p | p in IdsIn(ws) && p < n|
  {
    hide Bit;
    var below := set p | p in IdsIn(ws) && p < n;
    if n == 0 {
      assert below == {};
    } else {
      CountIsCardinality(ws, n - 1);
      var rest := set p | p in IdsIn(ws) && p < n - 1;
      assert below == if n - 1 in IdsIn(ws) then rest + {n - 1} else rest;
    }
  }

  lemma {:induction false} CountWord(ws: seq<Word>, i: nat, r: nat)
    requires i < |ws| && r <= 64
    ensures CountBelow(ws, 64 * i + r) == CountBelow(ws, 64 * i) + OnesCount(ws[i], r)
  {
    hide Bit;
    if r > 0 {
      CountWord(ws, i, r - 1);
      assert (64 * i + r - 1) / 64 == i && (64 * i + r - 1) % 64 == r - 1;
    }
  }

  /** A vector holds no id exactly when all its words are zero. */
  lemma EmptyIds(ws: seq<Word>)
    ensures IdsIn(ws) == {} <==> forall i :: 0 <= i < |ws| ==> ws[i] == 0
  {
    hide Bit;
    if IdsIn(ws) == {} {
      forall i | 0 <= i < |ws| ensures ws[i] == 0 {
        forall r: nat | r < 64 ensures !Bit(ws[i], r) {
          assert (64 * i + r) / 64 == i && (64 * i + r) % 64 == r;
          assert 64 * i + r !in IdsIn(ws);
        }
        ZeroWord(ws[i]);
      }
    }
    if forall i :: 0 <= i < |ws| ==> ws[i] == 0 {
      forall p ensures p !in IdsIn(ws) {
        if 0 <= p < 64 * |ws| {
          ZeroWord(ws[p / 64]);
        }
      }
    }
  }

  class BitSet {
    const capacity: U32
    const words: array<Word>

    /** The vector covers the capacity. */
    ghost predicate Sized() {
      words.Length == (capacity + 63) / 64
    }

    ghost function Members(): set<int>
      reads words
    {
      IdsIn(words[..])
    }

    /** No bit at or above the capacity is set. */
    ghost predicate Valid()
      reads words
    {
      Sized() && forall id :: id in Members() ==> id < capacity
    }

    constructor (capacity: U32)
      ensures this.capacity == capacity && fresh(words)
      ensures Valid() && Members() == {}
    {
      this.capacity := capacity;
      var ws := new Word[(capacity + 63) / 64](_ => 0);
      words := ws;
      new;
      EmptyIds(words[..]);
    }

    /** Ids outside the capacity are reported, not dropped silently. */
    method Add(id: U32) returns (ok: bool)
      requires Sized()
      modifies words
      ensures ok <==> id < capacity
      ensures Members() == if ok then old(Members()) + {id} else old(Members())
    {
      hide Bit, Mask, Or;
      if id >= capacity {
        return false;
      }
      var q, r := id / 64, id % 64;
      ghost var before := words[..];
      words[q] := Or(words[q], Mask(r));
      ghost var after := words[..];
      forall p: int ensures p in IdsIn(after) <==> p in IdsIn(before) || p == id {
        if 0 <= p < 64 * |before| {
          BitOr(before[p / 64], Mask(r), p % 64);
          BitOfMask(r, p % 64);
        }
      }
      return true;
    }

    method Has(id: U32) returns (b: bool)
      requires Sized()
      ensures b <==> id < capacity && id in Members()
    {
      if id >= capacity {
        return false;
      }
      return words[id / 64] & Mask(id % 64) != 0;
    }

    method Count() returns (n: nat)
      ensures n == |Members()|
    {
      hide Bit;
      n := 0;
      ghost var ws := words[..];
      for i := 0 to words.Length
        invariant n == CountBelow(ws, 64 * i)
      {
        CountWord(ws, i, 64);
        n := n + OnesCount(words[i]);
      }
      CountIsCardinality(ws, 64 * |ws|);
      assert IdsIn(ws) == set p | p in IdsIn(ws) && p < 64 * |ws|;
    }

    method IsEmpty() returns (b: bool)
      ensures b <==> Members() == {}
    {
      EmptyIds(words[..]);
      for i := 0 to words.Length
        invariant forall j :: 0 <= j < i ==> words[j] == 0
      {
        if words[i] != 0 {
          return false;
        }
      }
      return true;
    }

    method Clone() returns (c: BitSet)
      requires Sized()
      ensures fresh(c) && fresh(c.words) && c.capacity == capacity && c.Sized()
      ensures c.words[..] == words[..]
    {
      c := new BitSet(capacity);
      for i := 0 to words.Length
        modifies c.words
        invariant forall j :: 0 <= j < i ==> c.words[j] == words[j]
      {
        c.words[i] := words[i];
      }
    }

    /** The members, each once, in ascending order: lowest bit of the word first, cleared
        as it is listed. */
    method Ids() returns (out: seq<int>)
      ensures Lists(IntLess, out, Members())
    {
      hide Bit, ClearLowestSet;
      out := [];
      ghost var ws := words[..];
      for i := 0 to words.Length
        invariant Lists(IntLess, out, set p | p in IdsIn(ws) && p < 64 * i)
      {
        var w := words[i];
        ghost var done := 0;  // bits of this word below `done` are listed
        ZeroWord(w);
        while w != 0
          invariant 0 <= done <= 64
          invariant forall j: nat :: j < 64 ==> (Bit(w, j) <==> Bit(ws[i], j) && done <= j)
          invariant w == 0 <==> forall j: nat :: j < 64 ==> !Bit(w, j)
          invariant Lists(IntLess, out, set p | p in IdsIn(ws) && p < 64 * i + done)
          decreases 64 - done
        {
          var bit := TrailingZeros(w);
          ListsNext(ws, out, i, done, bit);
          out := out + [64 * i + bit];
          forall j: nat | j < 64 ensures Bit(ClearLowestSet(w), j) <==> Bit(w, j) && j != bit {
            ClearLowestBit(w, bit, j);
          }
          w := ClearLowestSet(w);
          ZeroWord(w);
          done := bit + 1;
        }
        ListsRest(ws, out, i, done);
      }
      assert IdsIn(ws) == set p | p in IdsIn(ws) && p < 64 * |ws|;
    }

    /** `s |= o`, over the words both have. A larger operand can leave members at or above
        this capacity, and then the vector is no longer valid. */
    method Union(o: BitSet)
      modifies words
      ensures old(Valid()) ==>
                (Valid() <==> forall p :: p in old(o.Members()) && p < 64 * words.Length ==> p < capacity)
      ensures Members() == old(Members()) + (set p | p in old(o.Members()) && p < 64 * words.Length)
    {
      hide Bit, Or, AndNot;
      var n := if words.Length < o.words.Length then words.Length else o.words.Length;
      ghost var before, other := words[..], o.words[..];
      for i := 0 to n
        invariant forall j :: 0 <= j < i ==> words[j] == Or(before[j], other[j])
        invariant forall j :: i <= j < words.Length ==> words[j] == before[j]
        invariant forall j :: i <= j < o.words.Length ==> o.words[j] == other[j]
      {
        words[i] := Or(words[i], o.words[i]);
      }
      ghost var after := words[..];
      forall p: int ensures p in IdsIn(after) <==> p in IdsIn(before) || (p in IdsIn(other) && p < 64 * |before|) {
        if 0 <= p < 64 * n {
          BitOr(before[p / 64], other[p / 64], p % 64);
        }
      }
    }

    /** `s &= o`; what lies beyond `o` is absent from it. */
    method Intersect(o: BitSet)
      modifies words
      ensures Members() == old(Members()) * old(o.Members())
    {
      hide Bit, And;
      ghost var before, other := words[..], o.words[..];
      for i := 0 to words.Length
        invariant forall j :: 0 <= j < i ==> words[j] == if j < |other| then And(before[j], other[j]) else 0
        invariant forall j :: i <= j < words.Length ==> words[j] == before[j]
        invariant forall j :: i <= j < o.words.Length ==> o.words[j] == other[j]
      {
        if i < o.words.Length {
          words[i] := And(words[i], o.words[i]);
        } else {
          words[i] := 0;
        }
      }
      ghost var after := words[..];
      forall p: int ensures p in IdsIn(after) <==> p in IdsIn(before) && p in IdsIn(other) {
        if 0 <= p < 64 * |before| {
          if p / 64 < |other| {
            BitAnd(before[p / 64], other[p / 64], p % 64);
          } else {
            ZeroWord(0);
          }
        }
      }
    }

    /** `s &^= o`: a shorter subtrahend keeps the members it does not cover. */
    method Subtract(o: BitSet)
      modifies words
      ensures Members() == old(Members()) - old(o.Members())
    {
      hide Bit, Or, AndNot;
      var n := if words.Length < o.words.Length then words.Length else o.words.Length;
      ghost var before, other := words[..], o.words[..];
      for i := 0 to n
        invariant forall j :: 0 <= j < i ==> words[j] == AndNot(before[j], other[j])
        invariant forall j :: i <= j < words.Length ==> words[j] == before[j]
        invariant forall j :: i <= j < o.words.Length ==> o.words[j] == other[j]
      {
        words[i] := AndNot(words[i], o.words[i]);
      }
      ghost var after := words[..];
      forall p: int ensures p in IdsIn(after) <==> p in IdsIn(before) && p !in IdsIn(other) {
        if 0 <= p < 64 * n {
          BitAndNot(before[p / 64], other[p / 64], p % 64);
        }
      }
    }

    /** The vector in the bit order of Redis. */
    method ToBytes() returns (b: B.Bitmap)
      requires Valid()
      ensures |b| == (capacity + 7) / 8
      ensures B.IdsOf(b) == Members()
    {
      hide B.ByteBit, B.Set;
      var out := new B.Byte[(capacity + 7) / 8](_ => 0);
      var ids := Ids();
      assert out[..] == B.Zeros(out.Length);
      B.ZerosHoldNothing(out.Length);
      for k := 0 to |ids|
        invariant B.IdsOf(out[..]) == set p | p in ids[..k]
      {
        var id := ids[k];
        assert id in ids;
        ghost var before := out[..];
        out[id / 8] := B.Set(out[id / 8], id % 8);
        assert out[..] == B.WithBit(before, id, true);
        B.WithBitMeaning(before, id, true);
        assert ids[..k + 1] == ids[..k] + [id];
      }
      assert ids[..|ids|] == ids;
      b := out[..];
    }
  }

  lemma ListsNext(ws: seq<Word>, out: seq<int>, i: nat, done: nat, bit: nat)
    requires i < |ws| && done <= bit < 64 && Bit(ws[i], bit)
    requires forall j: nat :: done <= j < bit ==> !Bit(ws[i], j)
    requires Lists(IntLess, out, set p | p in IdsIn(ws) && p < 64 * i + done)
    ensures Lists(IntLess, out + [64 * i + bit], set p | p in IdsIn(ws) && p < 64 * i + bit + 1)
  {
    hide Bit;
    var next := 64 * i + bit;
    assert next / 64 == i && next % 64 == bit;
    var now := set p | p in IdsIn(ws) && p < next + 1;
    forall p ensures p in out + [next] <==> p in now {
      if 64 * i + done <= p < next {
        assert p / 64 == i && p % 64 == p - 64 * i;
      }
    }
    assert Ascending(IntLess, out + [next]) by {
      forall k | 0 <= k < |out| ensures out[k] < next {
        assert out[k] in out;
      }
    }
  }

  lemma ListsRest(ws: seq<Word>, out: seq<int>, i: nat, done: nat)
    requires i < |ws| && done <= 64
    requires forall j: nat :: done <= j < 64 ==> !Bit(ws[i], j)
    requires Lists(IntLess, out, set p | p in IdsIn(ws) && p < 64 * i + done)
    ensures Lists(IntLess, out, set p | p in IdsIn(ws) && p < 64 * (i + 1))
  {}

  /** `a \ b` for operands of any two capacities, neither of them modified. */
  method Difference(a: BitSet, b: BitSet) returns (d: BitSet)
    requires a.Sized()
    ensures fresh(d) && fresh(d.words) && d.capacity == a.capacity && d.Sized()
    ensures d.Members() == a.Members() - b.Members()
  {
    d := a.Clone();
    d.Subtract(b);
  }

  /** What `FromBytes` reads: bit numbers as uint32 values, those below the capacity. */
  ghost function IdsRead(b: B.Bitmap, capacity: U32): set<int> {
    set p | p in B.IdsOf(b) && Wrap32(p) < capacity :: Wrap32(p)
  }

  /** Reads a Redis-order bitmap; bits outside the capacity are not members. */
  method FromBytes(b: B.Bitmap, capacity: U32) returns (s: BitSet)
    ensures fresh(s) && fresh(s.words) && s.capacity == capacity && s.Valid()
    ensures s.Members() == IdsRead(b, capacity)
  {
    hide B.ByteBit;
    s := new BitSet(capacity);
    for i := 0 to |b|
      invariant s.Members() == set p | p in B.IdsOf(b) && p < 8 * i && Wrap32(p) < capacity :: Wrap32(p)
    {
      for bit := 0 to 8
        invariant s.Members() == set p | p in B.IdsOf(b) && p < 8 * i + bit && Wrap32(p) < capacity :: Wrap32(p)
      {
        ghost var p := 8 * i + bit;
        assert p / 8 == i && p % 8 == bit;
        if B.ByteBit(b[i], bit) {
          var _ := s.Add(Wrap32(i * 8 + bit));
        }
      }
    }
  }

  /** Below 512 MiB, the limit of a Redis string, no bit number wraps. */
  lemma ReadsExactly(b: B.Bitmap, capacity: U32)
    requires 8 * |b| <= TWO_32
    ensures IdsRead(b, capacity) == set p | p in B.IdsOf(b) && p < capacity
  {}

  /** Writing a vector out and reading it back loses nothing. */
  method ThroughBytes(s: BitSet) returns (t: BitSet)
    requires s.Valid()
    ensures t.capacity == s.capacity && t.Members() == s.Members()
  {
    var b := s.ToBytes();
    ReadsExactly(b, s.capacity);
    t := FromBytes(b, s.capacity);
  }

  /** Reading a bitmap and writing it back gives the same bytes, exactly when it has the
      length of the capacity and nothing set beyond it. */
  method ThroughSet(b: B.Bitmap, capacity: U32) returns (c: B.Bitmap)
    requires 8 * |b| <= TWO_32
    ensures c == b <==> |b| == (capacity + 7) / 8 && forall p :: p in B.IdsOf(b) ==> p < capacity
  {
    hide B.BitAt, IdsIn;
    var s := FromBytes(b, capacity);
    c := s.ToBytes();
    ReadsExactly(b, capacity);
    if |b| == |c| && forall p :: p in B.IdsOf(b) ==> p < capacity {
      assert B.IdsOf(b) == B.IdsOf(c);
      B.BitmapsEqual(b, c);
    }
  }
}
