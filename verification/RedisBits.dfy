/** The set difference computed by Redis over pinned bitmaps (internal/redisbits/redisbits.go). */
module RedisBits {
  import opened Ints
  import opened Options
  import opened Sorting
  import opened Bitmaps
  import opened BitSets

  /** The keys of a store: a window's set, and the two scratch keys of a difference. */
  datatype Key =
    | SetKey(prefix: string, name: string, unix: int)
    | NotKey(prefix: string, subtrahend: string, unix: int)
    | DiffKey(prefix: string, minuend: string, subtrahend: string, unix: int)

  /** The string values of a Redis server, and the commands the store issues. */
  class Server {
    var strings: map<Key, Bitmap>

    /** No string exceeds 512 MiB. */
    ghost predicate Valid()
      reads this
    {
      forall k :: k in strings ==> 8 * |strings[k]| <= TWO_32
    }

    /** A missing key reads as the empty string. */
    function At(k: Key): Bitmap
      reads this
    {
      if k in strings then strings[k] else []
    }

    constructor ()
      ensures Valid() && strings == map[]
    {
      strings := map[];
    }

    method SetBit(k: Key, offset: int, v: bool) returns (ok: bool)
      requires Valid()
      modifies this
      ensures Valid()
      ensures ok <==> 0 <= offset < TWO_32
      ensures strings == if ok then old(strings)[k := WithBit(old(At(k)), offset, v)] else old(strings)
    {
      if offset < 0 || offset >= TWO_32 {
        return false;
      }
      WithBitMeaning(At(k), offset, v);
      strings := strings[k := WithBit(At(k), offset, v)];
      return true;
    }

    /** An empty result deletes the destination. */
    method Put(dst: Key, b: Bitmap)
      requires Valid() && 8 * |b| <= TWO_32
      modifies this
      ensures Valid()
      ensures strings == if b == [] then old(strings) - {dst} else old(strings)[dst := b]
    {
      strings := if b == [] then strings - {dst} else strings[dst := b];
    }

    method BitOpNot(dst: Key, src: Key)
      requires Valid()
      modifies this
      ensures Valid()
      ensures At(dst) == Inverted(old(At(src)))
      ensures strings - {dst} == old(strings) - {dst}
    {
      Put(dst, Inverted(At(src)));
    }

    method BitOpAnd(dst: Key, a: Key, b: Key)
      requires Valid()
      modifies this
      ensures Valid()
      ensures At(dst) == Both(old(At(a)), old(At(b)))
      ensures strings - {dst} == old(strings) - {dst}
    {
      Put(dst, Both(At(a), At(b)));
    }

    method Del(ks: set<Key>)
      requires Valid()
      modifies this
      ensures Valid() && strings == old(strings) - ks
    {
      strings := strings - ks;
    }
  }

  /** Members the pinned difference cannot lose: those below the pinned bit. */
  ghost function PinnedDifference(m: set<int>, s: set<int>, capacity: U32): set<int> {
    set p | p in m - s && p < capacity - 1
  }

  /** What is left without pinning: members covered by the bytes of the subtrahend. */
  ghost function UnpinnedDifference(m: set<int>, s: set<int>, subtrahendBytes: nat, capacity: U32): set<int> {
    set p | p in m - s && p / 8 < subtrahendBytes && p < capacity
  }

  lemma NoNegativeBit(b: Bitmap)
    ensures -1 !in IdsOf(b)
  {}

  class Store {
    const rdb: Server
    const prefix: string
    const capacity: U32
    var pinCapacity: bool

    constructor (rdb: Server, prefix: string, capacity: U32)
      ensures this.rdb == rdb && this.prefix == prefix && this.capacity == capacity && pinCapacity
    {
      this.rdb := rdb;
      this.prefix := prefix;
      this.capacity := capacity;
      pinCapacity := true;
    }

    /** The window start in nanoseconds is keyed by its second. */
    function KeyOf(name: string, start: int): Key {
      SetKey(prefix, name, start / 1_000_000_000)
    }

    ghost function Members(name: string, start: int): set<int>
      reads rdb
    {
      IdsOf(rdb.At(KeyOf(name, start)))
    }

    /** Writes a zero at the last addressable bit. That fixes the length of the bitmap and
        removes the member `capacity - 1`, if the set has it. */
    method Pin(name: string, start: int) returns (ok: bool)
      requires rdb.Valid()
      modifies rdb
      ensures rdb.Valid()
      ensures ok <==> capacity > 0
      ensures rdb.strings == if ok
                             then old(rdb.strings)[KeyOf(name, start) :=
                                    WithBit(old(rdb.At(KeyOf(name, start))), capacity - 1, false)]
                             else old(rdb.strings)
      ensures Members(name, start) == old(Members(name, start)) - {capacity - 1}
      ensures forall other, at :: other != name || at / 1_000_000_000 != start / 1_000_000_000 ==>
                Members(other, at) == old(Members(other, at))
      ensures forall k: Key :: k.prefix != prefix ==> rdb.At(k) == old(rdb.At(k))
      ensures ok ==> |rdb.At(KeyOf(name, start))| >= (capacity + 7) / 8
    {
      hide BitAt, WithBit, IdsOf;
      ok := rdb.SetBit(KeyOf(name, start), capacity - 1, false);
      if ok {
        WithBitMeaning(old(rdb.At(KeyOf(name, start))), capacity - 1, false);
      } else {
        NoNegativeBit(rdb.At(KeyOf(name, start)));
      }
    }

    method Add(name: string, start: int, id: U32) returns (ok: bool)
      requires rdb.Valid()
      modifies rdb
      ensures rdb.Valid()
      ensures ok <==> id < capacity
      ensures Members(name, start) == if ok then old(Members(name, start)) + {id} else old(Members(name, start))
      ensures forall other, at :: other != name || at / 1_000_000_000 != start / 1_000_000_000 ==>
                Members(other, at) == old(Members(other, at))
      ensures forall at :: at / 1_000_000_000 == start / 1_000_000_000 ==> Members(name, at) == Members(name, start)
      ensures forall k: Key :: k.prefix != prefix ==> rdb.At(k) == old(rdb.At(k))
      ensures rdb.strings - {KeyOf(name, start)} == old(rdb.strings) - {KeyOf(name, start)}
    {
      hide BitAt, WithBit, IdsOf;
      if id >= capacity {
        return false;
      }
      ok := rdb.SetBit(KeyOf(name, start), id, true);
      WithBitMeaning(old(rdb.At(KeyOf(name, start))), id, true);
    }

    method Count(name: string, start: int) returns (n: nat)
      ensures n == |Members(name, start)|
    {
      n := BitCount(rdb.At(KeyOf(name, start)));
      BitCountMeaning(rdb.At(KeyOf(name, start)));
    }

    method Load(name: string, start: int) returns (s: BitSet)
      requires rdb.Valid()
      ensures fresh(s) && s.capacity == capacity && s.Valid()
      ensures s.Members() == set p | p in Members(name, start) && p < capacity
    {
      var raw := rdb.At(KeyOf(name, start));
      ReadsExactly(raw, capacity);
      s := FromBytes(raw, capacity);
    }

    /** Pins both operands; a set that is neither keeps its bitmap. */
    method PinBoth(minuend: string, subtrahend: string, start: int) returns (ok: bool)
      requires rdb.Valid()
      modifies rdb
      ensures rdb.Valid()
      ensures ok <==> capacity > 0
      ensures forall name, at :: Members(name, at) ==
                old(Members(name, at)) -
                (if ok && KeyOf(name, at) in {KeyOf(minuend, start), KeyOf(subtrahend, start)}
                 then {capacity - 1} else {})
      ensures ok ==> |rdb.At(KeyOf(minuend, start))| >= (capacity + 7) / 8
      ensures ok ==> |rdb.At(KeyOf(subtrahend, start))| >= (capacity + 7) / 8
    {
      hide BitAt;
      ok := Pin(minuend, start);
      if ok {
        ok := Pin(subtrahend, start);
      }
    }

    /** The computation inside Redis: NOT the subtrahend, AND the minuend, read the answer. */
    method BitDifference(minuend: string, subtrahend: string, start: int) returns (ids: seq<int>)
      requires rdb.Valid()
      modifies rdb
      ensures rdb.Valid()
      ensures Lists(IntLess, ids,
                    UnpinnedDifference(old(Members(minuend, start)), old(Members(subtrahend, start)),
                                       old(|rdb.At(KeyOf(subtrahend, start))|), capacity))
      ensures forall name, at :: rdb.At(KeyOf(name, at)) == old(rdb.At(KeyOf(name, at)))
    {
      hide BitAt, Both, Inverted, UnpinnedDifference;
      var a, b := KeyOf(minuend, start), KeyOf(subtrahend, start);
      var notB := NotKey(prefix, subtrahend, start / 1_000_000_000);
      var dst := DiffKey(prefix, minuend, subtrahend, start / 1_000_000_000);
      ghost var ma, mb, before := rdb.At(a), rdb.At(b), rdb.strings;

      rdb.BitOpNot(notB, b);
      ghost var inverted := rdb.strings;
      SameElsewhere(before, inverted, notB, a);
      rdb.BitOpAnd(dst, a, notB);
      ghost var answer := rdb.At(dst);
      BitCountMeaning(answer);
      ReadsExactly(answer, capacity);
      UnpinnedBits(ma, mb, capacity);
      var n := BitCount(rdb.At(dst));
      ids := [];
      if n != 0 {
        var found := FromBytes(rdb.At(dst), capacity);
        ids := found.Ids();
      }
      ghost var after := rdb.strings;
      rdb.Del({notB, dst});
      forall name, at ensures rdb.At(KeyOf(name, at)) == old(rdb.At(KeyOf(name, at))) {
        SameElsewhere(before, inverted, notB, KeyOf(name, at));
        SameElsewhere(inverted, after, dst, KeyOf(name, at));
      }
    }

    /** The minuend without the subtrahend, as the server computes it. */
    method Difference(minuend: string, subtrahend: string, start: int) returns (r: Option<seq<int>>)
      requires rdb.Valid()
      modifies rdb
      ensures rdb.Valid()
      ensures r.None? <==> pinCapacity && capacity == 0
      ensures r.Some? && pinCapacity ==>
                Lists(IntLess, r.value,
                      PinnedDifference(old(Members(minuend, start)), old(Members(subtrahend, start)), capacity))
      ensures r.Some? && !pinCapacity ==>
                Lists(IntLess, r.value,
                      UnpinnedDifference(old(Members(minuend, start)), old(Members(subtrahend, start)),
                                         old(|rdb.At(KeyOf(subtrahend, start))|), capacity))
      // Both sets lose the member at the pinned bit; no other set, of this window or another, changes.
      ensures forall name, at ::
                (name != minuend && name != subtrahend) || at / 1_000_000_000 != start / 1_000_000_000 ==>
                Members(name, at) == old(Members(name, at))
      ensures forall name, at :: Members(name, at) ==
                old(Members(name, at)) -
                (if r.Some? && pinCapacity && KeyOf(name, at) in {KeyOf(minuend, start), KeyOf(subtrahend, start)}
                 then {capacity - 1} else {})
    {
      hide BitAt;
      if pinCapacity {
        var ok := PinBoth(minuend, subtrahend, start);
        if !ok {
          return None;
        }
      }
      ghost var m, s := Members(minuend, start), Members(subtrahend, start);
      ghost var bytes := |rdb.At(KeyOf(subtrahend, start))|;
      var ids := BitDifference(minuend, subtrahend, start);
      assert pinCapacity ==>
          UnpinnedDifference(m, s, bytes, capacity) ==
          PinnedDifference(old(Members(minuend, start)), old(Members(subtrahend, start)), capacity);
      return Some(ids);
    }
  }

  /** Adds the ids to one set of a window. */
  method AddAll(store: Store, name: string, start: int, ids: seq<U32>)
    requires store.rdb.Valid()
    modifies store.rdb
    ensures store.rdb.Valid()
    ensures store.Members(name, start) == old(store.Members(name, start)) + set id | id in ids && id < store.capacity
    ensures forall other, at :: other != name || at / 1_000_000_000 != start / 1_000_000_000 ==>
              store.Members(other, at) == old(store.Members(other, at))
  {
    hide IdsOf;
    for i := 0 to |ids|
      invariant store.rdb.Valid()
      invariant store.Members(name, start) ==
                old(store.Members(name, start)) + set id | id in ids[..i] && id < store.capacity
      invariant forall other, at :: other != name || at / 1_000_000_000 != start / 1_000_000_000 ==>
                  store.Members(other, at) == old(store.Members(other, at))
    {
      var _ := store.Add(name, start, ids[i]);
      assert ids[..i + 1] == ids[..i] + [ids[i]];
    }
    assert ids[..|ids|] == ids;
  }

  /** From an empty server: what was added to one set of a window and not to the other comes
      back, ascending, but for the id at the pinned bit. */
  method DifferenceOfAdded(store: Store, minuend: string, subtrahend: string, start: int, xs: seq<U32>, ys: seq<U32>)
    returns (ids: Option<seq<int>>)
    requires store.rdb.Valid() && store.rdb.strings == map[] && store.pinCapacity && store.capacity > 0
    requires minuend != subtrahend
    modifies store.rdb
    ensures ids.Some?
    ensures Lists(IntLess, ids.value, set id: int | id in xs && id !in ys && id < store.capacity - 1)
  {
    hide IdsOf;
    NothingStored(store, minuend, start);
    NothingStored(store, subtrahend, start);
    AddAll(store, minuend, start, xs);
    AddAll(store, subtrahend, start, ys);
    ghost var m, s := store.Members(minuend, start), store.Members(subtrahend, start);
    ids := store.Difference(minuend, subtrahend, start);
    assert PinnedDifference(m, s, store.capacity) ==
           set id: int | id in xs && id !in ys && id < store.capacity - 1;
  }

  lemma NothingStored(store: Store, name: string, start: int)
    requires store.rdb.strings == map[]
    ensures store.Members(name, start) == {}
  {}

  lemma UnpinnedBits(m: Bitmap, s: Bitmap, capacity: U32)
    ensures UnpinnedDifference(IdsOf(m), IdsOf(s), |s|, capacity) ==
            set p | p in IdsOf(Both(m, Inverted(s))) && p < capacity
  {}

  lemma SameElsewhere(before: map<Key, Bitmap>, after: map<Key, Bitmap>, dst: Key, k: Key)
    requires after - {dst} == before - {dst} && k != dst
    ensures k in after <==> k in before
    ensures k in after ==> after[k] == before[k]
  {
    assert k in after <==> k in after - {dst};
    assert k in before <==> k in before - {dst};
  }

  /** The pinned answer is the difference exactly when the last addressable id is not in it. */
  lemma PinnedIsExact(m: set<int>, s: set<int>, capacity: U32)
    requires forall p :: p in m ==> 0 <= p < capacity
    ensures PinnedDifference(m, s, capacity) == m - s <==> capacity - 1 !in m - s
  {}

  /** The unpinned answer is the difference exactly when the bytes of the subtrahend reach
      every violating member. */
  lemma UnpinnedIsExact(m: set<int>, s: set<int>, bytes: nat, capacity: U32)
    requires forall p :: p in m ==> 0 <= p < capacity
    ensures UnpinnedDifference(m, s, bytes, capacity) == m - s <==> forall p :: p in m - s ==> p < 8 * bytes
  {}

  /** The bitmap a window's set has after an initial pin and the additions `ids`. */
  ghost function Built(capacity: U32, ids: seq<nat>): Bitmap
    requires capacity > 0 && forall i :: 0 <= i < |ids| ==> ids[i] < capacity
  {
    if ids == [] then WithBit([], capacity - 1, false)
    else WithBit(Built(capacity, ids[..|ids| - 1]), ids[|ids| - 1], true)
  }

  lemma {:induction false} BuiltMeaning(capacity: U32, ids: seq<nat>)
    requires capacity > 0 && forall i :: 0 <= i < |ids| ==> ids[i] < capacity
    ensures |Built(capacity, ids)| == (capacity + 7) / 8
    ensures IdsOf(Built(capacity, ids)) == set id: int | id in ids
  {
    hide BitAt;
    if ids == [] {
      WithBitMeaning([], capacity - 1, false);
    } else {
      var rest := ids[..|ids| - 1];
      BuiltMeaning(capacity, rest);
      WithBitMeaning(Built(capacity, rest), ids[|ids| - 1], true);
      assert ids == rest + [ids[|ids| - 1]];
    }
  }

  /** A vector's bytes and the Redis bitmap of the same additions are the same bytes:
      `bytes` is what `ToBytes` promises of a vector whose members are `ids`. */
  lemma BytesAreTheRedisBitmap(capacity: U32, ids: seq<nat>, bytes: Bitmap)
    requires capacity > 0 && forall i :: 0 <= i < |ids| ==> ids[i] < capacity
    requires |bytes| == (capacity + 7) / 8 && IdsOf(bytes) == set id: int | id in ids
    ensures bytes == Built(capacity, ids)
  {
    BuiltMeaning(capacity, ids);
    BitmapsEqual(bytes, Built(capacity, ids));
  }
}
