/** The identity map (internal/idmap/idmap.go): string keys and dense uint32 ids, append-only. */
module IdMaps {
  import opened Ints
  import opened Encoding
  import opened Options
  import opened Sorting

  /** `fwd` and `rev` are inverse to each other, and every id fits its type. */
  ghost predicate Bijection(fwd: map<string, U32>, rev: seq<string>) {
    && |rev| <= TWO_32
    && (forall i :: 0 <= i < |rev| ==> rev[i] in fwd && fwd[rev[i]] == i)
    && (forall k :: k in fwd ==> fwd[k] < |rev| && rev[fwd[k]] == k)
  }

  /** The assignment after `key` is interned: known keys keep their place, a new one is appended. */
  function WithKey(keys: seq<string>, key: string): seq<string> {
    if key in keys then keys else keys + [key]
  }

  /** Both directions and the id after `key` is interned, as `Intern` leaves them. */
  function Interned(fwd: map<string, U32>, rev: seq<string>, key: string): (map<string, U32>, seq<string>, U32) {
    if key in fwd then (fwd, rev, fwd[key])
    else (fwd[key := Wrap32(|rev|)], rev + [key], Wrap32(|rev|))
  }

  /** The id of a key: its first place. */
  function IdOf(keys: seq<string>, key: string): (id: nat)
    requires key in keys
    ensures id < |keys| && keys[id] == key
    ensures forall i :: 0 <= i < id ==> keys[i] != key
  {
    if keys[0] == key then 0 else IdOf(keys[1..], key) + 1
  }

  /** Names for the actors of an alert; an id without a name is rendered as such. */
  function NamesOf(ids: seq<string>, q: seq<int>): seq<string> {
    if q == [] then []
    else
      var id := q[|q| - 1];
      NamesOf(ids, q[..|q| - 1]) +
      [if 0 <= id < |ids| then ids[id] else "<unmapped id " + Decimal(if id < 0 then 0 else id) + ">"]
  }

  lemma BijectionIsNoDuplicates(fwd: map<string, U32>, rev: seq<string>)
    requires Bijection(fwd, rev)
    ensures NoDuplicates(rev)
    ensures forall k :: k in fwd <==> k in rev
    ensures forall k :: k in fwd ==> fwd[k] == IdOf(rev, k)
  {}

  /** Assigning the next id keeps the bijection as long as the next id is not taken. */
  lemma AppendKeepsBijection(fwd: map<string, U32>, rev: seq<string>, key: string)
    requires Bijection(fwd, rev) && key !in fwd
    ensures Bijection(fwd[key := Wrap32(|rev|)], rev + [key]) <==> |rev| < TWO_32
  {}

  /** The text the checksum is taken over: `%d NUL key NUL` for each id from `from` on. */
  function Text(keys: seq<string>, from: nat := 0): string
    decreases |keys| - from
  {
    if from >= |keys| then "" else
      Decimal(from) + [NUL] + (keys[from] + [NUL] + Text(keys, from + 1))
  }

  /** The text of one more key follows that of the keys before it. */
  lemma {:induction false} TextAppends(keys: seq<string>, key: string, from: nat := 0)
    requires from <= |keys|
    ensures Text(keys + [key], from) == Text(keys, from) + (Decimal(|keys|) + [NUL] + (key + [NUL]))
    decreases |keys| - from
  {
    var longer := keys + [key];
    if from == |keys| {
      assert Text(longer, from + 1) == "" && key + [NUL] + "" == key + [NUL];
      assert Text(longer, from) == Decimal(from) + [NUL] + (key + [NUL] + "");
    } else {
      assert longer[from] == keys[from];
      TextAppends(keys, key, from + 1);
      Joined(Decimal(from) + [NUL], keys[from] + [NUL], Text(keys, from + 1), Decimal(|keys|) + [NUL] + (key + [NUL]));
    }
  }

  lemma Joined(a: string, b: string, x: string, y: string)
    ensures a + (b + (x + y)) == (a + (b + x)) + y
  {}

  ghost predicate Collision(digest: string -> string, x: string, y: string) {
    x != y && digest(x) == digest(y)
  }

  lemma {:induction false} TextInjective(a: seq<string>, b: seq<string>, from: nat)
    requires from <= |a| && from <= |b| && a[..from] == b[..from]
    requires forall i :: from <= i < |a| ==> NulFree(a[i])
    requires forall i :: from <= i < |b| ==> NulFree(b[i])
    requires Text(a, from) == Text(b, from)
    ensures a == b
    decreases |a| - from
  {
    if from < |a| && from < |b| {
      var d := Decimal(from);
      DecimalNulFree(from);
      FieldUnique(d, a[from] + [NUL] + Text(a, from + 1), d, b[from] + [NUL] + Text(b, from + 1));
      FieldUnique(a[from], Text(a, from + 1), b[from], Text(b, from + 1));
      TextInjective(a, b, from + 1);
    } else {
      assert a == a[..from] && b == b[..from];
    }
  }

  /** Replicas over NUL-free keys agree exactly when their checksums do, unless the digest
      collides on their two texts. */
  lemma ChecksumsAgree(digest: string -> string, a: seq<string>, b: seq<string>)
    requires forall i :: 0 <= i < |a| ==> NulFree(a[i])
    requires forall i :: 0 <= i < |b| ==> NulFree(b[i])
    ensures digest(Text(a)) == digest(Text(b)) <==> a == b || Collision(digest, Text(a), Text(b))
  {
    if Text(a) == Text(b) {
      TextInjective(a, b, 0);
    }
  }

  /** A key and its successor written as one key, with the number and the NULs between them. */
  function Merged(x: string, id: nat, y: string): string {
    x + [NUL] + Decimal(id) + [NUL] + y
  }

  lemma {:induction false} TextOfSuffix(init: seq<string>, a: seq<string>, b: seq<string>, from: nat)
    requires from <= |init| && Text(init + a, |init|) == Text(init + b, |init|)
    ensures Text(init + a, from) == Text(init + b, from)
    decreases |init| - from
  {
    if from < |init| {
      assert (init + a)[from] == init[from] == (init + b)[from];
      TextOfSuffix(init, a, b, from + 1);
    }
  }

  lemma Regroup(x: string, d: string, y: string)
    ensures x + [NUL] + (d + [NUL] + (y + [NUL] + "")) == (x + [NUL] + d + [NUL] + y) + [NUL] + ""
  {}

  /** The text of a list whose last two keys are `x` and `y` is that of a shorter list. */
  lemma LastTwoMerge(init: seq<string>, x: string, y: string)
    ensures Text(init + [x, y]) == Text(init + [Merged(x, |init| + 1, y)])
  {
    hide Decimal;
    var n := |init|;
    var two, one := init + [x, y], init + [Merged(x, n + 1, y)];
    assert two[n] == x && two[n + 1] == y && one[n] == Merged(x, n + 1, y);
    assert Text(two, n + 2) == "" && Text(one, n + 1) == "";
    assert Text(two, n + 1) == Decimal(n + 1) + [NUL] + (y + [NUL] + "");
    Regroup(x, Decimal(n + 1), y);
    TextOfSuffix(init, [x, y], [Merged(x, n + 1, y)], 0);
  }

  /** Every assignment of two or more keys, NUL-free or not, shares its text, hence its
      checksum, with an assignment of one key that holds NUL. */
  lemma {:induction false} NulInKeyDefeatsChecksum(keys: seq<string>) returns (twin: string)
    requires |keys| >= 2
    ensures Text([twin]) == Text(keys) && [twin] != keys && !NulFree(twin)
    decreases |keys|
  {
    var n := |keys| - 2;
    var init, x, y := keys[..n], keys[n], keys[n + 1];
    assert keys == init + [x, y];
    LastTwoMerge(init, x, y);
    if n == 0 {
      twin := Merged(x, 1, y);
      assert twin[|x|] == NUL;
      assert init + [twin] == [twin];
    } else {
      twin := NulInKeyDefeatsChecksum(init + [Merged(x, n + 1, y)]);
    }
  }

  /** The key reads as two: `x NUL 1 NUL y`. */
  ghost predicate ReadsAsTwo(key: string) {
    exists x, y :: key == Merged(x, 1, y)
  }

  lemma {:induction false} TextEndsInNul(keys: seq<string>, from: nat)
    requires from < |keys|
    ensures Text(keys, from) != "" && Text(keys, from)[|Text(keys, from)| - 1] == NUL
    decreases |keys| - from
  {
    if from + 1 < |keys| {
      TextEndsInNul(keys, from + 1);
    } else {
      assert Text(keys, from + 1) == "";
    }
  }

  lemma OnlyNoKeysHaveNoText(keys: seq<string>)
    ensures Text(keys) == "" <==> keys == []
  {
    if keys != [] {
      TextEndsInNul(keys, 0);
    }
  }

  /** A list with the text of a single key is that key, or reads it as two or more. */
  lemma SingleKeyText(key: string, other: seq<string>)
    requires Text(other) == Text([key])
    ensures other == [key] || ReadsAsTwo(key)
  {
    hide Decimal;
    assert Text([key], 1) == "";
    OnlyNoKeysHaveNoText([key]);
    OnlyNoKeysHaveNoText(other);
    DecimalNulFree(0);
    var rest := Text(other, 1);
    FieldUnique(Decimal(0), key + [NUL] + "", Decimal(0), other[0] + [NUL] + rest);
    assert key + [NUL] + "" == key + [NUL];
    if |other| == 1 {
      assert key == (key + [NUL])[..|key|] == other[0];
    } else {
      TextEndsInNul(other, 1);
      var tail := other[1] + [NUL] + Text(other, 2);
      assert rest == Decimal(1) + [NUL] + tail;
      assert tail[|tail| - 1] == rest[|rest| - 1] == NUL;
      Unwrap(key, other[0], Decimal(1), tail);
      assert key == Merged(other[0], 1, tail[..|tail| - 1]);
    }
  }

  lemma Unwrap(key: string, x: string, d: string, tail: string)
    requires tail != "" && tail[|tail| - 1] == NUL
    requires key + [NUL] == x + [NUL] + (d + [NUL] + tail)
    ensures key == x + [NUL] + d + [NUL] + tail[..|tail| - 1]
  {
    assert key == (key + [NUL])[..|key|];
    assert x + [NUL] + (d + [NUL] + tail) == (x + [NUL] + d + [NUL] + tail[..|tail| - 1]) + [NUL];
  }

  /** The checksum tells an assignment from every other, digest aside, exactly when it is empty
      or a single key that does not read as two. */
  lemma TextUnsharedExactly(keys: seq<string>)
    ensures (forall other :: Text(other) == Text(keys) ==> other == keys) <==>
            keys == [] || (|keys| == 1 && !ReadsAsTwo(keys[0]))
  {
    if |keys| >= 2 {
      var twin := NulInKeyDefeatsChecksum(keys);
      assert [twin] != keys;
    } else if |keys| == 1 {
      assert keys == [keys[0]];
      if ReadsAsTwo(keys[0]) {
        var x, y :| keys[0] == Merged(x, 1, y);
        LastTwoMerge([], x, y);
        assert [] + [x, y] == [x, y] && [] + [Merged(x, 1, y)] == keys;
      } else {
        forall other | Text(other) == Text(keys) ensures other == keys {
          SingleKeyText(keys[0], other);
        }
      }
    } else {
      forall other ensures Text(other) == Text(keys) ==> other == keys {
        OnlyNoKeysHaveNoText(other);
      }
    }
  }

  lemma {:induction false} TextGrows(keys: seq<string>, extra: seq<string>, from: nat)
    requires from <= |keys| && extra != []
    ensures |Text(keys + extra, from)| > |Text(keys, from)|
    decreases |keys| - from
  {
    if from < |keys| {
      assert (keys + extra)[from] == keys[from];
      TextGrows(keys, extra, from + 1);
    }
  }

  datatype Snapshot = Snapshot(keys: seq<string>, checksum: string)

  ghost predicate Accepted(digest: string -> string, s: Snapshot) {
    NoDuplicates(s.keys) && digest(Text(s.keys)) == s.checksum
  }

  /** Keys copied, then some key interned, then the checksum taken: the snapshot is refused. */
  lemma DisturbedSnapshotRefused(digest: string -> string, keys: seq<string>, extra: seq<string>)
    requires extra != []
    ensures !Accepted(digest, Snapshot(keys, digest(Text(keys + extra)))) ||
            Collision(digest, Text(keys), Text(keys + extra))
  {
    TextGrows(keys, extra, 0);
  }

  class IdMap {
    var fwd: map<string, U32>
    var rev: seq<string>

    ghost predicate Valid()
      reads this
    {
      Bijection(fwd, rev)
    }

    constructor ()
      ensures fwd == map[] && rev == [] && Valid()
    {
      fwd, rev := map[], [];
    }

    /** One call on its own: the check under the read lock and the one repeated under the write
        lock see the same map. Module `InternThreads` takes them apart. */
    method Intern(key: string) returns (id: U32)
      modifies this
      ensures (fwd, rev, id) == Interned(old(fwd), old(rev), key)
      ensures old(Valid()) ==> (Valid() <==> key in old(fwd) || |old(rev)| < TWO_32)
      ensures old(Valid()) && Valid() ==> rev == WithKey(old(rev), key) && id == IdOf(rev, key)
    {
      if key in fwd {
        id := fwd[key];
      } else {
        id := Wrap32(|rev|);
        fwd := fwd[key := id];
        rev := rev + [key];
      }
      assert old(Valid()) && key !in old(fwd) ==> (Valid() <==> |old(rev)| < TWO_32) by {
        if old(Valid()) && key !in old(fwd) {
          AppendKeepsBijection(old(fwd), old(rev), key);
        }
      }
      if old(Valid()) && Valid() {
        BijectionIsNoDuplicates(old(fwd), old(rev));
        BijectionIsNoDuplicates(fwd, rev);
      }
    }

    method Lookup(key: string) returns (id: Option<U32>)
      requires Valid()
      ensures id == if key in rev then Some(IdOf(rev, key)) else None
    {
      BijectionIsNoDuplicates(fwd, rev);
      id := if key in fwd then Some(fwd[key]) else None;
    }

    method Name(id: int) returns (name: Option<string>)
      ensures name == if 0 <= id < |rev| then Some(rev[id]) else None
    {
      name := if 0 <= id < |rev| then Some(rev[id]) else None;
    }

    method Names(q: seq<int>) returns (out: seq<string>)
      ensures out == NamesOf(rev, q) && |out| == |q|
      ensures forall i :: 0 <= i < |q| ==>
                out[i] == (if 0 <= q[i] < |rev| then rev[q[i]]
                           else "<unmapped id " + Decimal(if q[i] < 0 then 0 else q[i]) + ">")
    {
      out := [];
      for i := 0 to |q|
        invariant out == NamesOf(rev, q[..i]) && |out| == i
        invariant forall j :: 0 <= j < i ==>
                    out[j] == (if 0 <= q[j] < |rev| then rev[q[j]]
                               else "<unmapped id " + Decimal(if q[j] < 0 then 0 else q[j]) + ">")
      {
        var id := q[i];
        assert q[..i + 1][..i] == q[..i];
        if 0 <= id < |rev| {
          out := out + [rev[id]];
        } else {
          out := out + ["<unmapped id " + Decimal(if id < 0 then 0 else id) + ">"];
        }
      }
      assert q[..|q|] == q;
    }

    method Checksum(digest: string -> string) returns (sum: string)
      ensures sum == digest(Text(rev))
    {
      var h := "";
      for i := 0 to |rev|
        invariant h + Text(rev, i) == Text(rev)
      {
        ghost var rest := Text(rev, i + 1);
        var line := Decimal(i) + [NUL] + rev[i] + [NUL];
        assert h + Text(rev, i) == (h + line) + rest;
        h := h + line;
      }
      assert h + Text(rev, |rev|) == h;
      sum := digest(h);
    }

    method TakeSnapshot(digest: string -> string) returns (s: Snapshot)
      ensures s == Snapshot(rev, digest(Text(rev)))
    {
      var keys := rev;
      var sum := Checksum(digest);
      s := Snapshot(keys, sum);
    }
  }

  /** A snapshot is loaded exactly when its keys are distinct and its checksum is theirs. */
  method Load(digest: string -> string, s: Snapshot) returns (m: IdMap?)
    ensures m != null <==> Accepted(digest, s)
    ensures m != null ==> fresh(m) && m.rev == s.keys
    ensures m != null && |s.keys| <= TWO_32 ==> m.Valid()
  {
    var n := new IdMap();
    for i := 0 to |s.keys|
      invariant fresh(n) && n.rev == s.keys[..i] && NoDuplicates(s.keys[..i])
      invariant forall k :: k in n.fwd <==> k in s.keys[..i]
      invariant i <= TWO_32 ==> n.Valid()
    {
      var key := s.keys[i];
      if key in n.fwd {
        assert exists j :: 0 <= j < i && s.keys[..i][j] == key;
        return null;
      }
      assert s.keys[..i + 1] == s.keys[..i] + [key];
      var _ := n.Intern(key);
    }
    assert s.keys[..|s.keys|] == s.keys;
    var got := n.Checksum(digest);
    if got != s.checksum {
      return null;
    }
    m := n;
  }

  /** A snapshot taken without disturbance loads to the same assignment. */
  method ThroughSnapshot(digest: string -> string, m: IdMap) returns (n: IdMap?)
    requires m.Valid()
    ensures n != null && n.Valid() && n.rev == m.rev && n.fwd == m.fwd
  {
    BijectionIsNoDuplicates(m.fwd, m.rev);
    var s := m.TakeSnapshot(digest);
    n := Load(digest, s);
    BijectionIsNoDuplicates(n.fwd, n.rev);
    assert n.fwd.Keys == m.fwd.Keys;
  }
}
