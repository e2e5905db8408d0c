/** The hash-chained report (internal/report/report.go). */
module Reports {
  import opened Encoding
  import opened Options

  /** Sixty-four zeros. */
  const GENESIS: string := Zeros(64)

  function Zeros(n: nat): (s: string)
    ensures |s| == n && forall i :: 0 <= i < n ==> s[i] == '0'
  {
    if n == 0 then "" else Zeros(n - 1) + "0"
  }

  /** The longest line the scanner takes, newline included: 16 MiB. */
  const MAX_LINE := 0x100_0000

  /** SHA-256 in hex over a text; the RFC 3339 rendering of an instant in UTC; what marshalling
      makes of a JSON text (white space dropped, HTML characters escaped); and the bytes of the
      line of an entry, newline included. */
  datatype Primitives = Primitives(digest: string -> string, stamp: int -> string,
                                   compact: string -> string, width: Entry -> nat)

  /** Instants are rendered without NUL and told apart; digests are hex, so NUL-free; a
      marshalled text marshals to itself; a line holds its payload and more. */
  ghost predicate Sound(p: Primitives) {
    && (forall t: int :: NulFree(p.stamp(t)))
    && (forall t: int, u: int :: p.stamp(t) == p.stamp(u) ==> t == u)
    && (forall x: string :: NulFree(p.digest(x)))
    && (forall x: string :: p.compact(p.compact(x)) == p.compact(x))
    && (forall e: Entry :: p.width(e) > |p.compact(e.payload)|)
  }

  datatype Entry = Entry(seqNo: int, ts: int, payload: string, prevHash: string, hash: string)

  function Preimage(p: Primitives, seqNo: nat, ts: int, payload: string, prev: string): string {
    Decimal(seqNo) + [NUL] + (p.stamp(ts) + [NUL] + (payload + [NUL] + prev))
  }

  function Hash(p: Primitives, seqNo: nat, ts: int, payload: string, prev: string): string {
    p.digest(Preimage(p, seqNo, ts, payload, prev))
  }

  /** The hashed text: number, time, payload and predecessor, in this order, NUL between them. */
  lemma PreimageIs(p: Primitives, seqNo: nat, ts: int, payload: string, prev: string)
    ensures Preimage(p, seqNo, ts, payload, prev) ==
            Decimal(seqNo) + "\0" + p.stamp(ts) + "\0" + payload + "\0" + prev
  {
    hide Decimal;
  }

  /** The preimage determines its four parts; the payload may hold anything. */
  lemma PreimageInjective(p: Primitives, i: nat, t: int, x: string, u: string, j: nat, s: int, y: string, v: string)
    requires Sound(p) && NulFree(u) && NulFree(v)
    requires Preimage(p, i, t, x, u) == Preimage(p, j, s, y, v)
    ensures i == j && t == s && x == y && u == v
  {
    DecimalNulFree(i);
    DecimalNulFree(j);
    FieldUnique(Decimal(i), p.stamp(t) + [NUL] + (x + [NUL] + u), Decimal(j), p.stamp(s) + [NUL] + (y + [NUL] + v));
    DecimalInjective(i, j);
    FieldUnique(p.stamp(t), x + [NUL] + u, p.stamp(s), y + [NUL] + v);
    LastFieldUnique(x, u, y, v);
  }

  // Chains.

  function HeadOf(es: seq<Entry>): string {
    if es == [] then GENESIS else es[|es| - 1].hash
  }

  /** Entry `i` of `es` carries its number, its predecessor's hash, and its own hash. */
  ghost predicate Linked(p: Primitives, es: seq<Entry>, i: nat)
    requires i < |es|
  {
    && es[i].seqNo == i
    && es[i].prevHash == HeadOf(es[..i])
    && es[i].hash == Hash(p, i, es[i].ts, es[i].payload, es[i].prevHash)
  }

  ghost predicate Chain(p: Primitives, es: seq<Entry>) {
    forall i :: 0 <= i < |es| ==> Linked(p, es, i)
  }

  ghost function TextOf(p: Primitives, e: Entry): string
    requires e.seqNo >= 0
  {
    Preimage(p, e.seqNo, e.ts, e.payload, e.prevHash)
  }

  /** Two of the texts hashed in `a` and `b` collide, or one of them hashes to the genesis value. */
  ghost predicate Broken(p: Primitives, a: seq<Entry>, b: seq<Entry>) {
    || (exists d, e :: d in a + b && e in a + b && d.seqNo >= 0 && e.seqNo >= 0 &&
          TextOf(p, d) != TextOf(p, e) && p.digest(TextOf(p, d)) == p.digest(TextOf(p, e)))
    || (exists e :: e in a + b && e.seqNo >= 0 && p.digest(TextOf(p, e)) == GENESIS)
  }

  lemma PrefixOfChain(p: Primitives, es: seq<Entry>, n: nat)
    requires n <= |es| && Chain(p, es)
    ensures Chain(p, es[..n])
  {
    forall i | 0 <= i < n ensures Linked(p, es[..n], i) {
      assert Linked(p, es, i);
      assert es[..n][..i] == es[..i];
    }
  }

  lemma HashNulFree(p: Primitives, es: seq<Entry>)
    requires Sound(p) && Chain(p, es)
    ensures NulFree(HeadOf(es))
  {
    if es != [] {
      assert Linked(p, es, |es| - 1);
    }
  }

  /** Two entries with the same hash at the ends of two chains are the same entry, unless the
      digest is broken on what the chains hashed. */
  lemma SameHashSameEntry(p: Primitives, a: seq<Entry>, b: seq<Entry>, i: nat, j: nat)
    requires Sound(p) && Chain(p, a) && Chain(p, b)
    requires i < |a| && j < |b| && a[i].hash == b[j].hash
    ensures (i == j && a[i] == b[j]) || Broken(p, a, b)
  {
    var d, e := a[i], b[j];
    assert Linked(p, a, i) && Linked(p, b, j);
    assert d in a + b && e in a + b;
    if TextOf(p, d) == TextOf(p, e) {
      PrefixOfChain(p, a, i);
      PrefixOfChain(p, b, j);
      HashNulFree(p, a[..i]);
      HashNulFree(p, b[..j]);
      PreimageInjective(p, i, d.ts, d.payload, d.prevHash, j, e.ts, e.payload, e.prevHash);
    }
  }

  /** Walking back from a common entry, the two chains stay the same. */
  lemma {:induction false} SameBelow(p: Primitives, a: seq<Entry>, b: seq<Entry>, n: nat)
    requires Sound(p) && Chain(p, a) && Chain(p, b)
    requires n <= |a| && n <= |b| && HeadOf(a[..n]) == HeadOf(b[..n])
    ensures a[..n] == b[..n] || Broken(p, a, b)
  {
    if n > 0 {
      assert a[..n][n - 1] == a[n - 1] && b[..n][n - 1] == b[n - 1];
      SameHashSameEntry(p, a, b, n - 1, n - 1);
      assert Linked(p, a, n - 1) && Linked(p, b, n - 1);
      if !Broken(p, a, b) {
        SameBelow(p, a, b, n - 1);
        assert a[..n] == a[..n - 1] + [a[n - 1]];
        assert b[..n] == b[..n - 1] + [b[n - 1]];
      }
    }
  }

  /** A published head determines the whole report: its length and every entry. In
      particular a truncated report has another head. */
  lemma HeadDeterminesReport(p: Primitives, a: seq<Entry>, b: seq<Entry>)
    requires Sound(p) && Chain(p, a) && Chain(p, b)
    requires HeadOf(a) == HeadOf(b)
    ensures a == b || Broken(p, a, b)
  {
    if a == [] && b == [] {
    } else if a == [] {
      OnlyEmptyHasGenesis(p, b);
    } else if b == [] {
      OnlyEmptyHasGenesis(p, a);
    } else {
      SameHashSameEntry(p, a, b, |a| - 1, |b| - 1);
      if !Broken(p, a, b) {
        assert a[..|a|] == a && b[..|b|] == b;
        SameBelow(p, a, b, |a|);
      }
    }
  }

  lemma OnlyEmptyHasGenesis(p: Primitives, es: seq<Entry>)
    requires Chain(p, es) && es != [] && HeadOf(es) == GENESIS
    ensures forall other :: Broken(p, es, other) && Broken(p, other, es)
  {
    var e := es[|es| - 1];
    assert Linked(p, es, |es| - 1);
    forall other ensures Broken(p, es, other) && Broken(p, other, es) {
      assert e in es + other && e in other + es;
    }
  }

  lemma GenesisIs()
    ensures |GENESIS| == 64 && forall i :: 0 <= i < 64 ==> GENESIS[i] == '0'
  {}

  // Lines.

  /** A line of a report as the scanner hands it to the verifier. */
  datatype Line = Blank | Malformed | Parsed(entry: Entry) | TooLong

  predicate Fits(p: Primitives, e: Entry) {
    p.width(e) <= MAX_LINE
  }

  predicate IsCompact(p: Primitives, e: Entry) {
    p.compact(e.payload) == e.payload
  }

  /** An entry as its line reads. */
  function Rendered(p: Primitives, e: Entry): Entry {
    e.(payload := p.compact(e.payload))
  }

  function LineOf(p: Primitives, e: Entry): Line {
    if Fits(p, e) then Parsed(Rendered(p, e)) else TooLong
  }

  /** The lines of an entry list, as `Encode` renders it. */
  function Encode(p: Primitives, es: seq<Entry>): seq<Line> {
    seq(|es|, i requires 0 <= i < |es| => LineOf(p, es[i]))
  }

  /** What a failed write leaves in the file when `bytes` bytes of the line got there: a line
      without its newline still reads as a whole one, a shorter piece does not parse. */
  function Remnant(p: Primitives, e: Entry, bytes: nat): seq<Line> {
    if bytes == 0 then []
    else if bytes + 1 >= p.width(e) then [LineOf(p, e)]
    else if bytes >= MAX_LINE then [TooLong]
    else [Malformed]
  }

  /** The entries on a list of lines, up to the first line that is not one or is not blank. */
  ghost function EntriesOf(lines: seq<Line>): seq<Entry> {
    if lines == [] then []
    else match lines[0]
      case Blank => EntriesOf(lines[1..])
      case Parsed(e) => [e] + EntriesOf(lines[1..])
      case _ => []
  }

  /** A chain grows by exactly the entries that follow on its head. */
  lemma ChainExtends(p: Primitives, es: seq<Entry>, e: Entry)
    requires Chain(p, es)
    ensures Chain(p, es + [e]) <==> Linked(p, es + [e], |es|)
    ensures Linked(p, es + [e], |es|) <==>
            e.seqNo == |es| && e.prevHash == HeadOf(es) && e.hash == Hash(p, |es|, e.ts, e.payload, e.prevHash)
  {
    var longer := es + [e];
    assert longer[..|es|] == es;
    forall i | 0 <= i < |es| ensures Linked(p, longer, i) {
      assert Linked(p, es, i);
      assert longer[..i] == es[..i];
    }
  }

  // The writer.

  /** How writing and flushing a line ends: done, or an error with some bytes in the file. */
  datatype Fate = Written | Failed(bytes: nat)

  /** The entry that continues a chain of length `seqNo` with head `prev`. */
  function NextEntry(p: Primitives, seqNo: nat, ts: int, payload: string, prev: string): Entry {
    Entry(seqNo, ts, payload, prev, Hash(p, seqNo, ts, payload, prev))
  }

  class Writer {
    const p: Primitives
    var lines: seq<Line>
    var seqNo: nat
    var prev: string
    var failed: bool  // an error of the buffered writer stays
    ghost var written: seq<Entry>  // the entries whose writing was acknowledged

    /** The acknowledged entries are on the lines, in a chain; a failed write may have left one
        line more. */
    ghost predicate Valid()
      reads this
    {
      && Sound(p) && Chain(p, written) && (forall i :: 0 <= i < |written| ==> IsCompact(p, written[i]))
      && seqNo == |written| && prev == HeadOf(written)
      && |written| <= |lines| <= |written| + (if failed then 1 else 0)
      && lines[..|written|] == Encode(p, written)
      && (|lines| > |written| && lines[|written|].Parsed? ==> Chain(p, written + [lines[|written|].entry]))
    }

    constructor (p: Primitives)
      requires Sound(p)
      ensures this.p == p && Valid() && written == [] && lines == [] && !failed
    {
      this.p := p;
      lines, seqNo, prev, failed := [], 0, GENESIS, false;
      written := [];
    }

    /** `text` is the JSON of the value, if it has one; `now` is the clock. */
    method Append(text: Option<string>, now: int, fate: Fate) returns (r: Option<Entry>)
      requires Valid()
      modifies this
      ensures Valid()
      ensures r.Some? <==> text.Some? && !old(failed) && fate.Written?
      ensures written == if r.Some? then old(written) + [r.value] else old(written)
      ensures r.Some? ==> r.value.payload == p.compact(text.value) && r.value.ts == now
      ensures r.Some? ==> lines == old(lines) + [LineOf(p, r.value)] && !failed
      ensures r.None? ==> (failed <==> old(failed) || text.Some?)
      ensures r.None? && failed != old(failed) ==> fate.Failed?
      ensures r.None? && failed == old(failed) ==> lines == old(lines)
      ensures r.None? && failed != old(failed) ==>
                lines == old(lines) +
                         Remnant(p, NextEntry(p, old(seqNo), now, p.compact(text.value), old(prev)), fate.bytes)
    {
      hide Linked, Hash, LineOf;
      if text.None? {
        return None;
      }
      var e := NextEntry(p, seqNo, now, p.compact(text.value), prev);
      ChainExtends(p, written, e);
      assert LineOf(p, e).Parsed? ==> LineOf(p, e).entry == e by { LineReads(p, e); }
      if failed {
        return None;
      }
      if fate.Failed? {
        assert lines[..|written|] == lines;
        lines := lines + Remnant(p, e, fate.bytes);
        failed := true;
        return None;
      }
      assert lines[..|written|] == lines;
      lines := lines + [LineOf(p, e)];
      written := written + [e];
      seqNo := seqNo + 1;
      prev := e.hash;
      return Some(e);
    }

    method Head() returns (h: string)
      requires Valid()
      ensures h == HeadOf(written)
    {
      h := prev;
    }
  }

  lemma LineReads(p: Primitives, e: Entry)
    ensures LineOf(p, e).Parsed? <==> Fits(p, e)
    ensures IsCompact(p, e) && Fits(p, e) ==> LineOf(p, e).entry == e
  {}

  // The verifier.

  datatype Fault = NoFault | MalformedLine(seqNo: nat) | OutOfSequence(got: int) | DoesNotChain(at: int)
                 | ContentChanged(of: int) | ReadError

  /** The longest prefix of the entries on the lines that chains from genesis. */
  ghost predicate LongestChain(p: Primitives, es: seq<Entry>, all: seq<Entry>) {
    && es <= all && Chain(p, es)
    && (|es| < |all| ==> !Chain(p, all[..|es| + 1]))
  }

  /** The checks an entry has to pass, in the order of the source. */
  function Check(p: Primitives, e: Entry, want: nat, prev: string): (f: Fault)
    ensures f.NoFault? <==>
            e.seqNo == want && e.prevHash == prev && e.hash == Hash(p, want, e.ts, e.payload, e.prevHash)
  {
    if e.seqNo != want then OutOfSequence(e.seqNo)
    else if e.prevHash != prev then DoesNotChain(e.seqNo)
    else if Hash(p, e.seqNo, e.ts, e.payload, e.prevHash) != e.hash then ContentChanged(e.seqNo)
    else NoFault
  }

  lemma EntriesFrom(lines: seq<Line>, n: nat)
    requires n < |lines|
    ensures EntriesOf(lines[n..]) == match lines[n]
                                     case Blank => EntriesOf(lines[n + 1..])
                                     case Parsed(e) => [e] + EntriesOf(lines[n + 1..])
                                     case _ => []
  {}

  lemma StopsAt(p: Primitives, es: seq<Entry>, e: Entry, all: seq<Entry>)
    requires Chain(p, es) && es + [e] <= all && !Check(p, e, |es|, HeadOf(es)).NoFault?
    ensures LongestChain(p, es, all) && |es| < |all| && all[|es|] == e
    ensures Check(p, e, |es|, HeadOf(es)) ==
            (if e.seqNo != |es| then OutOfSequence(e.seqNo)
             else if e.prevHash != HeadOf(es) then DoesNotChain(|es|)
             else ContentChanged(|es|))
  {
    hide Hash;
    ChainExtends(p, es, e);
    assert all[..|es| + 1] == es + [e];
  }

  lemma TakeOne(es: seq<Entry>, e: Entry, rest: seq<Entry>)
    ensures es + ([e] + rest) == (es + [e]) + rest && es + [e] <= es + ([e] + rest)
  {}

  lemma AllAccepted(p: Primitives, es: seq<Entry>, rest: seq<Entry>)
    requires Chain(p, es) && rest == []
    ensures LongestChain(p, es, es + rest) && es + rest == es
  {}

  lemma EmptyChain(p: Primitives)
    ensures Chain(p, [])
  {}

  lemma NoMoreEntries(lines: seq<Line>, n: nat)
    ensures EntriesOf(lines[|lines|..]) == [] && Ending(lines[|lines|..], n) == NoFault
  {}

  /** Why reading ends where every entry on the lines is accepted, `n` of them before these. */
  function Ending(lines: seq<Line>, n: nat): Fault {
    if lines == [] then NoFault
    else match lines[0]
      case Blank => Ending(lines[1..], n)
      case Parsed(_) => Ending(lines[1..], n + 1)
      case Malformed => MalformedLine(n)
      case TooLong => ReadError
  }

  lemma EndingFrom(lines: seq<Line>, i: nat, n: nat)
    requires i < |lines|
    ensures Ending(lines[i..], n) == match lines[i]
                                     case Blank => Ending(lines[i + 1..], n)
                                     case Parsed(_) => Ending(lines[i + 1..], n + 1)
                                     case Malformed => MalformedLine(n)
                                     case TooLong => ReadError
  {
    assert lines[i..][1..] == lines[i + 1..];
  }

  ghost predicate FirstUnreadable(lines: seq<Line>, i: nat) {
    && i < |lines| && (lines[i].Malformed? || lines[i].TooLong?)
    && forall j :: 0 <= j < i ==> lines[j].Blank? || lines[j].Parsed?
  }

  lemma {:induction false} EndingIs(lines: seq<Line>, i: nat, n: nat)
    requires FirstUnreadable(lines, i)
    ensures Ending(lines, n) == if lines[i].TooLong? then ReadError else MalformedLine(n + |EntriesOf(lines)|)
  {
    if i > 0 {
      assert forall j :: 0 <= j < i - 1 ==> lines[1..][j] == lines[j + 1];
      EndingIs(lines[1..], i - 1, if lines[0].Parsed? then n + 1 else n);
    }
  }

  lemma EndingAlways(lines: seq<Line>)
    ensures forall i: nat :: FirstUnreadable(lines, i) ==>
              Ending(lines, 0) == if lines[i].TooLong? then ReadError else MalformedLine(|EntriesOf(lines)|)
  {
    hide Ending, EntriesOf;
    forall i: nat | FirstUnreadable(lines, i)
      ensures Ending(lines, 0) == if lines[i].TooLong? then ReadError else MalformedLine(|EntriesOf(lines)|)
    {
      EndingIs(lines, i, 0);
    }
  }

  /** A blank line says nothing. */
  lemma {:induction false} BlankIsSkipped(lines: seq<Line>, i: nat, n: nat)
    requires i < |lines| && lines[i].Blank?
    ensures EntriesOf(lines) == EntriesOf(lines[..i] + lines[i + 1..])
    ensures Ending(lines, n) == Ending(lines[..i] + lines[i + 1..], n)
  {
    if i == 0 {
      assert lines[..i] + lines[i + 1..] == lines[1..];
    } else {
      assert (lines[..i] + lines[i + 1..])[1..] == lines[1..][..i - 1] + lines[1..][i..];
      BlankIsSkipped(lines[1..], i - 1, if lines[0].Parsed? then n + 1 else n);
    }
  }

  /** Accepts the longest chain from genesis; the fault is the first reason not to go on. */
  method Verify(p: Primitives, lines: seq<Line>) returns (entries: seq<Entry>, head: string, fault: Fault)
    ensures LongestChain(p, entries, EntriesOf(lines))
    ensures head == HeadOf(entries)
    ensures fault.NoFault? <==>
            entries == EntriesOf(lines) && forall i :: 0 <= i < |lines| ==> lines[i].Blank? || lines[i].Parsed?
    // The first entry not accepted: its number is looked at first, then its link, then its content.
    ensures |entries| < |EntriesOf(lines)| ==>
              var e, want := EntriesOf(lines)[|entries|], |entries|;
              fault == (if e.seqNo != want then OutOfSequence(e.seqNo)
                        else if e.prevHash != head then DoesNotChain(want)
                        else ContentChanged(want))
    ensures |entries| == |EntriesOf(lines)| ==> fault == Ending(lines, 0)
    // With every entry accepted, the first line that cannot be read decides.
    ensures |entries| == |EntriesOf(lines)| ==>
              forall i: nat :: FirstUnreadable(lines, i) ==>
                fault == (if lines[i].TooLong? then ReadError else MalformedLine(|entries|))
  {
    hide Check, Hash, Linked, Chain, LongestChain, EntriesOf, Ending, FirstUnreadable;
    EmptyChain(p);
    EndingAlways(lines);
    entries, head := [], GENESIS;
    var want := 0;
    var n := 0;
    ghost var all := EntriesOf(lines);
    assert lines[0..] == lines;
    while n < |lines|
      invariant 0 <= n <= |lines| && want == |entries| && head == HeadOf(entries) && Chain(p, entries)
      invariant all == entries + EntriesOf(lines[n..])
      invariant Ending(lines, 0) == Ending(lines[n..], want)
      invariant forall i :: 0 <= i < n ==> lines[i].Blank? || lines[i].Parsed?
    {
      EntriesFrom(lines, n);
      EndingFrom(lines, n, want);
      match lines[n] {
        case Blank =>
        case Malformed =>
          AllAccepted(p, entries, EntriesOf(lines[n..]));
          return entries, head, MalformedLine(want);
        case TooLong =>
          AllAccepted(p, entries, EntriesOf(lines[n..]));
          return entries, head, ReadError;
        case Parsed(e) =>
          fault := Check(p, e, want, head);
          TakeOne(entries, e, EntriesOf(lines[n + 1..]));
          if fault != NoFault {
            StopsAt(p, entries, e, all);
            return;
          }
          ChainExtends(p, entries, e);
          entries := entries + [e];
          head := e.hash;
          want := want + 1;
      }
      n := n + 1;
    }
    NoMoreEntries(lines, want);
    AllAccepted(p, entries, EntriesOf(lines[n..]));
    return entries, head, NoFault;
  }

  // What is read back of what was written.

  /** Place of the first entry whose line is too long, or the length if there is none. */
  function FirstLong(p: Primitives, es: seq<Entry>): (n: nat)
    ensures n <= |es| && (n < |es| ==> !Fits(p, es[n])) && forall i :: 0 <= i < n ==> Fits(p, es[i])
  {
    if es == [] || !Fits(p, es[0]) then 0 else 1 + FirstLong(p, es[1..])
  }

  /** Reading rendered entries gives them compacted, up to the first line that is too long. */
  lemma {:induction false} EncodedReads(p: Primitives, es: seq<Entry>, rest: seq<Line>, from: nat)
    ensures var n := FirstLong(p, es);
            var lines := Encode(p, es) + rest;
            && EntriesOf(lines) == RenderedAll(p, es[..n]) + (if n == |es| then EntriesOf(rest) else [])
            && Ending(lines, from) == (if n == |es| then Ending(rest, from + n) else ReadError)
  {
    hide LineOf, Rendered, Fits, Encode, RenderedAll;
    var n := FirstLong(p, es);
    var lines := Encode(p, es) + rest;
    if es == [] {
      EncodeStep(p, es, rest);
      RenderStep(p, es, 0);
    } else {
      EncodeStep(p, es, rest);
      RenderStep(p, es, n);
      if Fits(p, es[0]) {
        LineRenders(p, es[0]);
        EncodedReads(p, es[1..], rest, from + 1);
      } else {
        LineTooLong(p, es[0]);
      }
    }
  }

  lemma EncodeStep(p: Primitives, es: seq<Entry>, rest: seq<Line>)
    ensures es == [] ==> Encode(p, es) + rest == rest
    ensures es != [] ==>
              var lines := Encode(p, es) + rest;
              |lines| > 0 && lines[0] == LineOf(p, es[0]) && lines[1..] == Encode(p, es[1..]) + rest
  {}

  lemma RenderStep(p: Primitives, es: seq<Entry>, n: nat)
    requires n <= |es|
    ensures RenderedAll(p, es[..n]) ==
            if n == 0 then [] else [Rendered(p, es[0])] + RenderedAll(p, es[1..][..n - 1])
  {}

  lemma LineRenders(p: Primitives, e: Entry)
    requires Fits(p, e)
    ensures LineOf(p, e) == Parsed(Rendered(p, e))
  {}

  lemma LineTooLong(p: Primitives, e: Entry)
    requires !Fits(p, e)
    ensures LineOf(p, e) == TooLong
  {}

  function RenderedAll(p: Primitives, es: seq<Entry>): seq<Entry> {
    seq(|es|, i requires 0 <= i < |es| => Rendered(p, es[i]))
  }

  /** Entries rendered back are read as the same entries exactly when every line fits and every
      payload is as marshalling leaves it. */
  lemma EncodeKeepsEntries(p: Primitives, es: seq<Entry>)
    ensures EntriesOf(Encode(p, es)) == es <==>
            forall i :: 0 <= i < |es| ==>
                          p.width(es[i]) <= 16 * 1024 * 1024 && p.compact(es[i].payload) == es[i].payload
  {
    assert forall i :: 0 <= i < |es| ==> (Fits(p, es[i]) <==> p.width(es[i]) <= 16 * 1024 * 1024);
    EncodedReads(p, es, [], 0);
    var n := FirstLong(p, es);
    assert Encode(p, es) + [] == Encode(p, es);
    assert RenderedAll(p, es[..n]) + [] == RenderedAll(p, es[..n]);
    if EntriesOf(Encode(p, es)) == es {
      assert n == |es| && es[..n] == es;
      forall i | 0 <= i < |es| ensures IsCompact(p, es[i]) {
        assert RenderedAll(p, es)[i] == es[i];
      }
    }
    if forall i :: 0 <= i < |es| ==> Fits(p, es[i]) && IsCompact(p, es[i]) {
      assert n == |es| && es[..n] == es;
      assert forall i :: 0 <= i < |es| ==> RenderedAll(p, es)[i] == es[i];
    }
  }

  /** An accepted report with a payload that marshalling changes is not accepted once rendered
      back, unless the digest is broken. */
  lemma RenderedBackChains(p: Primitives, es: seq<Entry>)
    requires Sound(p) && Chain(p, es)
    ensures Chain(p, RenderedAll(p, es)) ==>
              (forall i :: 0 <= i < |es| ==> IsCompact(p, es[i])) || Broken(p, es, RenderedAll(p, es))
    ensures (forall i :: 0 <= i < |es| ==> IsCompact(p, es[i])) ==> RenderedAll(p, es) == es
  {
    var back := RenderedAll(p, es);
    if Chain(p, back) {
      HeadDeterminesReport(p, es, back);
      if back == es {
        forall i | 0 <= i < |es| ensures IsCompact(p, es[i]) {
          assert back[i] == es[i];
        }
      }
    }
  }

  /** What is read of what a writer wrote. Without a write error it verifies without fault to
      exactly the acknowledged entries, with the writer's head, if and only if every line fits
      the scanner; otherwise to the entries before the first line that does not, with a read
      error. A write error leaves at most one entry more. */
  method WrittenReportVerifies(w: Writer) returns (entries: seq<Entry>, head: string, fault: Fault)
    requires w.Valid()
    ensures !w.failed ==>
              (entries == w.written && head == w.prev && fault == NoFault <==>
               forall i :: 0 <= i < |w.written| ==> w.p.width(w.written[i]) <= 16 * 1024 * 1024)
    ensures var n := FirstLong(w.p, w.written);
            n < |w.written| ==> entries == w.written[..n] && head == HeadOf(entries) && fault == ReadError
    ensures (forall i :: 0 <= i < |w.written| ==> w.p.width(w.written[i]) <= 16 * 1024 * 1024) ==>
              w.written <= entries && |entries| <= |w.lines|
  {
    hide Linked, Hash, LineOf, IsCompact;
    var p := w.p;
    ghost var es, rest := w.written, w.lines[|w.written|..];
    ghost var n := FirstLong(p, es);
    entries, head, fault := Verify(p, w.lines);
    assert w.lines == Encode(p, es) + rest;
    EncodedReads(p, es, rest, 0);
    CompactAsIs(p, es[..n]);
    PrefixOfChain(p, es, n);
    assert es[..|es|] == es;
    RestReads(rest);
    ghost var all := EntriesOf(w.lines);
    assert all[..|all|] == all;
    assert Chain(p, all);
    if |entries| < |all| {
      PrefixOfChain(p, all, |entries| + 1);
    }
  }

  lemma CompactAsIs(p: Primitives, es: seq<Entry>)
    requires forall i :: 0 <= i < |es| ==> IsCompact(p, es[i])
    ensures RenderedAll(p, es) == es
  {}

  lemma RestReads(rest: seq<Line>)
    requires |rest| <= 1
    ensures EntriesOf(rest) == if rest != [] && rest[0].Parsed? then [rest[0].entry] else []
    ensures rest == [] ==> forall n: nat :: Ending(rest, n) == NoFault
  {
    assert rest != [] ==> rest[1..] == [];
  }

  /** A value whose JSON alone fills a line is written and acknowledged, and its report is not
      accepted. */
  method LongPayloadIsRefused(p: Primitives, text: string, now: int) returns (w: Writer, fault: Fault)
    requires Sound(p) && |p.compact(text)| >= MAX_LINE
    ensures w.Valid() && !w.failed && |w.written| == 1 && w.written[0].payload == p.compact(text)
    ensures fault == ReadError
  {
    w := new Writer(p);
    var r := w.Append(Some(text), now, Written);
    assert p.compact(w.written[0].payload) == p.compact(text);
    assert !Fits(p, w.written[0]);
    var _, _, f := WrittenReportVerifies(w);
    fault := f;
  }

  /** Altering entry `i` of a chain while leaving its successor alone stops every accepted
      prefix before that successor, unless the digest is broken. */
  lemma AlteredEntryIsCaught(p: Primitives, es: seq<Entry>, altered: seq<Entry>, i: nat, accepted: seq<Entry>)
    requires Sound(p) && Chain(p, es) && i + 1 < |es| && i + 1 < |altered|
    requires altered[i] != es[i] && altered[i + 1] == es[i + 1]
    requires LongestChain(p, accepted, altered)
    ensures |accepted| <= i + 1 || Broken(p, es, accepted)
  {
    if |accepted| > i + 1 {
      assert accepted[i] == altered[i] && accepted[i + 1] == es[i + 1];
      assert Linked(p, accepted, i + 1) && Linked(p, es, i + 1);
      assert accepted[..i + 1][i] == accepted[i] && es[..i + 1][i] == es[i];
      SameHashSameEntry(p, es, accepted, i, i);
    }
  }
}
