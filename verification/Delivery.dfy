/** Events are windowed by their own time, so the order they are delivered in does not matter
    before a window closes - exactly as long as the id space has room for it. */
module Delivery {
  import opened Ints
  import opened Options
  import opened Sorting
  import opened Times
  import opened IdMaps
  import opened Engine
  import opened Traces
  import opened Refinement
  import opened Sequential

  function Feeds(evs: seq<Event>): seq<Op> {
    seq(|evs|, i requires 0 <= i < |evs| => Feed(evs[i]))
  }

  /** What an alert says: its type, its window and the set of its actors. */
  datatype Headline = Headline(kind: AlertKind, window: WindowRef, actors: set<string>)

  function HeadlineOf(a: Alert): Headline {
    Headline(a.kind, a.window, set x | x in a.actors)
  }

  function Headlines(alerts: seq<Alert>): seq<Headline> {
    seq(|alerts|, i requires 0 <= i < |alerts| => HeadlineOf(alerts[i]))
  }

  /** All that is reported when the events are delivered in this order and everything is then closed. */
  function ReportedAfter(c: ReadyConfig, ids0: seq<string>, evs: seq<Event>): Option<seq<Alert>> {
    Apply(c, RunOps(c, ids0, Feeds(evs)), CloseAll).1
  }

  /** The actors the run can intern, with those already known. */
  ghost function ActorSet(c: Config, ids0: seq<string>, evs: seq<Event>): set<string> {
    (set a | a in ids0) + (set ev | ev in evs && Trusted(c, ev) :: ev.actor)
  }

  /** Room for all actors, or no room for a new one. */
  ghost predicate OrderFree(c: Config, ids0: seq<string>, evs: seq<Event>) {
    |ActorSet(c, ids0, evs)| <= c.capacity || c.capacity <= |ids0|
  }

  /** `t` first observes `evs`, then only detaches and drains. */
  ghost predicate Delivers(t: Trace, evs: seq<Event>) {
    && |evs| <= |t.steps|
    && (forall j :: 0 <= j < |evs| ==> t.steps[j] == Step.Observe(evs[j]))
    && (forall j :: |evs| <= j < |t.steps| ==> !t.steps[j].Observe?)
  }

  // Which events are accepted does not depend on their order.

  ghost predicate Fits(c: Config, ids0: seq<string>, a: string) {
    |ids0| < c.capacity || a in ids0[..c.capacity]
  }

  lemma {:induction false} ListWithin(q: seq<string>, s: set<string>)
    requires NoDuplicates(q) && forall a :: a in q ==> a in s
    ensures |q| <= |s|
  {
    if q != [] {
      var init, a := q[..|q| - 1], q[|q| - 1];
      assert q == init + [a];
      ListWithin(init, s - {a});
    }
  }

  lemma {:induction false} KnownWithin(t: Trace, evs: seq<Event>, n: nat)
    requires Delivers(t, evs) && n <= |t.steps|
    ensures forall a :: a in t.Known(n) ==> a in ActorSet(t.c, t.ids0, evs)
  {
    hide KeyOf, Trace.Closed;
    if n > 0 {
      KnownWithin(t, evs, n - 1);
      if n - 1 < |evs| {
        assert t.steps[n - 1].ev == evs[n - 1] && evs[n - 1] in evs;
      }
    }
  }

  lemma NothingClosedYet(t: Trace, evs: seq<Event>, j: nat, k: int)
    requires Delivers(t, evs) && j <= |evs|
    ensures !t.Closed(j, k)
  {}

  lemma AcceptedWhenFits(t: Trace, evs: seq<Event>, j: nat, k: int)
    requires NoDuplicates(t.ids0) && Delivers(t, evs) && OrderFree(t.c, t.ids0, evs) && j < |evs|
    ensures t.Accepted(j, k) <==> t.Admits(j, k) && Fits(t.c, t.ids0, evs[j].actor)
  {
    hide KeyOf, Trace.Closed, ActorSet;
    NothingClosedYet(t, evs, j, k);
    if t.Admits(j, k) {
      var a, known := evs[j].actor, t.Known(j + 1);
      KnownGrows(t, j + 1, j + 1);
      KnownGrows(t, 0, j + 1);
      KnownWithin(t, evs, j + 1);
      if |t.ids0| < t.c.capacity {
        ListWithin(known, ActorSet(t.c, t.ids0, evs));
      } else if a in t.ids0[..t.c.capacity] {
        var i :| 0 <= i < t.c.capacity && t.ids0[i] == a;
        assert known[i] == a;
      }
    }
  }

  // The content of a window, read off the events as sets and sums.

  ghost predicate Into(c: ReadyConfig, ids0: seq<string>, ev: Event, k: int) {
    Trusted(c, ev) && KeyOf(c, ev) == k && Fits(c, ids0, ev.actor)
  }

  ghost function Actors(c: ReadyConfig, ids0: seq<string>, evs: seq<Event>, k: int, pick: Event -> bool): set<string> {
    set ev | ev in evs && Into(c, ids0, ev, k) && pick(ev) :: ev.actor
  }

  ghost function SetOf(t: Trace, n: nat, k: int, pick: Event -> bool): set<string> {
    set j: nat | j < n && t.Accepted(j, k) && pick(t.steps[j].ev) :: t.steps[j].ev.actor
  }

  lemma SetsByEvent(t: Trace, evs: seq<Event>, n: nat, k: int, pick: Event -> bool)
    requires NoDuplicates(t.ids0) && Delivers(t, evs) && OrderFree(t.c, t.ids0, evs) && |evs| <= n
    ensures SetOf(t, n, k, pick) == Actors(t.c, t.ids0, evs, k, pick)
  {
    hide KeyOf, Trace.Accepted, OrderFree, Fits;
    forall j: nat ensures t.Accepted(j, k) <==> j < |evs| && Into(t.c, t.ids0, evs[j], k) {
      if j < |evs| {
        AcceptedWhenFits(t, evs, j, k);
      } else if t.Accepted(j, k) {
        AcceptedObserves(t, j, k);
      }
    }
    forall a | a in Actors(t.c, t.ids0, evs, k, pick) ensures a in SetOf(t, n, k, pick) {
      var ev :| ev in evs && Into(t.c, t.ids0, ev, k) && pick(ev) && ev.actor == a;
      var j: nat :| j < |evs| && evs[j] == ev;
      assert t.Accepted(j, k) && pick(t.steps[j].ev);
    }
  }

  ghost function DeltaOf(c: ReadyConfig, ids0: seq<string>, k: int, a: string): Event -> int {
    ev => if Into(c, ids0, ev, k) && ev.Change? && ev.actor == a then ev.delta else 0
  }

  ghost function AmountOf(c: ReadyConfig, ids0: seq<string>, k: int, a: string): Event -> int {
    ev => if Into(c, ids0, ev, k) && ev.Cause? && ev.actor == a then ev.amount else 0
  }

  lemma {:induction false} SumsByEvent(t: Trace, evs: seq<Event>, n: nat, k: int, a: string)
    requires NoDuplicates(t.ids0) && Delivers(t, evs) && OrderFree(t.c, t.ids0, evs) && n <= |t.steps|
    ensures var m := if n < |evs| then n else |evs|;
            && t.DeltaSum(n, k, a) == Sum(DeltaOf(t.c, t.ids0, k, a), evs[..m])
            && t.AmountSum(n, k, a) == Sum(AmountOf(t.c, t.ids0, k, a), evs[..m])
  {
    hide KeyOf, Trace.Accepted, OrderFree, Fits, Trusted;
    if n > 0 {
      SumsByEvent(t, evs, n - 1, k, a);
      if n <= |evs| {
        AcceptedWhenFits(t, evs, n - 1, k);
        assert evs[..n][..n - 1] == evs[..n - 1];
      } else if t.Accepted(n - 1, k) {
        AcceptedObserves(t, n - 1, k);
      }
    }
  }

  // Headlines, read off the events.

  predicate IsChange(ev: Event) { ev.Change? }

  predicate IsCause(ev: Event) { ev.Cause? }

  ghost function IsCauseIn(kinds: map<string, bool>): Event -> bool {
    (ev: Event) => ev.Cause? && On(kinds, ev.kind)
  }

  ghost function Offenders(c: ReadyConfig, ids0: seq<string>, evs: seq<Event>, k: int): set<string> {
    set a | a in Actors(c, ids0, evs, k, IsChange) &&
            Wrap64(Sum(AmountOf(c, ids0, k, a), evs)) != Wrap64(Sum(DeltaOf(c, ids0, k, a), evs))
  }

  ghost function Head(c: Config, start: int, kind: AlertKind, actors: set<string>): seq<Headline> {
    if actors == {} then [] else [Headline(kind, Ref(c, start), actors)]
  }

  /** Events let through to the same key fall in the same window. Starts that an int64 can hold
      are their own keys, so this can only fail for windows 2^64 nanoseconds apart. */
  ghost predicate StartsAgree(c: ReadyConfig, evs: seq<Event>) {
    forall e, f :: e in evs && f in evs && Trusted(c, e) && Trusted(c, f) && KeyOf(c, e) == KeyOf(c, f) ==>
                     StartOf(c, e) == StartOf(c, f)
  }

  lemma FittingStartsAgree(c: ReadyConfig, evs: seq<Event>)
    requires forall ev :: ev in evs ==> InInt64(StartOf(c, ev))
    ensures StartsAgree(c, evs)
  {
    hide StartOf;
    forall ev | ev in evs ensures KeyOf(c, ev) == StartOf(c, ev) {
      WrapExact(StartOf(c, ev));
    }
  }

  /** The start of the window the events of key `k` fall in. */
  ghost function StartIn(c: ReadyConfig, evs: seq<Event>, k: int): int {
    if Reached(c, evs, k) then
      var ev :| ev in evs && Trusted(c, ev) && KeyOf(c, ev) == k;
      StartOf(c, ev)
    else 0
  }

  /** Some event is let through to window `k`. */
  ghost predicate Reached(c: ReadyConfig, evs: seq<Event>, k: int) {
    exists ev :: ev in evs && Trusted(c, ev) && KeyOf(c, ev) == k
  }

  lemma StartInIs(c: ReadyConfig, evs: seq<Event>, ev: Event)
    requires StartsAgree(c, evs) && ev in evs && Trusted(c, ev)
    ensures StartIn(c, evs, KeyOf(c, ev)) == StartOf(c, ev)
  {
    hide KeyOf, StartOf, Trusted;
  }

  ghost function WindowHeads(c: ReadyConfig, ids0: seq<string>, evs: seq<Event>, k: int): seq<Headline> {
    var start := StartIn(c, evs, k);
    var changed, justified := Actors(c, ids0, evs, k, IsChange), Actors(c, ids0, evs, k, IsCause);
    var derived, rooted := Actors(c, ids0, evs, k, IsCauseIn(c.derived)), Actors(c, ids0, evs, k, IsCauseIn(c.root));
    Head(c, start, UnauthorizedChange, changed - justified) +
    Head(c, start, MissingChange, justified - changed) +
    Head(c, start, ForgedCause, derived - rooted) +
    (if c.checkAmounts then Head(c, start, AmountMismatch, Offenders(c, ids0, evs, k)) else [])
  }

  lemma {:induction false} OpenStartIs(t: Trace, evs: seq<Event>, n: nat, k: int)
    requires Delivers(t, evs) && StartsAgree(t.c, evs) && n <= |t.steps| && t.Opened(n, k)
    ensures t.OpenStart(n, k) == StartIn(t.c, evs, k)
  {
    hide StartOf, KeyOf, Trace.Opened, StartsAgree, StartIn;
    assert n > 0 by { NotOpenedAtStart(t, k); }
    OpenedStep(t, n - 1, k);
    if t.Opened(n - 1, k) {
      OpenStartIs(t, evs, n - 1, k);
    } else {
      assert evs[n - 1] in evs;
      StartInIs(t.c, evs, evs[n - 1]);
    }
  }

  lemma NotOpenedAtStart(t: Trace, k: int)
    ensures !t.Opened(0, k)
  {}

  /** A finding lists its actors without loss. */
  lemma FindingHead(t: Trace, n: nat, k: int, kind: AlertKind, actors: set<string>)
    requires n <= |t.steps| && actors <= set a | a in t.Known(n)
    ensures Headlines(t.Finding(n, k, kind, actors)) == Head(t.c, t.OpenStart(n, k), kind, actors)
  {
    hide Trace.Known, Trace.OpenStart, Ref, Filter, LinesFor;
    FilterMembers(t.Known(n), actors);
    assert actors == set x | x in t.InOrder(n, actors);
  }

  lemma SetsAreKnown(t: Trace, n: nat, k: int)
    requires NoDuplicates(t.ids0) && n <= |t.steps|
    ensures t.Changed(n, k) + t.Justified(n, k) + t.Derived(n, k) + t.Rooted(n, k) <= set a | a in t.Known(n)
  {
    hide Trace.Accepted, Trace.Known, IdOf;
    forall j: nat | j < n && t.Accepted(j, k) ensures t.steps[j].Observe? && t.steps[j].ev.actor in t.Known(n) {
      AcceptedObserves(t, j, k);
      AcceptedIsKnown(t, j, n, k);
    }
  }

  lemma NamedSets(t: Trace, n: nat, k: int)
    ensures t.Changed(n, k) == SetOf(t, n, k, IsChange) && t.Justified(n, k) == SetOf(t, n, k, IsCause)
    ensures t.Derived(n, k) == SetOf(t, n, k, IsCauseIn(t.c.derived))
    ensures t.Rooted(n, k) == SetOf(t, n, k, IsCauseIn(t.c.root))
  {}

  /** The four sets and the offenders of a window, whatever order its events came in. */
  lemma ContentByEvent(t: Trace, evs: seq<Event>, n: nat, k: int)
    requires NoDuplicates(t.ids0) && Delivers(t, evs) && OrderFree(t.c, t.ids0, evs) && |evs| <= n <= |t.steps|
    ensures t.Changed(n, k) == Actors(t.c, t.ids0, evs, k, IsChange)
    ensures t.Justified(n, k) == Actors(t.c, t.ids0, evs, k, IsCause)
    ensures t.Derived(n, k) == Actors(t.c, t.ids0, evs, k, IsCauseIn(t.c.derived))
    ensures t.Rooted(n, k) == Actors(t.c, t.ids0, evs, k, IsCauseIn(t.c.root))
    ensures t.MismatchedActors(n, k) == Offenders(t.c, t.ids0, evs, k)
  {
    hide Trace.Changed, Trace.Justified, Trace.Derived, Trace.Rooted, SetOf, Actors, Delivers, OrderFree, Wrap64,
         Trace.DeltaSum, Trace.AmountSum, Sum, DeltaOf, AmountOf;
    NamedSets(t, n, k);
    SetsByEvent(t, evs, n, k, IsChange);
    SetsByEvent(t, evs, n, k, IsCause);
    SetsByEvent(t, evs, n, k, IsCauseIn(t.c.derived));
    SetsByEvent(t, evs, n, k, IsCauseIn(t.c.root));
    assert evs[..|evs|] == evs;
    forall a
      ensures t.DeltaSum(n, k, a) == Sum(DeltaOf(t.c, t.ids0, k, a), evs)
      ensures t.AmountSum(n, k, a) == Sum(AmountOf(t.c, t.ids0, k, a), evs)
    {
      SumsByEvent(t, evs, n, k, a);
    }
  }

  lemma HeadlinesConcat(a: seq<Alert>, b: seq<Alert>)
    ensures Headlines(a + b) == Headlines(a) + Headlines(b)
  {}

  lemma WindowHeadsMatch(t: Trace, evs: seq<Event>, n: nat, k: int)
    requires NoDuplicates(t.ids0) && Delivers(t, evs) && OrderFree(t.c, t.ids0, evs) && StartsAgree(t.c, evs)
    requires |evs| <= n <= |t.steps| && t.Opened(n, k)
    ensures Headlines(t.WindowAlerts(n, k)) == WindowHeads(t.c, t.ids0, evs, k)
  {
    hide Trace.Changed, Trace.Justified, Trace.Derived, Trace.Rooted, Trace.Known, Trace.OpenStart, Trace.Opened,
         Trace.Finding, Trace.MismatchFinding, Trace.MismatchedActors, Head, Headlines, Actors, Offenders, OrderFree;
    OpenStartIs(t, evs, n, k);
    ContentByEvent(t, evs, n, k);
    SetsAreKnown(t, n, k);
    var f1 := t.Finding(n, k, UnauthorizedChange, t.Changed(n, k) - t.Justified(n, k));
    var f2 := t.Finding(n, k, MissingChange, t.Justified(n, k) - t.Changed(n, k));
    var f3 := t.Finding(n, k, ForgedCause, t.Derived(n, k) - t.Rooted(n, k));
    FindingHead(t, n, k, UnauthorizedChange, t.Changed(n, k) - t.Justified(n, k));
    FindingHead(t, n, k, MissingChange, t.Justified(n, k) - t.Changed(n, k));
    FindingHead(t, n, k, ForgedCause, t.Derived(n, k) - t.Rooted(n, k));
    MismatchHead(t, n, k);
    HeadlinesConcat(f1, f2);
    HeadlinesConcat(f1 + f2, f3);
    HeadlinesConcat(f1 + f2 + f3, t.MismatchFinding(n, k));
  }

  lemma MismatchHead(t: Trace, n: nat, k: int)
    requires n <= |t.steps| && t.Changed(n, k) <= set a | a in t.Known(n)
    ensures Headlines(t.MismatchFinding(n, k)) ==
            if t.c.checkAmounts then Head(t.c, t.OpenStart(n, k), AmountMismatch, t.MismatchedActors(n, k)) else []
  {
    hide Trace.Known, Trace.OpenStart, Ref, Filter, LinesFor, SumsFor, Trace.Changed, Wrap64, Trace.DeltaSum,
         Trace.AmountSum;
    var actors := t.MismatchedActors(n, k);
    FilterMembers(t.Known(n), actors);
    assert actors == set x | x in t.InOrder(n, actors);
  }

  // Headlines of the ingest alerts.

  ghost function IngestHeads(c: ReadyConfig, ids0: seq<string>, ev: Event): seq<Headline> {
    if !Trusted(c, ev) then [Headline(UntrustedProducer, Ref(c, StartOf(c, ev)), {ev.actor})]
    else if Fits(c, ids0, ev.actor) then []
    else [Headline(CapacityExceeded, Ref(c, StartOf(c, ev)), {ev.actor})]
  }

  ghost function AllIngestHeads(c: ReadyConfig, ids0: seq<string>, evs: seq<Event>): seq<Headline> {
    if evs == [] then []
    else AllIngestHeads(c, ids0, evs[..|evs| - 1]) + IngestHeads(c, ids0, evs[|evs| - 1])
  }

  lemma OneHeadline(a: Alert, x: string)
    requires a.actors == [x]
    ensures Headlines([a]) == [Headline(a.kind, a.window, {x})]
  {
    assert (set y | y in [x]) == {x};
  }

  lemma IngestHead(t: Trace, evs: seq<Event>, j: nat)
    requires NoDuplicates(t.ids0) && Delivers(t, evs) && j < |evs|
    requires OrderFree(t.c, t.ids0, evs) && StartsAgree(t.c, evs)
    ensures Headlines(t.IngestAlerts(j)) == IngestHeads(t.c, t.ids0, evs[j])
  {
    hide StartOf, Trace.Closed, Trace.Accepted, Trace.OpenStart, OrderFree, Fits, IdOf, Ref;
    var ev := evs[j];
    var k := KeyOf(t.c, ev);
    NothingClosedYet(t, evs, j, k);
    AcceptedWhenFits(t, evs, j, k);
    if !Trusted(t.c, ev) {
      OneHeadline(UntrustedAlert(t.c, ev), ev.actor);
    } else {
      assert t.Admits(j, k);
      OpenedStep(t, j, k);
      OpenStartIs(t, evs, j + 1, k);
      StartInIs(t.c, evs, ev);
      if !Fits(t.c, t.ids0, ev.actor) {
        OneHeadline(CapacityAlert(t.c, StartOf(t.c, ev), ev, IdOf(t.Known(j + 1), ev.actor)), ev.actor);
      }
    }
  }

  lemma {:induction false} PendingHeads(t: Trace, evs: seq<Event>, n: nat)
    requires NoDuplicates(t.ids0) && Delivers(t, evs) && OrderFree(t.c, t.ids0, evs) && StartsAgree(t.c, evs)
    requires n <= |t.steps| && forall j :: 0 <= j < n ==> !t.steps[j].Drain?
    ensures Headlines(t.Pending(n)) == AllIngestHeads(t.c, t.ids0, if n < |evs| then evs[..n] else evs)
  {
    hide IngestHeads, Headlines, OrderFree, StartsAgree, Delivers, Trace.IngestAlerts, NoDuplicates;
    DeliversSteps(t, evs);
    assert evs[..|evs|] == evs;
    if n == 0 {
      NoHeadlines();
      assert evs[..0] == [];
    } else {
      PendingHeads(t, evs, n - 1);
      if n <= |evs| {
        IngestHead(t, evs, n - 1);
        HeadlinesConcat(t.Pending(n - 1), t.IngestAlerts(n - 1));
        assert evs[..n][..n - 1] == evs[..n - 1];
      } else {
        assert t.Pending(n - 1) + [] == t.Pending(n - 1);
      }
    }
  }

  lemma DeliversSteps(t: Trace, evs: seq<Event>)
    requires Delivers(t, evs)
    ensures |evs| <= |t.steps| && forall j :: |evs| <= j < |t.steps| ==> t.IngestAlerts(j) == []
  {}

  lemma NoHeadlines()
    ensures Headlines([]) == []
  {}

  ghost function AllWindowHeads(c: ReadyConfig, ids0: seq<string>, evs: seq<Event>, keys: seq<int>): seq<Headline> {
    if keys == [] then [] else WindowHeads(c, ids0, evs, keys[0]) + AllWindowHeads(c, ids0, evs, keys[1..])
  }

  lemma {:induction false} ReportHeads(t: Trace, evs: seq<Event>, n: nat, keys: seq<int>)
    requires NoDuplicates(t.ids0) && Delivers(t, evs) && OrderFree(t.c, t.ids0, evs) && StartsAgree(t.c, evs)
    requires |evs| <= n && n + |keys| <= |t.steps| && forall i :: 0 <= i < |keys| ==> t.Opened(|evs|, keys[i])
    ensures Headlines(Reports(t, n, keys)) == AllWindowHeads(t.c, t.ids0, evs, keys)
    decreases keys
  {
    hide WindowHeads, Headlines, OrderFree, StartsAgree, Trace.WindowAlerts, Trace.Admits, Delivers;
    if keys == [] {
      NoHeadlines();
    } else {
      assert t.Opened(n, keys[0]);
      WindowHeadsMatch(t, evs, n, keys[0]);
      ReportHeads(t, evs, n + 1, keys[1..]);
      HeadlinesConcat(t.WindowAlerts(n, keys[0]), Reports(t, n + 1, keys[1..]));
    }
  }

  // Permutations.

  lemma SameMembers(p: seq<Event>, q: seq<Event>)
    requires multiset(p) == multiset(q)
    ensures forall ev :: ev in p <==> ev in q
  {
    assert forall ev :: ev in p <==> ev in multiset(p);
    assert forall ev :: ev in q <==> ev in multiset(q);
  }

  lemma StartInPermuted(c: ReadyConfig, p: seq<Event>, q: seq<Event>, k: int)
    requires multiset(p) == multiset(q) && StartsAgree(c, p)
    ensures StartsAgree(c, q) && StartIn(c, p, k) == StartIn(c, q, k)
  {
    hide KeyOf, StartOf, Trusted;
    SameMembers(p, q);
    if Reached(c, p, k) {
      var ev :| ev in p && Trusted(c, ev) && KeyOf(c, ev) == k;
      StartInIs(c, p, ev);
      StartInIs(c, q, ev);
    }
  }

  lemma WindowHeadsPermuted(c: ReadyConfig, ids0: seq<string>, p: seq<Event>, q: seq<Event>, k: int)
    requires multiset(p) == multiset(q) && StartsAgree(c, p)
    ensures WindowHeads(c, ids0, p, k) == WindowHeads(c, ids0, q, k)
  {
    hide Into, Head, Sum, DeltaOf, AmountOf, Wrap64, StartsAgree, StartIn, Reached;
    SameMembers(p, q);
    StartInPermuted(c, p, q, k);
    forall pick: Event -> bool ensures Actors(c, ids0, p, k, pick) == Actors(c, ids0, q, k, pick) {}
    forall a
      ensures Sum(DeltaOf(c, ids0, k, a), p) == Sum(DeltaOf(c, ids0, k, a), q)
      ensures Sum(AmountOf(c, ids0, k, a), p) == Sum(AmountOf(c, ids0, k, a), q)
    {
      SumPermuted(DeltaOf(c, ids0, k, a), p, q);
      SumPermuted(AmountOf(c, ids0, k, a), p, q);
    }
    assert Offenders(c, ids0, p, k) == Offenders(c, ids0, q, k);
  }

  lemma {:induction false} AllWindowHeadsPermuted(c: ReadyConfig, ids0: seq<string>, p: seq<Event>,
                                                  q: seq<Event>, keys: seq<int>)
    requires multiset(p) == multiset(q) && StartsAgree(c, p)
    ensures AllWindowHeads(c, ids0, p, keys) == AllWindowHeads(c, ids0, q, keys)
  {
    hide WindowHeads, StartsAgree;
    if keys != [] {
      WindowHeadsPermuted(c, ids0, p, q, keys[0]);
      AllWindowHeadsPermuted(c, ids0, p, q, keys[1..]);
    }
  }

  lemma {:induction false} IngestCount(c: ReadyConfig, ids0: seq<string>, evs: seq<Event>, h: Headline)
    ensures multiset(AllIngestHeads(c, ids0, evs))[h] ==
            Sum((ev: Event) => multiset(IngestHeads(c, ids0, ev))[h] as int, evs)
  {
    hide IngestHeads;
    if evs != [] {
      IngestCount(c, ids0, evs[..|evs| - 1], h);
    }
  }

  lemma IngestPermuted(c: ReadyConfig, ids0: seq<string>, p: seq<Event>, q: seq<Event>)
    requires multiset(p) == multiset(q)
    ensures multiset(AllIngestHeads(c, ids0, p)) == multiset(AllIngestHeads(c, ids0, q))
  {
    hide IngestHeads, AllIngestHeads;
    forall h ensures multiset(AllIngestHeads(c, ids0, p))[h] == multiset(AllIngestHeads(c, ids0, q))[h] {
      IngestCount(c, ids0, p, h);
      IngestCount(c, ids0, q, h);
      SumPermuted((ev: Event) => multiset(IngestHeads(c, ids0, ev))[h] as int, p, q);
    }
  }

  // The whole run.

  lemma {:induction false} FeedSteps(c: ReadyConfig, ids0: seq<string>, evs: seq<Event>)
    ensures |EngineSteps(c, ids0, Feeds(evs))| == |evs|
    ensures forall j :: 0 <= j < |evs| ==> EngineSteps(c, ids0, Feeds(evs))[j] == Step.Observe(evs[j])
  {
    hide RunOps;
    if evs != [] {
      var init, ev := evs[..|evs| - 1], evs[|evs| - 1];
      FeedSteps(c, ids0, init);
      assert Feeds(evs) == Feeds(init) + [Feed(ev)];
      StepsAppend(c, ids0, Feeds(init), Feed(ev));
    }
  }

  lemma OpenedByEvent(t: Trace, evs: seq<Event>, k: int)
    requires Delivers(t, evs)
    ensures t.Opened(|evs|, k) <==> Reached(t.c, evs, k)
  {
    hide KeyOf, Trusted;
    if Reached(t.c, evs, k) {
      var ev :| ev in evs && Trusted(t.c, ev) && KeyOf(t.c, ev) == k;
      var j: nat :| j < |evs| && evs[j] == ev;
      assert t.Admits(j, k);
    }
    if t.Opened(|evs|, k) {
      var j: nat :| j < |evs| && t.Admits(j, k);
      assert evs[j] in evs;
    }
  }

  lemma OpenAfterFeeds(c: ReadyConfig, ids0: seq<string>, evs: seq<Event>, k: int)
    requires NoDuplicates(ids0) && NeverPanics(c)
    ensures k in RunOps(c, ids0, Feeds(evs)).windows <==> Reached(c, evs, k)
  {
    hide RunOps, Feeds, Trace.Run, Trace.Opened, Trace.Closed, Reached;
    var t := EngineTrace(c, ids0, Feeds(evs));
    FeedSteps(c, ids0, evs);
    assert Delivers(t, evs);
    RunOpsIsRun(c, ids0, Feeds(evs));
    RunRefines(t, |evs|);
    KeyFacts(t, |evs|, k, t.Run(|evs|));
    NothingClosedYet(t, evs, |evs|, k);
    OpenedByEvent(t, evs, k);
  }

  lemma FinalTrace(c: ReadyConfig, ids0: seq<string>, evs: seq<Event>)
    ensures var s := RunOps(c, ids0, Feeds(evs));
            var t := EngineTrace(c, ids0, Feeds(evs) + [CloseAll]);
            && Delivers(t, evs) && |EngineSteps(c, ids0, Feeds(evs))| == |evs|
            && |t.steps| == |evs| + |Ascend(s.windows.Keys)| + 1
            && (forall j :: 0 <= j < |t.steps| - 1 ==> !t.steps[j].Drain?)
  {
    hide RunOps, Feeds, Ascend, EngineSteps;
    FeedSteps(c, ids0, evs);
    StepsAppend(c, ids0, Feeds(evs), CloseAll);
  }

  lemma ReportedIs(c: ReadyConfig, ids0: seq<string>, evs: seq<Event>) returns (keys: seq<int>)
    requires NoDuplicates(ids0) && NeverPanics(c) && OrderFree(c, ids0, evs) && StartsAgree(c, evs)
    ensures Ascending(IntLess, keys) && forall k :: k in keys <==> Reached(c, evs, k)
    ensures ReportedAfter(c, ids0, evs).Some?
    ensures Headlines(ReportedAfter(c, ids0, evs).value) ==
            AllIngestHeads(c, ids0, evs) + AllWindowHeads(c, ids0, evs, keys)
  {
    hide Apply, RunOps, OrderFree, StartsAgree, NeverPanics, Trace.Pending, Trace.Opened, Headlines, Feeds, Reached,
         Delivers, EngineSteps, Ascend, Refines, Trace.Run, AllIngestHeads, AllWindowHeads, Reports;
    var s := RunOps(c, ids0, Feeds(evs));
    var t := EngineTrace(c, ids0, Feeds(evs) + [CloseAll]);
    keys := Ascend(s.windows.Keys);
    RunReportsSteps(c, ids0, Feeds(evs), CloseAll);
    FinalTrace(c, ids0, evs);
    AscendLists(s.windows.Keys);
    AscendAscends(s.windows.Keys);
    forall k ensures k in s.windows <==> Reached(c, evs, k) {
      OpenAfterFeeds(c, ids0, evs, k);
    }
    forall i | 0 <= i < |keys| ensures t.Opened(|evs|, keys[i]) {
      assert keys[i] in keys;
      OpenedByEvent(t, evs, keys[i]);
    }
    PendingHeads(t, evs, |evs| + |keys|);
    ReportHeads(t, evs, |evs|, keys);
    HeadlinesConcat(t.Pending(|evs| + |keys|), Reports(t, |evs|, keys));
  }

  lemma AscendAscends(s: set<int>)
    ensures Ascending(IntLess, Ascend(s))
  {}

  /** Two runs that are given the same events in any two orders, and then closed, report the
      same alert types for the same windows about the same sets of actors. */
  lemma OrderDoesNotMatter(c: ReadyConfig, ids0: seq<string>, p: seq<Event>, q: seq<Event>)
    requires NoDuplicates(ids0) && NeverPanics(c) && OrderFree(c, ids0, p) && StartsAgree(c, p)
    requires multiset(p) == multiset(q)
    ensures ReportedAfter(c, ids0, p).Some? && ReportedAfter(c, ids0, q).Some?
    ensures multiset(Headlines(ReportedAfter(c, ids0, p).value)) == multiset(Headlines(ReportedAfter(c, ids0, q).value))
  {
    hide ReportedAfter, Headlines, AllIngestHeads, AllWindowHeads, NeverPanics, KeyOf, StartOf;
    SameMembers(p, q);
    assert ActorSet(c, ids0, p) == ActorSet(c, ids0, q);
    var kp := ReportedIs(c, ids0, p);
    var kq := ReportedIs(c, ids0, q);
    assert forall k :: Reached(c, p, k) <==> Reached(c, q, k);
    IntOrder();
    assert (set k | k in kp) == set k | k in kq;
    ListsUnique(IntLess, kp, kq, set k | k in kp);
    IngestPermuted(c, ids0, p, q);
    AllWindowHeadsPermuted(c, ids0, p, q, kp);
  }

  // Without room for every actor the order does matter.

  function WithActor(evs: seq<Event>, x: string, keep: bool): seq<Event> {
    if evs == [] then []
    else WithActor(evs[..|evs| - 1], x, keep) +
         (if (evs[|evs| - 1].actor == x) == keep then [evs[|evs| - 1]] else [])
  }

  lemma {:induction false} Parted(evs: seq<Event>, x: string)
    ensures multiset(WithActor(evs, x, true) + WithActor(evs, x, false)) == multiset(evs)
  {
    if evs != [] {
      Parted(evs[..|evs| - 1], x);
      assert evs == evs[..|evs| - 1] + [evs[|evs| - 1]];
    }
  }

  lemma {:induction false} PartMembers(evs: seq<Event>, x: string, keep: bool)
    ensures forall ev :: ev in WithActor(evs, x, keep) <==> ev in evs && (ev.actor == x) == keep
  {
    if evs != [] {
      PartMembers(evs[..|evs| - 1], x, keep);
      assert evs == evs[..|evs| - 1] + [evs[|evs| - 1]];
    }
  }

  lemma {:induction false} ElementsAtMost(q: seq<string>)
    ensures |set a | a in q| <= |q|
  {
    if q != [] {
      var init := q[..|q| - 1];
      ElementsAtMost(init);
      assert q == init + [q[|q| - 1]];
      assert (set a | a in q) == (set a | a in init) + {q[|q| - 1]};
    }
  }

  /** Somebody new asks for an id. */
  lemma NewcomerExists(c: Config, ids0: seq<string>, evs: seq<Event>) returns (x: string)
    requires !OrderFree(c, ids0, evs)
    ensures x !in ids0 && exists ev :: ev in evs && Trusted(c, ev) && ev.actor == x
  {
    var former := set a | a in ids0;
    var asking := set ev | ev in evs && Trusted(c, ev) :: ev.actor;
    ElementsAtMost(ids0);
    assert ActorSet(c, ids0, evs) == former + asking;
    assert asking <= former ==> former + asking == former;
    x :| x in asking && x !in former;
  }

  lemma {:induction false} KnownIs(t: Trace, evs: seq<Event>, n: nat)
    requires Delivers(t, evs) && n <= |evs|
    ensures forall a :: a in t.Known(n) <==>
              a in t.ids0 || exists j: nat :: j < n && Trusted(t.c, evs[j]) && evs[j].actor == a
  {
    hide KeyOf, Trace.Closed, Trusted;
    if n > 0 {
      KnownIs(t, evs, n - 1);
      if Trusted(t.c, evs[n - 1]) {
        NothingClosedYet(t, evs, n - 1, KeyOf(t.c, evs[n - 1]));
      }
    }
  }

  /** While only `x` has been seen, only `x` has been interned. */
  lemma {:induction false} OnlyOneNew(t: Trace, evs: seq<Event>, n: nat, x: string)
    requires Delivers(t, evs) && n <= |evs| && x !in t.ids0 && forall j :: 0 <= j < n ==> evs[j].actor == x
    ensures t.Known(n) == t.ids0 || t.Known(n) == t.ids0 + [x]
  {
    hide KeyOf, Trace.Reaches;
    if n > 0 {
      OnlyOneNew(t, evs, n - 1, x);
    }
  }

  ghost predicate Overflow(a: Alert, x: string) {
    a.kind == CapacityExceeded && a.actors == [x]
  }

  /** An overflow is raised about `x` exactly by its events that find no room. */
  lemma OverflowRaised(t: Trace, evs: seq<Event>, j: nat, x: string)
    requires Delivers(t, evs) && j < |evs|
    ensures (exists a :: a in t.IngestAlerts(j) && Overflow(a, x)) <==>
            Trusted(t.c, evs[j]) && evs[j].actor == x && x in t.Known(j + 1) && IdOf(t.Known(j + 1), x) >= t.c.capacity
  {
    hide KeyOf, Trace.Closed, Trace.OpenStart, IdOf;
    var ev := evs[j];
    NothingClosedYet(t, evs, j, KeyOf(t.c, ev));
    if Trusted(t.c, ev) && ev.actor == x && IdOf(t.Known(j + 1), x) >= t.c.capacity {
      assert CapacityAlert(t.c, t.OpenStart(j + 1, KeyOf(t.c, ev)), ev, IdOf(t.Known(j + 1), x)) in t.IngestAlerts(j);
    }
  }

  lemma {:induction false} PendingMembers(t: Trace, n: nat)
    requires n <= |t.steps| && forall j :: 0 <= j < n ==> !t.steps[j].Drain?
    ensures forall a :: a in t.Pending(n) <==> exists j: nat :: j < n && a in t.IngestAlerts(j)
  {
    hide Trace.IngestAlerts;
    if n > 0 {
      PendingMembers(t, n - 1);
    }
  }

  lemma {:induction false} ReportKinds(t: Trace, n: nat, keys: seq<int>)
    requires n + |keys| <= |t.steps|
    ensures forall a :: a in Reports(t, n, keys) ==> a.kind != CapacityExceeded
    decreases keys
  {
    hide Trace.Changed, Trace.Justified, Trace.Derived, Trace.Rooted, Trace.MismatchedActors, Trace.InOrder,
         LinesFor, SumsFor;
    if keys != [] {
      ReportKinds(t, n + 1, keys[1..]);
    }
  }

  /** What is reported contains an overflow of `x` exactly when some event raises one. */
  lemma OverflowReported(c: ReadyConfig, ids0: seq<string>, evs: seq<Event>, x: string)
    requires NoDuplicates(ids0) && NeverPanics(c)
    ensures ReportedAfter(c, ids0, evs).Some?
    ensures var t := EngineTrace(c, ids0, Feeds(evs) + [CloseAll]);
            && Delivers(t, evs)
            && ((exists a :: a in ReportedAfter(c, ids0, evs).value && Overflow(a, x)) <==>
                exists j: nat :: j < |evs| && exists a :: a in t.IngestAlerts(j) && Overflow(a, x))
            && (forall a :: a in ReportedAfter(c, ids0, evs).value && a.kind == CapacityExceeded ==> |a.actors| == 1)
  {
    hide Apply, RunOps, NeverPanics, Feeds, EngineSteps, Ascend, Refines, Trace.Run, Trace.Pending, Reports,
         Trace.IngestAlerts;
    var s := RunOps(c, ids0, Feeds(evs));
    var t := EngineTrace(c, ids0, Feeds(evs) + [CloseAll]);
    var keys := Ascend(s.windows.Keys);
    RunReportsSteps(c, ids0, Feeds(evs), CloseAll);
    FinalTrace(c, ids0, evs);
    PendingMembers(t, |evs| + |keys|);
    ReportKinds(t, |evs|, keys);
    forall j: nat | |evs| <= j < |evs| + |keys| ensures t.IngestAlerts(j) == [] {
      QuietIngest(t, j);
    }
    forall j: nat | j < |evs| ensures forall a :: a in t.IngestAlerts(j) ==> |a.actors| == 1 {
      IngestNamesOne(t, j);
    }
  }

  lemma IngestNamesOne(t: Trace, j: nat)
    requires j < |t.steps|
    ensures forall a :: a in t.IngestAlerts(j) ==> |a.actors| == 1
  {}

  lemma QuietIngest(t: Trace, j: nat)
    requires j < |t.steps| && !t.steps[j].Observe?
    ensures t.IngestAlerts(j) == []
  {}

  /** Overflows show in the headlines. */
  lemma OverflowHeadline(alerts: seq<Alert>, x: string)
    requires forall a :: a in alerts && a.kind == CapacityExceeded ==> |a.actors| == 1
    ensures (exists a :: a in alerts && Overflow(a, x)) <==>
            exists h :: h in Headlines(alerts) && h.kind == CapacityExceeded && h.actors == {x}
  {
    if exists a :: a in alerts && Overflow(a, x) {
      var a :| a in alerts && Overflow(a, x);
      var i :| 0 <= i < |alerts| && alerts[i] == a;
      assert (set y | y in [x]) == {x};
      assert Headlines(alerts)[i] == HeadlineOf(a);
      assert HeadlineOf(a) in Headlines(alerts);
    }
    if exists h :: h in Headlines(alerts) && h.kind == CapacityExceeded && h.actors == {x} {
      var h :| h in Headlines(alerts) && h.kind == CapacityExceeded && h.actors == {x};
      var i :| 0 <= i < |alerts| && Headlines(alerts)[i] == h;
      var a := alerts[i];
      assert a in alerts && a.actors[0] in h.actors;
      assert a.actors == [x];
    }
  }

  /** With `x` first it always has room. */
  lemma FirstHasRoom(t: Trace, evs: seq<Event>, m: nat, x: string, j: nat)
    requires NoDuplicates(t.ids0) && Delivers(t, evs) && m <= |evs| && x !in t.ids0 && |t.ids0| < t.c.capacity
    requires forall i :: 0 <= i < |evs| ==> (evs[i].actor == x <==> i < m)
    requires j < |evs|
    ensures forall a :: a in t.IngestAlerts(j) ==> !Overflow(a, x)
  {
    hide Trace.IngestAlerts, Trace.Known;
    OverflowRaised(t, evs, j, x);
    if j < m {
      OnlyOneNew(t, evs, j + 1, x);
      if x in t.Known(j + 1) {
        assert (t.ids0 + [x])[|t.ids0|] == x;
      }
    }
  }

  /** Before the first event of `x` everybody else is known. */
  lemma OthersAreKnown(t: Trace, evs: seq<Event>, m: nat, x: string)
    requires Delivers(t, evs) && m <= |evs| && x !in t.ids0
    requires forall i :: 0 <= i < |evs| ==> (evs[i].actor == x <==> m <= i)
    ensures x !in t.Known(m) && |t.Known(m)| + 1 >= |ActorSet(t.c, t.ids0, evs)|
  {
    hide Trace.Known, Trusted, Delivers;
    DeliversLength(t, evs);
    KnownIs(t, evs, m);
    var known := t.Known(m);
    var others := set a | a in known;
    ElementsAtMost(known);
    forall a | a in ActorSet(t.c, t.ids0, evs) && a != x ensures a in others {
      if a !in t.ids0 {
        var e :| e in evs && Trusted(t.c, e) && e.actor == a;
        var i: nat :| i < |evs| && evs[i] == e;
        assert i < m;
      }
    }
    SubsetCardinality(ActorSet(t.c, t.ids0, evs), others + {x});
  }

  lemma LaterId(known: seq<string>, more: seq<string>, x: string)
    requires known <= more && x !in known && x in more
    ensures IdOf(more, x) >= |known|
  {}

  /** With `x` last, and more actors than ids, it finds none left. */
  lemma LastHasNoRoom(t: Trace, evs: seq<Event>, m: nat, x: string, j: nat)
    requires NoDuplicates(t.ids0) && Delivers(t, evs) && m <= |evs| && x !in t.ids0
    requires forall i :: 0 <= i < |evs| ==> (evs[i].actor == x <==> m <= i)
    requires j < |evs| && Trusted(t.c, evs[j]) && evs[j].actor == x
    requires |ActorSet(t.c, t.ids0, evs)| > t.c.capacity
    ensures exists a :: a in t.IngestAlerts(j) && Overflow(a, x)
  {
    hide Trace.IngestAlerts, Trace.Known, Trusted, ActorSet, IdOf, Delivers, NoDuplicates;
    OthersAreKnown(t, evs, m, x);
    KnownIs(t, evs, j + 1);
    DeliversLength(t, evs);
    KnownGrows(t, m, j + 1);
    LaterId(t.Known(m), t.Known(j + 1), x);
    OverflowRaised(t, evs, j, x);
  }

  lemma DeliversLength(t: Trace, evs: seq<Event>)
    requires Delivers(t, evs)
    ensures |evs| <= |t.steps|
  {}

  lemma {:induction false} SubsetCardinality(s: set<string>, u: set<string>)
    requires s <= u
    ensures |s| <= |u|
  {
    if s != {} {
      var a :| a in s;
      SubsetCardinality(s - {a}, u - {a});
    }
  }

  /** The events with those of `x` moved to the front, and to the back. */
  lemma Reorderings(c: Config, ids0: seq<string>, evs: seq<Event>, x: string)
    returns (m: nat, p: seq<Event>, n: nat, q: seq<Event>)
    ensures multiset(p) == multiset(evs) && multiset(q) == multiset(evs)
    ensures m <= |p| && forall i :: 0 <= i < |p| ==> (p[i].actor == x <==> i < m)
    ensures n <= |q| && forall i :: 0 <= i < |q| ==> (q[i].actor == x <==> n <= i)
  {
    var xs, rest := WithActor(evs, x, true), WithActor(evs, x, false);
    PartMembers(evs, x, true);
    PartMembers(evs, x, false);
    Parted(evs, x);
    m, p, n, q := |xs|, xs + rest, |rest|, rest + xs;
    assert multiset(q) == multiset(p);
    forall i | 0 <= i < |p| ensures p[i].actor == x <==> i < |xs| {
      if i < |xs| { assert p[i] in xs; } else { assert p[i] in rest; }
    }
    forall i | 0 <= i < |q| ensures q[i].actor == x <==> |rest| <= i {
      if i < |rest| { assert q[i] in rest; } else { assert q[i] in xs; }
    }
  }

  ghost predicate HeadlinesOverflow(c: ReadyConfig, ids0: seq<string>, evs: seq<Event>, x: string)
    requires ReportedAfter(c, ids0, evs).Some?
  {
    exists h :: h in Headlines(ReportedAfter(c, ids0, evs).value) && h.kind == CapacityExceeded && h.actors == {x}
  }

  lemma FirstIsQuiet(c: ReadyConfig, ids0: seq<string>, p: seq<Event>, m: nat, x: string)
    requires NoDuplicates(ids0) && NeverPanics(c) && m <= |p| && x !in ids0 && |ids0| < c.capacity
    requires forall i :: 0 <= i < |p| ==> (p[i].actor == x <==> i < m)
    ensures ReportedAfter(c, ids0, p).Some? && !HeadlinesOverflow(c, ids0, p, x)
  {
    hide ReportedAfter, Headlines, Delivers, Trace.IngestAlerts, EngineSteps, NeverPanics;
    OverflowReported(c, ids0, p, x);
    var t := EngineTrace(c, ids0, Feeds(p) + [CloseAll]);
    DeliversLength(t, p);
    forall j: nat | j < |p| ensures forall a :: a in t.IngestAlerts(j) ==> !Overflow(a, x) {
      FirstHasRoom(t, p, m, x, j);
    }
    OverflowHeadline(ReportedAfter(c, ids0, p).value, x);
  }

  lemma LastOverflows(c: ReadyConfig, ids0: seq<string>, q: seq<Event>, n: nat, x: string)
    requires NoDuplicates(ids0) && NeverPanics(c) && n <= |q| && x !in ids0
    requires forall i :: 0 <= i < |q| ==> (q[i].actor == x <==> n <= i)
    requires exists ev :: ev in q && Trusted(c, ev) && ev.actor == x
    requires |ActorSet(c, ids0, q)| > c.capacity
    ensures ReportedAfter(c, ids0, q).Some? && HeadlinesOverflow(c, ids0, q, x)
  {
    hide ReportedAfter, Headlines, Delivers, Trace.IngestAlerts, EngineSteps, NeverPanics, ActorSet, Trusted;
    OverflowReported(c, ids0, q, x);
    var ev :| ev in q && Trusted(c, ev) && ev.actor == x;
    var j: nat :| j < |q| && q[j] == ev;
    DeliversLength(EngineTrace(c, ids0, Feeds(q) + [CloseAll]), q);
    LastHasNoRoom(EngineTrace(c, ids0, Feeds(q) + [CloseAll]), q, n, x, j);
    OverflowHeadline(ReportedAfter(c, ids0, q).value, x);
  }

  /** Where there is room for some new actor but not for all, two orders of the same events
      report different things. */
  lemma OrderMattersOtherwise(c: ReadyConfig, ids0: seq<string>, evs: seq<Event>) returns (p: seq<Event>, q: seq<Event>)
    requires NoDuplicates(ids0) && NeverPanics(c) && !OrderFree(c, ids0, evs)
    ensures multiset(p) == multiset(evs) && multiset(q) == multiset(evs)
    ensures ReportedAfter(c, ids0, p).Some? && ReportedAfter(c, ids0, q).Some?
    ensures multiset(Headlines(ReportedAfter(c, ids0, p).value)) != multiset(Headlines(ReportedAfter(c, ids0, q).value))
  {
    hide ReportedAfter, Headlines, NeverPanics, Trusted;
    var x := NewcomerExists(c, ids0, evs);
    var m, n;
    m, p, n, q := Reorderings(c, ids0, evs, x);
    SameMembers(evs, q);
    assert ActorSet(c, ids0, q) == ActorSet(c, ids0, evs);
    FirstIsQuiet(c, ids0, p, m, x);
    LastOverflows(c, ids0, q, n, x);
    var h :| h in Headlines(ReportedAfter(c, ids0, q).value) && h.kind == CapacityExceeded && h.actors == {x};
    assert h in multiset(Headlines(ReportedAfter(c, ids0, q).value));
    assert h !in multiset(Headlines(ReportedAfter(c, ids0, p).value));
  }

  ghost predicate SameReport(c: ReadyConfig, ids0: seq<string>, p: seq<Event>, q: seq<Event>) {
    && ReportedAfter(c, ids0, p).Some? && ReportedAfter(c, ids0, q).Some?
    && multiset(Headlines(ReportedAfter(c, ids0, p).value)) == multiset(Headlines(ReportedAfter(c, ids0, q).value))
  }

  /** Delivery order is irrelevant exactly when there is room for every actor of the events, or
      for none that is new. */
  lemma OrderFreeExactly(c: ReadyConfig, ids0: seq<string>, evs: seq<Event>)
    requires NoDuplicates(ids0) && NeverPanics(c) && StartsAgree(c, evs)
    ensures OrderFree(c, ids0, evs) <==>
            forall p, q :: multiset(p) == multiset(evs) && multiset(q) == multiset(evs) ==> SameReport(c, ids0, p, q)
  {
    hide ReportedAfter, Headlines, NeverPanics, StartOf;
    if OrderFree(c, ids0, evs) {
      forall p, q | multiset(p) == multiset(evs) && multiset(q) == multiset(evs) ensures SameReport(c, ids0, p, q) {
        SameMembers(p, evs);
        assert ActorSet(c, ids0, p) == ActorSet(c, ids0, evs);
        OrderDoesNotMatter(c, ids0, p, q);
      }
    } else {
      var p, q := OrderMattersOtherwise(c, ids0, evs);
      assert !SameReport(c, ids0, p, q);
    }
  }

  // Windows 2^64 nanoseconds apart share a key, and then the order shows in the reported start.

  lemma AlertsOfWindow(t: Trace, n: nat, k: int)
    requires n <= |t.steps|
    ensures forall a :: a in t.WindowAlerts(n, k) ==> a.window == Ref(t.c, t.OpenStart(n, k))
    ensures t.Changed(n, k) - t.Justified(n, k) != {} ==> t.WindowAlerts(n, k) != []
  {
    hide Trace.Changed, Trace.Justified, Trace.Derived, Trace.Rooted, Trace.MismatchedActors, Trace.InOrder,
         Trace.OpenStart, LinesFor, SumsFor, Ref;
  }

  /** Two changes in one key: the window's start is that of the first. */
  lemma TwoChanges(c: ReadyConfig, ids0: seq<string>, e: Event, f: Event)
    requires NoDuplicates(ids0) && NeverPanics(c) && e.Change? && f.Change?
    requires KeyOf(c, e) == KeyOf(c, f) && |ids0| + 2 <= c.capacity
    ensures ReportedAfter(c, ids0, [e, f]).Some? && ReportedAfter(c, ids0, [e, f]).value != []
    ensures forall a :: a in ReportedAfter(c, ids0, [e, f]).value ==> a.window == Ref(c, StartOf(c, e))
  {
    hide KeyOf, StartOf, Apply, RunOps, NeverPanics, Feeds, EngineSteps, Ascend, Ref, Trace.Run, Trace.WindowAlerts,
         Trace.Known, Trace.Opened, Trace.Closed, Trace.Changed, Trace.Justified;
    var evs, k := [e, f], KeyOf(c, e);
    var s := RunOps(c, ids0, Feeds(evs));
    var t := EngineTrace(c, ids0, Feeds(evs) + [CloseAll]);
    RunReportsSteps(c, ids0, Feeds(evs), CloseAll);
    FinalTrace(c, ids0, evs);
    forall x ensures x in s.windows <==> x == k {
      OpenAfterFeeds(c, ids0, evs, x);
      assert evs[0] in evs;
    }
    assert s.windows.Keys == {k};
    IntOrder();
    AscendLists({k});
    AscendAscends({k});
    ListsUnique(IntLess, Ascend({k}), [k], {k});
    TwoAccepted(t, e, f);
    QuietIngest(t, 2);
    AlertsOfWindow(t, 2, k);
    PendingMembers(t, 3);
    forall j: nat | j < 3 ensures t.IngestAlerts(j) == [] {}
    NoneIn(t.Pending(3));
    assert Reports(t, 2, [k]) == t.WindowAlerts(2, k);
  }

  lemma TwoAccepted(t: Trace, e: Event, f: Event)
    requires NoDuplicates(t.ids0) && Delivers(t, [e, f]) && e.Change? && f.Change?
    requires KeyOf(t.c, e) == KeyOf(t.c, f) && |t.ids0| + 2 <= t.c.capacity && |t.steps| > 2
    ensures var k := KeyOf(t.c, e);
            && t.OpenStart(2, k) == StartOf(t.c, e) && t.Changed(2, k) - t.Justified(2, k) != {}
            && t.IngestAlerts(0) == [] && t.IngestAlerts(1) == []
  {
    hide KeyOf, StartOf, Trace.Closed, Trace.Known, Trace.Opened, Fits, OrderFree, Trace.Accepted, Trace.Changed,
         Trace.Justified, IdOf;
    var k, evs := KeyOf(t.c, e), [e, f];
    TwoHaveRoom(t.c, t.ids0, e, f);
    NotOpenedAtStart(t, k);
    OpenedStep(t, 0, k);
    NothingBeforeOpening(t, 0, k, "");
    forall j: nat | j < 2 ensures t.Accepted(j, k) && t.steps[j] == Step.Observe(evs[j]) && !t.Closed(j, k) {
      NothingClosedYet(t, evs, j, k);
      AcceptedWhenFits(t, evs, j, k);
    }
    SetsStep(t, 0, k);
    SetsStep(t, 1, k);
    assert e.actor in t.Changed(2, k) - t.Justified(2, k);
  }

  lemma TwoHaveRoom(c: ReadyConfig, ids0: seq<string>, e: Event, f: Event)
    requires |ids0| + 2 <= c.capacity
    ensures OrderFree(c, ids0, [e, f]) && Fits(c, ids0, e.actor) && Fits(c, ids0, f.actor)
  {
    ElementsAtMost(ids0);
    var known := set a | a in ids0;
    SubsetCardinality(ActorSet(c, ids0, [e, f]), known + {e.actor, f.actor});
  }

  lemma NoneIn(alerts: seq<Alert>)
    ensures (forall a :: a !in alerts) <==> alerts == []
  {
    if alerts != [] {
      assert alerts[0] in alerts;
    }
  }

  /** The agreement of starts is needed: of two changes whose windows share a key, delivery
      order decides which window is reported. */
  lemma SharedKeyOrderMatters(c: ReadyConfig, ids0: seq<string>, e: Event, f: Event)
    requires NoDuplicates(ids0) && NeverPanics(c) && e.Change? && f.Change? && |ids0| + 2 <= c.capacity
    requires KeyOf(c, e) == KeyOf(c, f) && StartOf(c, e) != StartOf(c, f)
    ensures multiset([e, f]) == multiset([f, e]) && OrderFree(c, ids0, [e, f])
    ensures !SameReport(c, ids0, [e, f], [f, e])
  {
    hide KeyOf, StartOf, ReportedAfter, OrderFree, NeverPanics, Trusted;
    TwoHaveRoom(c, ids0, e, f);
    TwoChanges(c, ids0, e, f);
    TwoChanges(c, ids0, f, e);
    var p, q := ReportedAfter(c, ids0, [e, f]).value, ReportedAfter(c, ids0, [f, e]).value;
    var h := HeadlineOf(p[0]);
    assert Headlines(p)[0] == h;
    assert h in multiset(Headlines(p));
    assert p[0] in p;
    forall i | 0 <= i < |q| ensures Headlines(q)[i] != h {
      assert q[i] in q;
    }
    assert h !in Headlines(q);
    assert h !in multiset(Headlines(q));
  }
}
