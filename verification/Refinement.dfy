/** Every run of the engine reports what its trace means. */
module Refinement {
  import opened Ints
  import opened Options
  import opened Sorting
  import opened IdMaps
  import opened Times
  import opened Engine
  import opened Traces
  import opened Meaning

  // The identity map along a run.

  lemma WithKeyFacts(ids: seq<string>, key: string)
    requires NoDuplicates(ids)
    ensures NoDuplicates(WithKey(ids, key)) && ids <= WithKey(ids, key)
  {}

  lemma IdIsStable(ids: seq<string>, more: seq<string>, a: string)
    requires ids <= more && NoDuplicates(more) && a in ids
    ensures a in more && IdOf(more, a) == IdOf(ids, a)
  {}

  lemma {:induction false} KnownGrows(t: Trace, m: nat, n: nat)
    requires NoDuplicates(t.ids0) && m <= n <= |t.steps|
    ensures NoDuplicates(t.Known(m)) && NoDuplicates(t.Known(n)) && t.Known(m) <= t.Known(n)
  {
    hide Trace.Reaches, KeyOf, WithKey;
    if n > 0 {
      if m == n {
        KnownGrows(t, m - 1, n - 1);
        WithKeyFacts(t.Known(n - 1), if t.steps[n - 1].Observe? then t.steps[n - 1].ev.actor else "");
      } else {
        KnownGrows(t, m, n - 1);
        WithKeyFacts(t.Known(n - 1), if t.steps[n - 1].Observe? then t.steps[n - 1].ev.actor else "");
      }
    }
  }

  /** An accepted actor is known from then on, under the same id. */
  lemma AcceptedIsKnown(t: Trace, j: nat, n: nat, k: int)
    requires NoDuplicates(t.ids0) && j < n <= |t.steps| && t.Accepted(j, k)
    ensures var a := t.steps[j].ev.actor;
            a in t.Known(n) && IdOf(t.Known(n), a) == IdOf(t.Known(j + 1), a) < t.c.capacity
  {
    KnownGrows(t, j + 1, n);
    IdIsStable(t.Known(j + 1), t.Known(n), t.steps[j].ev.actor);
  }

  lemma AcceptedObserves(t: Trace, j: nat, k: int)
    requires t.Accepted(j, k)
    ensures j < |t.steps| && t.steps[j].Observe?
  {}

  /** Nothing is recorded about an actor before it is known. */
  lemma {:induction false} UnknownHasNothing(t: Trace, n: nat, k: int, a: string)
    requires NoDuplicates(t.ids0) && n <= |t.steps| && a !in t.Known(n)
    ensures t.DeltaSum(n, k, a) == 0 && t.AmountSum(n, k, a) == 0 && t.AllLines(n, k, a) == []
  {
    hide Trace.Accepted, Trace.Known;
    if n > 0 {
      KnownGrows(t, n - 1, n);
      UnknownHasNothing(t, n - 1, k, a);
      if t.Accepted(n - 1, k) {
        AcceptedObserves(t, n - 1, k);
        AcceptedIsKnown(t, n - 1, n, k);
      }
    }
  }

  /** How one step adds to the sets of a window. */
  lemma SetsStep(t: Trace, n: nat, k: int)
    requires n < |t.steps|
    ensures !t.Accepted(n, k) ==>
              && t.Changed(n + 1, k) == t.Changed(n, k) && t.Justified(n + 1, k) == t.Justified(n, k)
              && t.Derived(n + 1, k) == t.Derived(n, k) && t.Rooted(n + 1, k) == t.Rooted(n, k)
    ensures t.Accepted(n, k) ==>
              var ev := t.steps[n].ev;
              && t.Changed(n + 1, k) == t.Changed(n, k) + (if ev.Change? then {ev.actor} else {})
              && t.Justified(n + 1, k) == t.Justified(n, k) + (if ev.Cause? then {ev.actor} else {})
              && t.Derived(n + 1, k) ==
                 t.Derived(n, k) + (if ev.Cause? && On(t.c.derived, ev.kind) then {ev.actor} else {})
              && t.Rooted(n + 1, k) == t.Rooted(n, k) + (if ev.Cause? && On(t.c.root, ev.kind) then {ev.actor} else {})
  {
    hide Trace.Accepted;
  }

  // Ids stand for names.

  /** `s` holds exactly the ids of the names in `names`, all of them inside the vectors. */
  ghost predicate IdsMatch(c: Config, ids: seq<string>, s: set<int>, names: set<string>) {
    && (forall id :: id in s ==> 0 <= id < |ids| && id < c.capacity && ids[id] in names)
    && (forall a :: a in names ==> a in ids && IdOf(ids, a) in s)
  }

  lemma IdsMatchExtend(c: Config, ids: seq<string>, more: seq<string>, s: set<int>, names: set<string>)
    requires ids <= more && NoDuplicates(more) && IdsMatch(c, ids, s, names)
    ensures IdsMatch(c, more, s, names)
  {
    forall a | a in names ensures a in more && IdOf(more, a) in s {
      IdIsStable(ids, more, a);
    }
  }

  lemma IdsMatchMinus(c: Config, ids: seq<string>, s: set<int>, names: set<string>, s': set<int>, names': set<string>)
    requires NoDuplicates(ids) && IdsMatch(c, ids, s, names) && IdsMatch(c, ids, s', names')
    ensures IdsMatch(c, ids, s - s', names - names')
  {}

  /** What is kept under `id` in sums and evidence is what the trace records for `a`. */
  ghost predicate EntryMatches(t: Trace, n: nat, k: int, w: WindowState, id: int, a: string) {
    && SumAt(w.changeSum, id) == Wrap64(t.DeltaSum(n, k, a))
    && SumAt(w.causeSum, id) == Wrap64(t.AmountSum(n, k, a))
    && LinesAt(w.evidence, id) == First(t.AllLines(n, k, a), t.c.maxEvidence)
  }

  ghost predicate EntriesMatch(t: Trace, ids: seq<string>, n: nat, k: int, w: WindowState) {
    && (forall id :: 0 <= id < |ids| ==> EntryMatches(t, n, k, w, id, ids[id]))
    && (forall id :: id in w.evidence || id in w.changeSum || id in w.causeSum ==> 0 <= id < |ids|)
  }

  ghost predicate SetsMatch(t: Trace, ids: seq<string>, n: nat, k: int, w: WindowState) {
    && IdsMatch(t.c, ids, w.changed, t.Changed(n, k))
    && IdsMatch(t.c, ids, w.justified, t.Justified(n, k))
    && IdsMatch(t.c, ids, w.derived, t.Derived(n, k))
    && IdsMatch(t.c, ids, w.rooted, t.Rooted(n, k))
    && w.changeSum.Keys == w.changed
  }

  /** The window holds what the trace says about key `k` up to step `n`. */
  ghost predicate Holds(t: Trace, ids: seq<string>, n: nat, k: int, w: WindowState) {
    SetsMatch(t, ids, n, k, w) && EntriesMatch(t, ids, n, k, w)
  }

  /** Interning another actor changes nothing a window holds. */
  lemma HoldsExtend(t: Trace, n: nat, k: int, w: WindowState)
    requires NoDuplicates(t.ids0) && n < |t.steps| && Holds(t, t.Known(n), n, k, w)
    ensures Holds(t, t.Known(n + 1), n, k, w)
  {
    hide Trace.Known, Trace.Accepted, Trace.DeltaSum, Trace.AmountSum, Trace.AllLines, First, Wrap64;
    KnownGrows(t, n, n + 1);
    var ids, more := t.Known(n), t.Known(n + 1);
    IdsMatchExtend(t.c, ids, more, w.changed, t.Changed(n, k));
    IdsMatchExtend(t.c, ids, more, w.justified, t.Justified(n, k));
    IdsMatchExtend(t.c, ids, more, w.derived, t.Derived(n, k));
    IdsMatchExtend(t.c, ids, more, w.rooted, t.Rooted(n, k));
    forall id | 0 <= id < |more| ensures EntryMatches(t, n, k, w, id, more[id]) {
      if id < |ids| {
        assert more[id] == ids[id];
      } else {
        assert more[id] !in ids;
        UnknownHasNothing(t, n, k, more[id]);
        WrapExact(0);
        NothingFirst(t.c.maxEvidence);
      }
    }
  }

  lemma NothingFirst(max: int)
    ensures First<EvidenceLine>([], max) == []
  {}

  /** A step that is not an accepted event of the window changes nothing it holds. */
  lemma HoldsSame(t: Trace, ids: seq<string>, n: nat, k: int, w: WindowState)
    requires n < |t.steps| && Holds(t, ids, n, k, w) && !t.Accepted(n, k)
    ensures Holds(t, ids, n + 1, k, w)
  {
    hide Trace.Accepted, IdsMatch;
    SetsStep(t, n, k);
    forall id | 0 <= id < |ids| ensures EntryMatches(t, n + 1, k, w, id, ids[id]) {
      assert EntryMatches(t, n, k, w, id, ids[id]);
    }
  }

  lemma FirstAppend(s: seq<EvidenceLine>, line: EvidenceLine, max: int)
    ensures First(s + [line], max) == if |First(s, max)| < max then First(s, max) + [line] else First(s, max)
  {}

  /** An accepted event is absorbed exactly as the trace records it. */
  lemma HoldsAbsorb(t: Trace, ids: seq<string>, n: nat, k: int, w: WindowState)
    requires NoDuplicates(ids) && n < |t.steps| && Holds(t, ids, n, k, w) && t.steps[n].Observe? && t.Accepted(n, k)
    requires t.steps[n].ev.actor in ids && IdOf(ids, t.steps[n].ev.actor) < t.c.capacity
    ensures Holds(t, ids, n + 1, k, Absorb(t.c, w, IdOf(ids, t.steps[n].ev.actor), t.steps[n].ev))
  {
    AbsorbSets(t, ids, n, k, w);
    AbsorbEntries(t, ids, n, k, w);
  }

  /** Absorbing an event, field by field. */
  lemma AbsorbFields(c: Config, w: WindowState, id: int, ev: Event)
    ensures var w' := Absorb(c, w, id, ev);
            && w'.start == w.start
            && w'.changed == w.changed + (if ev.Change? then {id} else {})
            && w'.justified == w.justified + (if ev.Cause? then {id} else {})
            && w'.derived == w.derived + (if ev.Cause? && On(c.derived, ev.kind) then {id} else {})
            && w'.rooted == w.rooted + (if ev.Cause? && On(c.root, ev.kind) then {id} else {})
            && w'.changeSum.Keys == w.changeSum.Keys + (if ev.Change? then {id} else {})
            && w'.causeSum.Keys == w.causeSum.Keys + (if ev.Cause? then {id} else {})
            && w'.evidence.Keys <= w.evidence.Keys + {id}
  {}

  lemma AbsorbAt(c: Config, w: WindowState, id0: int, ev: Event, id: int)
    ensures var w' := Absorb(c, w, id0, ev);
            && SumAt(w'.changeSum, id) ==
               (if ev.Change? && id == id0 then Wrap64(SumAt(w.changeSum, id) + ev.delta) else SumAt(w.changeSum, id))
            && SumAt(w'.causeSum, id) ==
               (if ev.Cause? && id == id0 then Wrap64(SumAt(w.causeSum, id) + ev.amount) else SumAt(w.causeSum, id))
            && LinesAt(w'.evidence, id) ==
               (if id == id0 && |LinesAt(w.evidence, id)| < c.maxEvidence then LinesAt(w.evidence, id) + [LineOf(ev)]
                else LinesAt(w.evidence, id))
  {}

  lemma AbsorbSets(t: Trace, ids: seq<string>, n: nat, k: int, w: WindowState)
    requires NoDuplicates(ids) && n < |t.steps| && SetsMatch(t, ids, n, k, w) && t.steps[n].Observe? && t.Accepted(n, k)
    requires t.steps[n].ev.actor in ids && IdOf(ids, t.steps[n].ev.actor) < t.c.capacity
    ensures SetsMatch(t, ids, n + 1, k, Absorb(t.c, w, IdOf(ids, t.steps[n].ev.actor), t.steps[n].ev))
  {
    hide Trace.Accepted, IdsMatch, Absorb, On;
    hide Trace.Changed, Trace.Justified, Trace.Derived, Trace.Rooted;
    SetsStep(t, n, k);
    var a := t.steps[n].ev.actor;
    AbsorbFields(t.c, w, IdOf(ids, a), t.steps[n].ev);
    MaybeAdd(t.c, ids, w.changed, t.Changed(n, k), a);
    MaybeAdd(t.c, ids, w.justified, t.Justified(n, k), a);
    MaybeAdd(t.c, ids, w.derived, t.Derived(n, k), a);
    MaybeAdd(t.c, ids, w.rooted, t.Rooted(n, k), a);
  }

  lemma MaybeAdd(c: Config, ids: seq<string>, s: set<int>, names: set<string>, a: string)
    requires NoDuplicates(ids) && IdsMatch(c, ids, s, names)
    requires a in ids && IdOf(ids, a) < c.capacity
    ensures IdsMatch(c, ids, s + {IdOf(ids, a)}, names + {a})
    ensures IdsMatch(c, ids, s + {}, names + {})
  {}

  lemma EntriesStep(t: Trace, n: nat, k: int, a: string)
    requires n < |t.steps| && t.steps[n].Observe? && t.Accepted(n, k)
    ensures var ev := t.steps[n].ev;
            && t.DeltaSum(n + 1, k, a) == t.DeltaSum(n, k, a) + (if ev.Change? && ev.actor == a then ev.delta else 0)
            && t.AmountSum(n + 1, k, a) == t.AmountSum(n, k, a) + (if ev.Cause? && ev.actor == a then ev.amount else 0)
            && t.AllLines(n + 1, k, a) ==
               (if ev.actor == a then t.AllLines(n, k, a) + [LineOf(ev)] else t.AllLines(n, k, a))
  {}

  lemma AbsorbEntry(t: Trace, n: nat, k: int, w: WindowState, id0: int, id: int, a: string)
    requires n < |t.steps| && t.steps[n].Observe? && t.Accepted(n, k) && EntryMatches(t, n, k, w, id, a)
    requires id == id0 <==> a == t.steps[n].ev.actor
    ensures EntryMatches(t, n + 1, k, Absorb(t.c, w, id0, t.steps[n].ev), id, a)
  {
    hide Trace.Accepted, Trace.DeltaSum, Trace.AmountSum, Trace.AllLines, Wrap64, First, LineOf, Absorb;
    EntriesStep(t, n, k, a);
    var ev := t.steps[n].ev;
    AbsorbAt(t.c, w, id0, ev, id);
    if ev.Change? {
      WrapAbsorbs(t.DeltaSum(n, k, a), ev.delta);
    } else {
      WrapAbsorbs(t.AmountSum(n, k, a), ev.amount);
    }
    FirstAppend(t.AllLines(n, k, a), LineOf(ev), t.c.maxEvidence);
  }

  lemma AbsorbEntries(t: Trace, ids: seq<string>, n: nat, k: int, w: WindowState)
    requires NoDuplicates(ids) && n < |t.steps| && EntriesMatch(t, ids, n, k, w)
    requires t.steps[n].Observe? && t.Accepted(n, k)
    requires t.steps[n].ev.actor in ids && IdOf(ids, t.steps[n].ev.actor) < t.c.capacity
    ensures EntriesMatch(t, ids, n + 1, k, Absorb(t.c, w, IdOf(ids, t.steps[n].ev.actor), t.steps[n].ev))
  {
    hide Trace.Accepted, EntryMatches, Absorb;
    var ev := t.steps[n].ev;
    AbsorbFields(t.c, w, IdOf(ids, ev.actor), ev);
    var id0 := IdOf(ids, ev.actor);
    forall id | 0 <= id < |ids| ensures EntryMatches(t, n + 1, k, Absorb(t.c, w, id0, ev), id, ids[id]) {
      AbsorbEntry(t, n, k, w, id0, id, ids[id]);
    }
  }

  // The life cycle of a window.

  lemma OpenedStep(t: Trace, n: nat, k: int)
    ensures t.Opened(n + 1, k) <==> t.Opened(n, k) || t.Admits(n, k)
  {}

  lemma ClosedStep(t: Trace, n: nat, k: int)
    requires n < |t.steps|
    ensures t.Closed(n + 1, k) <==> t.Closed(n, k) || (t.steps[n] == Step.Detach(k) && t.Opened(n, k))
  {}

  lemma ClosedWasOpened(t: Trace, n: nat, k: int)
    requires t.Closed(n, k)
    ensures t.Opened(n, k)
  {}

  lemma {:induction false} NothingBeforeOpening(t: Trace, n: nat, k: int, a: string)
    requires n <= |t.steps| && !t.Opened(n, k)
    ensures t.DeltaSum(n, k, a) == 0 && t.AmountSum(n, k, a) == 0 && t.AllLines(n, k, a) == []
    ensures t.Changed(n, k) == {} && t.Justified(n, k) == {} && t.Derived(n, k) == {} && t.Rooted(n, k) == {}
  {
    hide Trace.Accepted, Trace.Opened, Trace.Admits;
    if n > 0 {
      OpenedStep(t, n - 1, k);
      NothingBeforeOpening(t, n - 1, k, a);
      NotAdmitted(t, n - 1, k);
      SetsStep(t, n - 1, k);
    }
  }

  lemma NotAdmitted(t: Trace, j: nat, k: int)
    ensures t.Accepted(j, k) ==> t.Reaches(j, k)
    ensures t.Reaches(j, k) ==> t.Admits(j, k) && !t.Closed(j, k)
  {}

  lemma FreshHolds(t: Trace, n: nat, k: int, start: int)
    requires n <= |t.steps| && !t.Opened(n, k)
    ensures Holds(t, t.Known(n), n, k, NewWindow(start))
  {
    hide Trace.Opened, Trace.Changed, Trace.Justified, Trace.Derived, Trace.Rooted, Trace.Known, First;
    NothingBeforeOpening(t, n, k, "");
    WrapExact(0);
    NothingFirst(t.c.maxEvidence);
    forall id | 0 <= id < |t.Known(n)| ensures EntryMatches(t, n, k, NewWindow(start), id, t.Known(n)[id]) {
      NothingBeforeOpening(t, n, k, t.Known(n)[id]);
    }
  }

  // The engine and its trace.

  /** A window under key `k` is open exactly when the trace opened and did not close it, and
      then it holds what the trace says. */
  ghost predicate KeyRefines(t: Trace, n: nat, k: int, s: EngineState)
    requires n <= |t.steps|
  {
    && (k in s.closed <==> t.Closed(n, k))
    && (k in s.windows <==> t.Opened(n, k) && !t.Closed(n, k))
    && (k in s.windows ==> s.windows[k].start == t.OpenStart(n, k) && Holds(t, t.Known(n), n, k, s.windows[k]))
  }

  ghost predicate Refines(t: Trace, n: nat, s: EngineState)
    requires n <= |t.steps|
  {
    && s.ids == t.Known(n)
    && s.pending == t.Pending(n)
    && forall k :: KeyRefines(t, n, k, s)
  }

  /** A step that neither reaches nor detaches window `k` leaves it as it is. */
  lemma KeyUntouched(t: Trace, n: nat, k: int, s: EngineState, s': EngineState)
    requires NoDuplicates(t.ids0) && n < |t.steps| && KeyRefines(t, n, k, s)
    requires !t.Reaches(n, k) && (t.steps[n] == Step.Detach(k) ==> !t.Opened(n, k) || t.Closed(n, k))
    requires k in s'.closed <==> k in s.closed
    requires k in s'.windows <==> k in s.windows
    requires k in s.windows ==> s'.windows[k] == s.windows[k]
    ensures KeyRefines(t, n + 1, k, s')
  {
    hide Trace.Opened, Trace.Closed, Trace.Admits, Trace.Known, Holds;
    OpenedStep(t, n, k);
    ClosedStep(t, n, k);
    if t.Closed(n, k) {
      ClosedWasOpened(t, n, k);
    }
    if k in s.windows {
      NotAdmitted(t, n, k);
      HoldsExtend(t, n, k, s.windows[k]);
      HoldsSame(t, t.Known(n + 1), n, k, s.windows[k]);
    }
  }

  lemma WindowIsReady(t: Trace, n: nat, k: int, s: EngineState)
    requires NoDuplicates(t.ids0) && n < |t.steps| && KeyRefines(t, n, k, s)
    requires t.steps[n].Observe? && t.Reaches(n, k)
    ensures WindowOf(t.c, s, t.steps[n].ev).start == t.OpenStart(n + 1, k)
    ensures Holds(t, t.Known(n + 1), n, k, WindowOf(t.c, s, t.steps[n].ev))
  {
    hide Trace.Opened, Trace.Closed, Holds, Trace.Known, StartOf;
    if k !in s.windows {
      FreshHolds(t, n, k, StartOf(t.c, t.steps[n].ev));
    }
    HoldsExtend(t, n, k, WindowOf(t.c, s, t.steps[n].ev));
  }

  lemma ReachedFacts(t: Trace, n: nat, k: int)
    requires n < |t.steps| && t.steps[n].Observe? && t.Reaches(n, k)
    ensures var ev := t.steps[n].ev;
            && Trusted(t.c, ev) && KeyOf(t.c, ev) == k && !t.Closed(n, k)
            && t.Known(n + 1) == WithKey(t.Known(n), ev.actor)
            && (t.Accepted(n, k) <==> IdOf(t.Known(n + 1), ev.actor) < t.c.capacity)
            && t.IngestAlerts(n) ==
               (if t.Accepted(n, k) then []
                else [CapacityAlert(t.c, t.OpenStart(n + 1, k), ev, IdOf(t.Known(n + 1), ev.actor))])
  {}

  lemma ObserveInto(c: ReadyConfig, s: EngineState, ev: Event)
    requires Trusted(c, ev) && KeyOf(c, ev) !in s.closed
    ensures var s' := Engine.Observe(c, s, ev);
            var ids := WithKey(s.ids, ev.actor);
            var id := IdOf(ids, ev.actor);
            var w := WindowOf(c, s, ev);
            && s'.ids == ids && s'.closed == s.closed
            && s'.windows == s.windows[KeyOf(c, ev) := if id < c.capacity then Absorb(c, w, id, ev) else w]
            && s'.pending == s.pending + (if id < c.capacity then [] else [CapacityAlert(c, w.start, ev, id)])
  {}

  /** The event of step `n` in the window it reaches. */
  lemma KeyObserved(t: Trace, n: nat, k: int, s: EngineState)
    requires NoDuplicates(t.ids0) && n < |t.steps| && s.ids == t.Known(n) && KeyRefines(t, n, k, s)
    requires t.steps[n].Observe? && t.Reaches(n, k)
    ensures var s' := Engine.Observe(t.c, s, t.steps[n].ev);
            && KeyRefines(t, n + 1, k, s') && s'.ids == t.Known(n + 1)
            && s'.pending == s.pending + t.IngestAlerts(n)
  {
    hide Trace.Opened, Trace.Closed, Trace.Known, Trace.Accepted, Trace.Reaches, Trace.Admits, Trace.OpenStart,
         Trace.IngestAlerts, Holds, KeyOf, Absorb, CapacityAlert, WindowOf, Trusted, Engine.Observe;
    var ev := t.steps[n].ev;
    ReachedFacts(t, n, k);
    NotAdmitted(t, n, k);
    OpenedStep(t, n, k);
    ClosedStep(t, n, k);
    KnownGrows(t, n, n + 1);
    WindowIsReady(t, n, k, s);
    ObserveInto(t.c, s, ev);
    var w := WindowOf(t.c, s, ev);
    if t.Accepted(n, k) {
      HoldsAbsorb(t, t.Known(n + 1), n, k, w);
      AbsorbFields(t.c, w, IdOf(t.Known(n + 1), ev.actor), ev);
    } else {
      HoldsSame(t, t.Known(n + 1), n, k, w);
    }
  }

  lemma ObserveRefines(t: Trace, n: nat, s: EngineState)
    requires NoDuplicates(t.ids0) && n < |t.steps| && Refines(t, n, s) && t.steps[n].Observe?
    ensures Refines(t, n + 1, Engine.Observe(t.c, s, t.steps[n].ev))
  {
    hide Trace.Opened, Trace.Closed, Trace.Accepted, KeyRefines, KeyOf, Absorb,
         CapacityAlert, LateAlert, UntrustedAlert;
    var ev := t.steps[n].ev;
    var s' := Engine.Observe(t.c, s, ev);
    var k0 := KeyOf(t.c, ev);
    KeyFacts(t, n, k0, s);
    if t.Reaches(n, k0) {
      KeyObserved(t, n, k0, s);
      ReachedFacts(t, n, k0);
      ObserveInto(t.c, s, ev);
    }
    var next := n + 1;
    forall k ensures KeyRefines(t, next, k, s') {
      if !t.Reaches(n, k) {
        KeyUntouched(t, n, k, s, s');
      }
    }
  }

  lemma KeyFacts(t: Trace, n: nat, k: int, s: EngineState)
    requires n <= |t.steps| && Refines(t, n, s)
    ensures k in s.closed <==> t.Closed(n, k)
    ensures k in s.windows <==> t.Opened(n, k) && !t.Closed(n, k)
  {
    hide Trace.Opened, Trace.Closed, Holds;
    assert KeyRefines(t, n, k, s);
  }

  lemma DetachRefines(t: Trace, n: nat, s: EngineState, key: int)
    requires NoDuplicates(t.ids0) && n < |t.steps| && Refines(t, n, s) && t.steps[n] == Step.Detach(key)
    ensures Refines(t, n + 1, Engine.Detach(s, key))
  {
    hide Trace.Opened, Trace.Closed, Trace.Accepted, Holds;
    var s' := Engine.Detach(s, key);
    assert s.pending + [] == s.pending;
    var next := n + 1;
    forall k ensures KeyRefines(t, next, k, s') {
      KeyFacts(t, n, k, s);
      if k == key && k in s.windows {
        ClosedStep(t, n, k);
      } else {
        KeyUntouched(t, n, k, s, s');
      }
    }
  }

  lemma DrainRefines(t: Trace, n: nat, s: EngineState)
    requires NoDuplicates(t.ids0) && n < |t.steps| && Refines(t, n, s) && t.steps[n].Drain?
    ensures Refines(t, n + 1, Engine.Drain(s))
  {
    hide Trace.Opened, Trace.Closed, Trace.Accepted, KeyRefines;
    var next := n + 1;
    forall k ensures KeyRefines(t, next, k, Engine.Drain(s)) {
      KeyUntouched(t, n, k, s, Engine.Drain(s));
    }
  }

  /** After every step of every run the engine's state is the one its trace describes:
      known ids, closed keys, pending alerts, and the contents of each open window. */
  lemma {:induction false} RunRefines(t: Trace, n: nat)
    requires NoDuplicates(t.ids0) && n <= |t.steps|
    ensures Refines(t, n, t.Run(n))
  {
    hide Trace.Accepted, Refines, Engine.Observe, Engine.Detach, Engine.Drain;
    if n == 0 {
      InitRefines(t);
    } else {
      RunRefines(t, n - 1);
      match t.steps[n - 1]
      case Observe(ev) => ObserveRefines(t, n - 1, t.Run(n - 1));
      case Detach(key) => DetachRefines(t, n - 1, t.Run(n - 1), key);
      case Drain => DrainRefines(t, n - 1, t.Run(n - 1));
    }
  }

  lemma InitRefines(t: Trace)
    ensures Refines(t, 0, t.Run(0))
  {}

  // Reports.

  /** The indices below `m` of the names in `names`. */
  function Indices(ids: seq<string>, names: set<string>, m: nat): seq<int>
    requires m <= |ids|
  {
    if m == 0 then []
    else Indices(ids, names, m - 1) + (if ids[m - 1] in names then [m - 1] else [])
  }

  lemma {:induction false} IndicesAscend(ids: seq<string>, names: set<string>, m: nat)
    requires m <= |ids|
    ensures Lists(IntLess, Indices(ids, names, m), set i: int | 0 <= i < m && ids[i] in names)
  {
    if m > 0 {
      IndicesAscend(ids, names, m - 1);
      var before := Indices(ids, names, m - 1);
      forall j | 0 <= j < |before| ensures before[j] < m - 1 {
        assert before[j] in before;
      }
    }
  }

  lemma {:induction false} NamesOfIndices(ids: seq<string>, more: seq<string>, names: set<string>, m: nat)
    requires m <= |ids| && ids <= more
    ensures NamesOf(more, Indices(ids, names, m)) == Filter(ids[..m], names)
  {
    if m > 0 {
      NamesOfIndices(ids, more, names, m - 1);
      assert ids[..m][..m - 1] == ids[..m - 1];
      var q := Indices(ids, names, m - 1);
      assert (q + [m - 1])[..|q|] == q;
      assert q + [] == q;
      assert more[m - 1] == ids[m - 1];
    }
  }

  lemma AscendIsIndices(c: Config, ids: seq<string>, s: set<int>, names: set<string>)
    requires NoDuplicates(ids) && IdsMatch(c, ids, s, names)
    ensures Ascend(s) == Indices(ids, names, |ids|)
    ensures s == set i: int | 0 <= i < |ids| && ids[i] in names
  {
    forall i: int ensures i in s <==> 0 <= i < |ids| && ids[i] in names {
      if 0 <= i < |ids| && ids[i] in names {
        assert IdOf(ids, ids[i]) == i;
      }
    }
    IntOrder();
    IndicesAscend(ids, names, |ids|);
    ListsUnique(IntLess, Ascend(s), Indices(ids, names, |ids|), s);
  }

  /** The ids of a set, listed in ascending order and named, are its names in the order of
      their first appearance; names assigned later do not matter. */
  lemma NamesInOrder(c: Config, ids: seq<string>, more: seq<string>, s: set<int>, names: set<string>)
    requires NoDuplicates(ids) && ids <= more && IdsMatch(c, ids, s, names)
    ensures NamesOf(more, Ascend(s)) == Filter(ids, names)
    ensures s == {} <==> names == {}
    ensures forall id :: id in Ascend(s) ==> 0 <= id < |ids|
  {
    AscendIsIndices(c, ids, s, names);
    NamesOfIndices(ids, more, names, |ids|);
    assert ids[..|ids|] == ids;
    IntOrder();
    assert Lists(IntLess, Ascend(s), s);
  }

  lemma {:induction false} LinesInOrder(ids: seq<string>, more: seq<string>, w: WindowState, q: seq<int>,
                                        lines: string -> seq<EvidenceLine>)
    requires ids <= more
    requires forall i :: 0 <= i < |q| ==> 0 <= q[i] < |ids| && LinesAt(w.evidence, q[i]) == lines(ids[q[i]])
    ensures LinesOf(more, w, q) == LinesFor(NamesOf(more, q), lines)
  {
    if q != [] {
      LinesInOrder(ids, more, w, q[..|q| - 1], lines);
    }
  }

  lemma {:induction false} SumsInOrder(ids: seq<string>, more: seq<string>, w: WindowState, q: seq<int>,
                                       observed: string -> int, authorized: string -> int)
    requires ids <= more
    requires forall i :: 0 <= i < |q| ==>
               && 0 <= q[i] < |ids|
               && SumAt(w.changeSum, q[i]) == observed(ids[q[i]])
               && SumAt(w.causeSum, q[i]) == authorized(ids[q[i]])
    ensures SumsOf(more, w, q) == SumsFor(NamesOf(more, q), observed, authorized)
  {
    if q != [] {
      SumsInOrder(ids, more, w, q[..|q| - 1], observed, authorized);
    }
  }

  /** The alert about a set of ids is the trace's finding about the names they stand for. */
  lemma FindingMatches(t: Trace, n: nat, k: int, more: seq<string>, w: WindowState, kind: AlertKind,
                       s: set<int>, names: set<string>)
    requires NoDuplicates(t.ids0) && n <= |t.steps| && t.Known(n) <= more
    requires w.start == t.OpenStart(n, k) && Holds(t, t.Known(n), n, k, w) && IdsMatch(t.c, t.Known(n), s, names)
    ensures SetAlert(t.c, more, w, kind, s) == t.Finding(n, k, kind, names)
  {
    hide Trace.Known, Trace.OpenStart, Trace.AllLines, Trace.DeltaSum, Trace.AmountSum, First, IdsMatch, SetsMatch,
         Wrap64, NamesOf, Filter, Ascend, Ref;
    KnownGrows(t, n, n);
    NamesInOrder(t.c, t.Known(n), more, s, names);
    var q := Ascend(s);
    var ids := t.Known(n);
    forall i | 0 <= i < |q|
      ensures 0 <= q[i] < |ids| && LinesAt(w.evidence, q[i]) == t.EvidenceOf(n, k)(ids[q[i]])
    {
      assert q[i] in q;
      assert EntryMatches(t, n, k, w, q[i], ids[q[i]]);
    }
    LinesInOrder(ids, more, w, Ascend(s), t.EvidenceOf(n, k));
  }

  /** The ids whose sums differ stand for the actors whose sums differ. */
  lemma MismatchedMatch(t: Trace, n: nat, k: int, w: WindowState)
    requires NoDuplicates(t.ids0) && n <= |t.steps| && Holds(t, t.Known(n), n, k, w)
    ensures IdsMatch(t.c, t.Known(n), Mismatched(w), t.MismatchedActors(n, k))
  {
    hide Trace.Known, Trace.AllLines, Trace.DeltaSum, Trace.AmountSum, Trace.Changed, First, Wrap64;
    var ids := t.Known(n);
    KnownGrows(t, n, n);
    forall id | 0 <= id < |ids| ensures EntryMatches(t, n, k, w, id, ids[id]) {}
  }

  /** An actor with an accepted event has an evidence line, unless the bound forbids any. */
  lemma {:induction false} ChangedHasLines(t: Trace, n: nat, k: int, a: string)
    requires n <= |t.steps| && a in t.Changed(n, k)
    ensures t.AllLines(n, k, a) != []
  {
    hide Trace.Accepted;
    assert n > 0;
    SetsStep(t, n - 1, k);
    if a in t.Changed(n - 1, k) {
      ChangedHasLines(t, n - 1, k, a);
    } else {
      AcceptedObserves(t, n - 1, k);
    }
  }

  lemma {:induction false} LinesForEmpty(actors: seq<string>, lines: string -> seq<EvidenceLine>)
    ensures LinesFor(actors, lines) == map[] <==> forall a :: a in actors ==> lines(a) == []
  {
    if actors != [] {
      var init, a := actors[..|actors| - 1], actors[|actors| - 1];
      LinesForEmpty(init, lines);
      assert actors == init + [a];
      if lines(a) != [] {
        assert ActorLine(a, 0) in LinesUnder(a, lines(a));
        assert ActorLine(a, 0) in LinesFor(actors, lines);
      } else {
        assert LinesUnder(a, lines(a)) == map[];
      }
      if LinesFor(init, lines) != map[] {
        var key :| key in LinesFor(init, lines);
        assert key in LinesFor(actors, lines);
      }
    }
  }

  lemma {:induction false} FilterMembers(s: seq<string>, keep: set<string>)
    ensures forall a :: a in Filter(s, keep) <==> a in s && a in keep
  {
    if s != [] {
      FilterMembers(s[..|s| - 1], keep);
      assert s == s[..|s| - 1] + [s[|s| - 1]];
    }
  }

  /** Whether the conservation finding of a window can be rendered at all. */
  ghost predicate Renderable(t: Trace, n: nat, k: int) {
    t.c.maxEvidence > 0 || !t.c.checkAmounts || t.MismatchedActors(n, k) == {}
  }

  lemma MismatchEvidence(t: Trace, n: nat, k: int)
    requires NoDuplicates(t.ids0) && n <= |t.steps|
    requires t.MismatchedActors(n, k) <= set a | a in t.Known(n)
    requires t.MismatchedActors(n, k) != {}
    ensures LinesFor(t.InOrder(n, t.MismatchedActors(n, k)), t.EvidenceOf(n, k)) != map[] <==> t.c.maxEvidence > 0
  {
    hide Trace.Known, Trace.AllLines, Trace.DeltaSum, Trace.AmountSum, Trace.Changed, Wrap64, Filter, LinesFor;
    var actors := t.MismatchedActors(n, k);
    FilterMembers(t.Known(n), actors);
    LinesForEmpty(t.InOrder(n, actors), t.EvidenceOf(n, k));
    var a :| a in actors;
    ChangedHasLines(t, n, k, a);
    assert a in t.InOrder(n, actors);
    assert t.c.maxEvidence > 0 ==> t.EvidenceOf(n, k)(a) != [];
  }

  lemma MismatchMatches(t: Trace, n: nat, k: int, more: seq<string>, w: WindowState)
    requires NoDuplicates(t.ids0) && n <= |t.steps| && t.Known(n) <= more
    requires w.start == t.OpenStart(n, k) && Holds(t, t.Known(n), n, k, w)
    ensures MismatchAlert(t.c, more, w) == if Renderable(t, n, k) then Some(t.MismatchFinding(n, k)) else None
  {
    hide Trace.Known, Trace.OpenStart, Trace.AllLines, Trace.DeltaSum, Trace.AmountSum, First, IdsMatch, SetsMatch,
         Wrap64, NamesOf, Filter, Ascend, Ref, Mismatched, Trace.MismatchedActors, LinesFor, SumsFor, LinesOf, SumsOf;
    var s, names := Mismatched(w), t.MismatchedActors(n, k);
    var ids := t.Known(n);
    KnownGrows(t, n, n);
    MismatchedMatch(t, n, k, w);
    NamesInOrder(t.c, ids, more, s, names);
    if names != {} {
      var observed := (a: string) => Wrap64(t.DeltaSum(n, k, a)) as int;
      var authorized := (a: string) => Wrap64(t.AmountSum(n, k, a)) as int;
      var q := Ascend(s);
      forall i | 0 <= i < |q| ensures 0 <= q[i] < |ids| && EntryMatches(t, n, k, w, q[i], ids[q[i]]) {
        assert q[i] in q;
      }
      LinesInOrder(ids, more, w, Ascend(s), t.EvidenceOf(n, k));
      SumsInOrder(ids, more, w, Ascend(s), observed, authorized);
      SumsForAgree(Filter(ids, names), observed, (a: string) => Wrap64(t.DeltaSum(n, k, a)),
                   authorized, (a: string) => Wrap64(t.AmountSum(n, k, a)));
      MismatchedAreKnown(t, n, k, w);
      MismatchEvidence(t, n, k);
    }
  }

  lemma MismatchedAreKnown(t: Trace, n: nat, k: int, w: WindowState)
    requires NoDuplicates(t.ids0) && n <= |t.steps| && Holds(t, t.Known(n), n, k, w)
    ensures t.MismatchedActors(n, k) <= set a | a in t.Known(n)
  {}

  lemma {:induction false} SumsForAgree(actors: seq<string>, f: string -> int, f': string -> int,
                                        g: string -> int, g': string -> int)
    requires forall a :: f(a) == f'(a) && g(a) == g'(a)
    ensures SumsFor(actors, f, g) == SumsFor(actors, f', g')
  {
    if actors != [] {
      SumsForAgree(actors[..|actors| - 1], f, f', g, g');
    }
  }

  /** What closing a window reports, whenever after the detaching it is rendered and whatever
      has been interned since: exactly the findings of the trace, names in the order of first
      appearance. It fails exactly when the conservation finding cannot be rendered. */
  lemma DetachReportsTrace(t: Trace, n: nat, k: int, more: seq<string>)
    requires NoDuplicates(t.ids0) && n <= |t.steps| && t.Known(n) <= more
    requires t.Opened(n, k) && !t.Closed(n, k)
    ensures k in t.Run(n).windows
    ensures Render(t.c, more, t.Run(n).windows[k]) ==
            if Renderable(t, n, k) then Some(t.WindowAlerts(n, k)) else None
  {
    hide Trace.Opened, Trace.Closed, Trace.Known, Trace.OpenStart, Trace.Run, Trace.Finding, Trace.MismatchFinding,
         Trace.Changed, Trace.Justified, Trace.Derived, Trace.Rooted, SetAlert, MismatchAlert, IdsMatch,
         EntriesMatch, Renderable;
    RunRefines(t, n);
    KeyFacts(t, n, k, t.Run(n));
    assert KeyRefines(t, n, k, t.Run(n));
    var w := t.Run(n).windows[k];
    KnownGrows(t, n, n);
    var ids := t.Known(n);
    IdsMatchMinus(t.c, ids, w.changed, t.Changed(n, k), w.justified, t.Justified(n, k));
    IdsMatchMinus(t.c, ids, w.justified, t.Justified(n, k), w.changed, t.Changed(n, k));
    IdsMatchMinus(t.c, ids, w.derived, t.Derived(n, k), w.rooted, t.Rooted(n, k));
    FindingMatches(t, n, k, more, w, UnauthorizedChange, w.changed - w.justified, t.Changed(n, k) - t.Justified(n, k));
    FindingMatches(t, n, k, more, w, MissingChange, w.justified - w.changed, t.Justified(n, k) - t.Changed(n, k));
    FindingMatches(t, n, k, more, w, ForgedCause, w.derived - w.rooted, t.Derived(n, k) - t.Rooted(n, k));
    MismatchMatches(t, n, k, more, w);
  }

  // What admission to a window comes to.

  /** An event is let through to a key exactly when its producer is no outsider and the key is
      the int64 form of the start of the window that contains its time. */
  lemma AdmitsMeans(t: Trace, j: nat, k: int)
    ensures t.Admits(j, k) <==>
            && j < |t.steps| && t.steps[j].Observe? && !Outsider(t.c, t.steps[j].ev)
            && exists start ::
                 && start <= t.steps[j].ev.ts < start + t.c.windowSize
                 && (start - ZERO_TIME) % t.c.windowSize == 0 && Wrap64(start) == k
  {
    hide Wrap64, WindowStart;
    if j < |t.steps| && t.steps[j].Observe? {
      var ev := t.steps[j].ev;
      TrustedMeans(t.c, ev);
      OneWindow(ev.ts, t.c.windowSize, WindowStart(ev.ts, t.c.windowSize));
      forall start | start <= ev.ts < start + t.c.windowSize && (start - ZERO_TIME) % t.c.windowSize == 0
        ensures Wrap64(start) == KeyOf(t.c, ev)
      {
        StartMeans(t.c, ev, start);
      }
    }
  }

  /** Events let through to key `k` fall in one window. */
  ghost predicate OneStart(t: Trace, k: int) {
    forall i: nat, j: nat :: t.Admits(i, k) && t.Admits(j, k) ==>
      WindowStart(t.steps[i].ev.ts, t.c.windowSize) == WindowStart(t.steps[j].ev.ts, t.c.windowSize)
  }

  lemma {:induction false} OpenStartOf(t: Trace, i: nat, n: nat, k: int)
    requires n <= |t.steps| && i < n && t.Admits(i, k) && OneStart(t, k)
    ensures t.OpenStart(n, k) == WindowStart(t.steps[i].ev.ts, t.c.windowSize)
    decreases n
  {
    hide WindowStart, KeyOf, Trusted;
    OpenedStep(t, n - 1, k);
    if t.Opened(n - 1, k) {
      var j: nat :| j < n - 1 && t.Admits(j, k);
      OpenStartOf(t, j, n - 1, k);
    }
  }

  /** Over any trace, the time of an accepted event lies in its window: at or after the start it
      is reported with and before the end, where the events of the key fall in one window. */
  lemma AcceptedInWindow(t: Trace, j: nat, n: nat, k: int)
    requires t.Accepted(j, k) && j < n <= |t.steps| && OneStart(t, k)
    ensures var start := t.OpenStart(n, k);
            && start <= t.steps[j].ev.ts < start + t.c.windowSize
            && (start - ZERO_TIME) % t.c.windowSize == 0 && Wrap64(start) == k
  {
    hide Wrap64, WindowStart, Trusted, Trace.Known, Trace.Closed;
    NotAdmitted(t, j, k);
    var start := WindowStart(t.steps[j].ev.ts, t.c.windowSize);
    OneWindow(t.steps[j].ev.ts, t.c.windowSize, start);
    OpenStartOf(t, j, n, k);
  }

  /** Times whose windows an int64 can hold always fall in one window for a key, and the key is
      its start. */
  lemma FittingTimesHaveOneStart(t: Trace, k: int)
    requires forall j: nat :: t.Admits(j, k) ==> -TWO_63 + t.c.windowSize <= t.steps[j].ev.ts < TWO_63
    ensures OneStart(t, k)
    ensures forall j: nat :: t.Admits(j, k) ==> k <= t.steps[j].ev.ts < k + t.c.windowSize
  {
    hide Trusted, WindowStart, Wrap64;
    forall j: nat | t.Admits(j, k)
      ensures WindowStart(t.steps[j].ev.ts, t.c.windowSize) == k && k <= t.steps[j].ev.ts < k + t.c.windowSize
    {
      var start := WindowStart(t.steps[j].ev.ts, t.c.windowSize);
      OneWindow(t.steps[j].ev.ts, t.c.windowSize, start);
      WrapExact(start);
    }
  }

  /** The derived and rooted actors are those of accepted causes whose kind the configuration
      maps to true. */
  lemma KindsMean(t: Trace, n: nat, k: int, a: string)
    ensures a in t.Derived(n, k) <==>
            exists j: nat :: j < n && t.Accepted(j, k) && t.steps[j].ev.Cause? && t.steps[j].ev.actor == a &&
                             t.steps[j].ev.kind in t.c.derived && t.c.derived[t.steps[j].ev.kind]
    ensures a in t.Rooted(n, k) <==>
            exists j: nat :: j < n && t.Accepted(j, k) && t.steps[j].ev.Cause? && t.steps[j].ev.actor == a &&
                             t.steps[j].ev.kind in t.c.root && t.c.root[t.steps[j].ev.kind]
  {
    hide Trace.Accepted;
  }
}
