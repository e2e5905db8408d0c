/** What the engine's operations come to, spelled out: fields, sums and comparisons, with none of
    the engine's own functions. */
module Meaning {
  import opened Ints
  import opened Options
  import opened Sorting
  import opened Times
  import opened IdMaps
  import opened Engine

  /** A cause from a producer outside a non-empty allow-list. */
  ghost predicate Outsider(c: Config, ev: Event) {
    ev.Cause? && |c.trusted| > 0 && !(ev.producer in c.trusted && c.trusted[ev.producer])
  }

  /** The window of key `k` before an event, empty from `start` on if there is none. */
  ghost function WindowBefore(s: EngineState, k: int, start: int): WindowState {
    if k in s.windows then s.windows[k] else WindowState(start, {}, {}, {}, {}, map[], map[], map[])
  }

  /** One line more under the id, as long as there are fewer than the bound. */
  ghost function Extended(c: Config, evidence: map<int, seq<EvidenceLine>>, id: int, line: EvidenceLine)
    : map<int, seq<EvidenceLine>>
  {
    var lines := if id in evidence then evidence[id] else [];
    if |lines| >= c.maxEvidence then evidence else evidence[id := lines + [line]]
  }

  ghost function OrElse(s: string, otherwise: string): string {
    if s == "" then otherwise else s
  }

  /** `w'` is `w` with the event in it, under the actor's id. */
  ghost predicate Entered(c: Config, w: WindowState, id: int, ev: Event, w': WindowState) {
    && w'.start == w.start
    && (match ev
        case Change(_, ts, delta, source) =>
          && w'.changed == w.changed + {id}
          && w'.justified == w.justified && w'.derived == w.derived && w'.rooted == w.rooted
          && w'.changeSum == w.changeSum[id := Wrap64((if id in w.changeSum then w.changeSum[id] else 0) + delta)]
          && w'.causeSum == w.causeSum
          && w'.evidence == Extended(c, w.evidence, id, ChangeLine(OrElse(source, "unknown"), ts, delta))
        case Cause(_, ts, kind, producer, amount, ref) =>
          && w'.changed == w.changed && w'.justified == w.justified + {id}
          && w'.derived == w.derived + (if kind in c.derived && c.derived[kind] then {id} else {})
          && w'.rooted == w.rooted + (if kind in c.root && c.root[kind] then {id} else {})
          && w'.changeSum == w.changeSum
          && w'.causeSum == w.causeSum[id := Wrap64((if id in w.causeSum then w.causeSum[id] else 0) + amount)]
          && w'.evidence == Extended(c, w.evidence, id, CauseLine(kind, OrElse(producer, "unknown"), ts,
                                                                  amount, OrElse(ref, "unknown"))))
  }

  /** `s'` is `s` after an event whose window starts at `start`. */
  ghost predicate Observed(c: Config, s: EngineState, ev: Event, start: int, s': EngineState) {
    var key, end := Wrap64(start), start + c.windowSize;
    if Outsider(c, ev) then
      s' == s.(pending := s.pending + [Alert(UntrustedProducer, WindowRef(start, end), [ev.actor],
                 map[Field("kind") := Text(ev.kind), Field("producer") := Text(ev.producer)])])
    else if key in s.closed then
      s' == s.(pending := s.pending + [Alert(LateEvent, WindowRef(start, end), [ev.actor],
                 if ev.Change? then map[Field("channel") := Text("change"), Field("source") := Text(ev.source)]
                 else map[Field("channel") := Text("cause"), Field("kind") := Text(ev.kind)])])
    else
      && s'.closed == s.closed
      && s'.ids == (if ev.actor in s.ids then s.ids else s.ids + [ev.actor])
      && s'.windows.Keys == s.windows.Keys + {key}
      && (forall k :: k in s.windows && k != key ==> s'.windows[k] == s.windows[k])
      && exists id: nat :: AdmittedAs(c, s, ev, start, s', id)
  }

  ghost predicate AdmittedAs(c: Config, s: EngineState, ev: Event, start: int, s': EngineState, id: nat)
    requires Wrap64(start) in s'.windows
  {
    var w, w' := WindowBefore(s, Wrap64(start), start), s'.windows[Wrap64(start)];
    && id < |s'.ids| && s'.ids[id] == ev.actor && ev.actor !in s'.ids[..id]
    && (if id < c.capacity then s'.pending == s.pending && Entered(c, w, id, ev, w')
        else
          && w' == w
          && s'.pending == s.pending + [Alert(CapacityExceeded, WindowRef(w.start, w.start + c.windowSize), [ev.actor],
                                              map[Field("id") := Number(id), Field("capacity") := Number(c.capacity)])])
  }

  lemma StartMeans(c: ReadyConfig, ev: Event, start: int)
    requires start <= ev.ts < start + c.windowSize && (start - ZERO_TIME) % c.windowSize == 0
    ensures StartOf(c, ev) == start && KeyOf(c, ev) == Wrap64(start)
  {
    hide Wrap64, WindowStart;
    OneWindow(ev.ts, c.windowSize, start);
  }

  lemma TrustedMeans(c: Config, ev: Event)
    ensures Trusted(c, ev) <==> !Outsider(c, ev)
  {}

  lemma AbsorbMeans(c: Config, w: WindowState, id: int, ev: Event)
    ensures Entered(c, w, id, ev, Absorb(c, w, id, ev))
  {
    hide Wrap64;
  }

  lemma TurnedAwayMeans(c: ReadyConfig, s: EngineState, ev: Event)
    requires Outsider(c, ev) || KeyOf(c, ev) in s.closed
    requires KeyOf(c, ev) == Wrap64(StartOf(c, ev))
    ensures Observed(c, s, ev, StartOf(c, ev), Engine.Observe(c, s, ev))
  {
    hide StartOf, KeyOf, Wrap64;
  }

  lemma AdmittedMeans(c: ReadyConfig, s: EngineState, ev: Event)
    requires !Outsider(c, ev) && KeyOf(c, ev) !in s.closed
    requires KeyOf(c, ev) == Wrap64(StartOf(c, ev))
    ensures Observed(c, s, ev, StartOf(c, ev), Engine.Observe(c, s, ev))
  {
    hide StartOf, KeyOf, Wrap64, Outsider, Trusted, Engine.Observe, AdmittedAs, Absorb, CapacityAlert, WindowBefore;
    TrustedMeans(c, ev);
    AdmittedParts(c, s, ev);
    AdmittedAsMeans(c, s, ev);
  }

  lemma AdmittedAsMeans(c: ReadyConfig, s: EngineState, ev: Event)
    requires Trusted(c, ev) && KeyOf(c, ev) !in s.closed
    requires KeyOf(c, ev) == Wrap64(StartOf(c, ev))
    ensures KeyOf(c, ev) in Engine.Observe(c, s, ev).windows
    ensures AdmittedAs(c, s, ev, StartOf(c, ev), Engine.Observe(c, s, ev), IdOf(WithKey(s.ids, ev.actor), ev.actor))
  {
    hide StartOf, KeyOf, Wrap64, Absorb, Entered, Trusted, Engine.Observe, WithKey, IdOf, WindowBefore;
    AdmittedParts(c, s, ev);
    AbsorbMeans(c, WindowBefore(s, KeyOf(c, ev), StartOf(c, ev)), IdOf(WithKey(s.ids, ev.actor), ev.actor), ev);
  }

  lemma AdmittedParts(c: ReadyConfig, s: EngineState, ev: Event)
    requires Trusted(c, ev) && KeyOf(c, ev) !in s.closed
    ensures var s' := Engine.Observe(c, s, ev);
            var id := IdOf(WithKey(s.ids, ev.actor), ev.actor);
            var w := WindowBefore(s, KeyOf(c, ev), StartOf(c, ev));
            && s'.closed == s.closed && s'.ids == WithKey(s.ids, ev.actor)
            && s'.windows == s.windows[KeyOf(c, ev) := if id < c.capacity then Absorb(c, w, id, ev) else w]
            && s'.pending == if id < c.capacity then s.pending else s.pending + [CapacityAlert(c, w.start, ev, id)]
  {
    hide StartOf, KeyOf, Absorb, Trusted, IdOf, WithKey, CapacityAlert;
  }

  /** An event goes to the window that contains its time, unless it is refused, late or past
      the capacity, and then it raises just the alert that says so. */
  lemma ObserveMeans(c: ReadyConfig, s: EngineState, ev: Event, start: int)
    requires start <= ev.ts < start + c.windowSize && (start - ZERO_TIME) % c.windowSize == 0
    ensures Observed(c, s, ev, start, Engine.Observe(c, s, ev))
  {
    hide Wrap64, Observed, Outsider, StartOf, KeyOf, Engine.Observe;
    StartMeans(c, ev, start);
    if Outsider(c, ev) || KeyOf(c, ev) in s.closed {
      TurnedAwayMeans(c, s, ev);
    } else {
      AdmittedMeans(c, s, ev);
    }
  }

  lemma ObserveAlways(c: ReadyConfig, s: EngineState, ev: Event)
    ensures forall start :: start <= ev.ts < start + c.windowSize && (start - ZERO_TIME) % c.windowSize == 0 ==>
                              Observed(c, s, ev, start, Engine.Observe(c, s, ev))
  {
    hide Observed, Engine.Observe;
    forall start | start <= ev.ts < start + c.windowSize && (start - ZERO_TIME) % c.windowSize == 0
      ensures Observed(c, s, ev, start, Engine.Observe(c, s, ev))
    {
      ObserveMeans(c, s, ev, start);
    }
  }

  /** A cause from a producer outside a non-empty allow-list justifies nobody and is reported as
      such; no other event is. */
  lemma OutsiderMeans(c: ReadyConfig, s: EngineState, ev: Event)
    ensures var s' := Engine.Observe(c, s, ev);
            if ev.Cause? && |c.trusted| > 0 && !(ev.producer in c.trusted && c.trusted[ev.producer]) then
              && s'.ids == s.ids && s'.windows == s.windows && s'.closed == s.closed
              && |s'.pending| == |s.pending| + 1 && s.pending <= s'.pending
              && s'.pending[|s.pending|].kind == UntrustedProducer && s'.pending[|s.pending|].actors == [ev.actor]
            else
              s.pending <= s'.pending &&
              forall i :: |s.pending| <= i < |s'.pending| ==> s'.pending[i].kind != UntrustedProducer
  {
    hide Engine.Observe, Wrap64, Entered;
    OneWindow(ev.ts, c.windowSize, WindowStart(ev.ts, c.windowSize));
    ObserveMeans(c, s, ev, WindowStart(ev.ts, c.windowSize));
  }

  // Closing.

  ghost function Elements(q: seq<int>): set<int> {
    set k | k in q
  }

  lemma {:induction false} CloseKeysMeans(c: Config, s: EngineState, keys: seq<int>)
    requires forall i :: 0 <= i < |keys| ==> keys[i] in s.windows
    requires forall i, j :: 0 <= i < j < |keys| ==> keys[i] != keys[j]
    requires CloseKeys(c, s, keys).1.Some?
    ensures var s' := CloseKeys(c, s, keys).0;
            && s'.ids == s.ids && s'.pending == s.pending
            && s'.closed == s.closed + Elements(keys) && s'.windows == s.windows - Elements(keys)
    decreases keys
  {
    hide Render;
    if keys != [] {
      CloseKeysMeans(c, Engine.Detach(s, keys[0]), keys[1..]);
      assert Elements(keys) == {keys[0]} + Elements(keys[1..]);
    }
  }

  /** Closing a set of open windows, without a panic, closes those and leaves the others. */
  lemma CloseMeans(c: Config, s: EngineState, keys: set<int>)
    requires keys <= s.windows.Keys && Close(c, s, keys).1.Some?
    ensures Close(c, s, keys).0 == EngineState(s.ids, s.windows - keys, s.closed + keys, [])
  {
    hide CloseKeys, Ascend;
    AscendLists(keys);
    var q := Ascend(keys);
    forall i | 0 <= i < |q| ensures q[i] in s.windows {
      assert q[i] in q;
    }
    assert Elements(q) == keys;
    CloseKeysMeans(c, s, q);
  }

  /** `s'` is `s` with window `k` closed, if `close` says so, or as it was. */
  ghost predicate ClosedOrKept(s: EngineState, s': EngineState, k: int, close: bool) {
    if k in s.windows && close then k !in s'.windows && k in s'.closed
    else
      && (k in s'.windows <==> k in s.windows) && (k in s'.closed <==> k in s.closed)
      && (k in s.windows ==> s'.windows[k] == s.windows[k])
  }

  /** CloseDue, without a panic: exactly the windows whose end and grace have passed are closed. */
  lemma CloseDueMeans(c: Config, s: EngineState, now: int)
    requires Close(c, s, DueKeys(c, s, now)).1.Some?
    ensures var s' := Close(c, s, DueKeys(c, s, now)).0;
            && s'.ids == s.ids && s'.pending == []
            && forall k :: ClosedOrKept(s, s', k,
                             k in s.windows && s.windows[k].start + c.windowSize + c.grace <= now)
  {
    hide Close;
    CloseMeans(c, s, DueKeys(c, s, now));
  }

  // Reporting.

  /** The map names every id of the window. */
  ghost predicate Within(ids: seq<string>, w: WindowState) {
    forall id :: id in w.changed || id in w.justified || id in w.derived || id in w.changeSum ==> 0 <= id < |ids|
  }

  /** The ids whose sums differ, an id without a cause counting as 0. */
  ghost function Differing(w: WindowState): set<int> {
    set id | id in w.changeSum && (if id in w.causeSum then w.causeSum[id] else 0) != w.changeSum[id]
  }

  /** `evidence` holds exactly the numbered lines of the ids of `s`, under their names. */
  ghost predicate LinesSaid(ids: seq<string>, w: WindowState, s: set<int>, evidence: Evidence) {
    && (forall id, i: nat :: id in s && 0 <= id < |ids| && id in w.evidence && i < |w.evidence[id]| ==>
          ActorLine(ids[id], i) in evidence && evidence[ActorLine(ids[id], i)] == Line(w.evidence[id][i]))
    && (forall key :: key in evidence && key.ActorLine? ==>
          exists id :: id in s && 0 <= id < |ids| && ids[id] == key.actor &&
                       id in w.evidence && key.i < |w.evidence[id]|)
    && (forall key :: key in evidence ==> !key.Field?)
  }

  /** `evidence` holds exactly the two sums of each id of `s`, under its name. */
  ghost predicate SumsSaid(ids: seq<string>, w: WindowState, s: set<int>, evidence: Evidence) {
    && (forall id :: id in s && 0 <= id < |ids| ==>
          && ActorSums(ids[id]) in evidence
          && evidence[ActorSums(ids[id])] == Sums(if id in w.changeSum then w.changeSum[id] else 0,
                                                  if id in w.causeSum then w.causeSum[id] else 0))
    && (forall key :: key in evidence && key.ActorSums? ==>
          exists id :: id in s && 0 <= id < |ids| && ids[id] == key.actor)
  }

  lemma {:induction false} LinesOfMeans(ids: seq<string>, w: WindowState, q: seq<int>)
    requires NoDuplicates(ids) && forall i :: 0 <= i < |q| ==> 0 <= q[i] < |ids|
    requires Ascending(IntLess, q)
    ensures LinesSaid(ids, w, Elements(q), LinesOf(ids, w, q))
    ensures forall key :: key in LinesOf(ids, w, q) ==> key.ActorLine?
  {
    if q != [] {
      var init, id := q[..|q| - 1], q[|q| - 1];
      LinesOfMeans(ids, w, init);
      assert Elements(q) == Elements(init) + {id};
      assert id !in Elements(init);
    }
  }

  lemma {:induction false} SumsOfMeans(ids: seq<string>, w: WindowState, q: seq<int>)
    requires NoDuplicates(ids) && forall i :: 0 <= i < |q| ==> 0 <= q[i] < |ids|
    ensures SumsSaid(ids, w, Elements(q), SumsOf(ids, w, q))
    ensures forall key :: key in SumsOf(ids, w, q) ==> key.ActorSums?
  {
    hide SumsSaid;
    if q == [] {
      NoSumsSaid(ids, w, q);
    } else {
      var init, id := q[..|q| - 1], q[|q| - 1];
      SumsOfMeans(ids, w, init);
      assert Elements(q) == Elements(init) + {id};
      SumsSaidAdd(ids, w, Elements(init), id, SumsOf(ids, w, init));
    }
  }

  lemma NoSumsSaid(ids: seq<string>, w: WindowState, q: seq<int>)
    requires q == []
    ensures SumsSaid(ids, w, Elements(q), map[])
  {}

  lemma SumsSaidAdd(ids: seq<string>, w: WindowState, s: set<int>, id: int, evidence: Evidence)
    requires NoDuplicates(ids) && SumsSaid(ids, w, s, evidence) && 0 <= id < |ids|
    ensures SumsSaid(ids, w, s + {id},
                     evidence[ActorSums(ids[id]) := Sums(SumAt(w.changeSum, id), SumAt(w.causeSum, id))])
  {}

  /** The names of the ids of `s`, in ascending order of the ids. */
  ghost predicate NamesSaid(ids: seq<string>, s: set<int>, actors: seq<string>) {
    exists q: seq<int> :: Lists(IntLess, q, s) && NamesAre(ids, q, actors)
  }

  ghost predicate NamesAre(ids: seq<string>, q: seq<int>, actors: seq<string>) {
    |actors| == |q| && forall i :: 0 <= i < |q| ==> 0 <= q[i] < |ids| && actors[i] == ids[q[i]]
  }

  /** The alert about the ids of `s` in a window. */
  ghost predicate Tells(c: Config, ids: seq<string>, w: WindowState, kind: AlertKind, s: set<int>, a: Alert) {
    && a.kind == kind && a.window == WindowRef(w.start, w.start + c.windowSize)
    && NamesSaid(ids, s, a.actors)
    && LinesSaid(ids, w, s, a.evidence)
    && (if kind == AmountMismatch then SumsSaid(ids, w, s, a.evidence)
        else forall key :: key in a.evidence ==> key.ActorLine?)
  }

  /** `alerts` is the one alert about `s`, or none if there is nothing to tell. */
  ghost predicate ToldOnce(c: Config, ids: seq<string>, w: WindowState, kind: AlertKind, s: set<int>,
                           alerts: seq<Alert>) {
    if s == {} then alerts == [] else |alerts| == 1 && Tells(c, ids, w, kind, s, alerts[0])
  }

  lemma {:induction false} NamesOfMeans(ids: seq<string>, q: seq<int>)
    requires forall i :: 0 <= i < |q| ==> 0 <= q[i] < |ids|
    ensures NamesAre(ids, q, NamesOf(ids, q))
  {
    if q != [] {
      NamesOfMeans(ids, q[..|q| - 1]);
    }
  }

  lemma AlertForMeans(c: Config, ids: seq<string>, w: WindowState, kind: AlertKind, s: set<int>)
    requires NoDuplicates(ids) && forall id :: id in s ==> 0 <= id < |ids|
    ensures var a := AlertFor(c, ids, w, kind, s);
            && a.kind == kind && a.window == WindowRef(w.start, w.start + c.windowSize)
            && NamesSaid(ids, s, a.actors) && LinesSaid(ids, w, s, a.evidence)
            && forall key :: key in a.evidence ==> key.ActorLine?
    ensures kind != AmountMismatch ==> Tells(c, ids, w, kind, s, AlertFor(c, ids, w, kind, s))
  {
    hide Ascend, LinesOf, NamesOf, LinesSaid;
    AscendLists(s);
    var q := Ascend(s);
    forall i | 0 <= i < |q| ensures 0 <= q[i] < |ids| {
      assert q[i] in q;
    }
    assert Elements(q) == s;
    NamesOfMeans(ids, q);
    LinesOfMeans(ids, w, q);
  }

  lemma MismatchMeans(c: Config, ids: seq<string>, w: WindowState)
    requires NoDuplicates(ids) && forall id :: id in Differing(w) ==> 0 <= id < |ids|
    requires MismatchAlert(c, ids, w).Some?
    ensures ToldOnce(c, ids, w, AmountMismatch, if c.checkAmounts then Differing(w) else {},
                     MismatchAlert(c, ids, w).value)
  {
    hide Ascend, AlertFor, SumsOf, LinesSaid, SumsSaid;
    assert Mismatched(w) == Differing(w);
    var s := Differing(w);
    if c.checkAmounts && s != {} {
      AlertForMeans(c, ids, w, AmountMismatch, s);
      AscendLists(s);
      var q := Ascend(s);
      forall i | 0 <= i < |q| ensures 0 <= q[i] < |ids| {
        assert q[i] in q;
      }
      assert Elements(q) == s;
      SumsOfMeans(ids, w, q);
      BothSaid(ids, w, s, AlertFor(c, ids, w, AmountMismatch, s).evidence, SumsOf(ids, w, q));
    }
  }

  lemma BothSaid(ids: seq<string>, w: WindowState, s: set<int>, lines: Evidence, sums: Evidence)
    requires LinesSaid(ids, w, s, lines) && (forall key :: key in lines ==> key.ActorLine?)
    requires SumsSaid(ids, w, s, sums) && (forall key :: key in sums ==> key.ActorSums?)
    ensures LinesSaid(ids, w, s, lines + sums) && SumsSaid(ids, w, s, lines + sums)
  {}

  /** A window's report, over any map that names its ids: who changed without a cause, had a
      cause without a change, had a derived cause without a root, and, if amounts are checked,
      whose two sums differ - one alert each, in this order, none for nobody. */
  lemma RenderMeans(c: Config, ids: seq<string>, w: WindowState)
    returns (unauthorized: seq<Alert>, missing: seq<Alert>, forged: seq<Alert>, mismatch: seq<Alert>)
    requires NoDuplicates(ids) && Render(c, ids, w).Some?
    requires Within(ids, w)
    ensures Render(c, ids, w).value == unauthorized + missing + forged + mismatch
    ensures ToldOnce(c, ids, w, UnauthorizedChange, w.changed - w.justified, unauthorized)
    ensures ToldOnce(c, ids, w, MissingChange, w.justified - w.changed, missing)
    ensures ToldOnce(c, ids, w, ForgedCause, w.derived - w.rooted, forged)
    ensures ToldOnce(c, ids, w, AmountMismatch, if c.checkAmounts then Differing(w) else {}, mismatch)
  {
    hide AlertFor, MismatchAlert, Tells;
    AlertForMeans(c, ids, w, UnauthorizedChange, w.changed - w.justified);
    AlertForMeans(c, ids, w, MissingChange, w.justified - w.changed);
    AlertForMeans(c, ids, w, ForgedCause, w.derived - w.rooted);
    unauthorized := SetAlert(c, ids, w, UnauthorizedChange, w.changed - w.justified);
    missing := SetAlert(c, ids, w, MissingChange, w.justified - w.changed);
    forged := SetAlert(c, ids, w, ForgedCause, w.derived - w.rooted);
    assert forall id :: id in Differing(w) ==> 0 <= id < |ids|;
    MismatchMeans(c, ids, w);
    mismatch := MismatchAlert(c, ids, w).value;
  }
}
