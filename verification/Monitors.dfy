/** The monitor in place (internal/monitor/monitor.go): windows of bit vectors and sums, updated
    by each event, detached and reported when they close. Every method is proved against the
    value-level engine. */
module Monitors {
  import opened Ints
  import opened Options
  import opened Sorting
  import opened Times
  import opened BitSets
  import opened IdMaps
  import opened Engine
  import opened Meaning

  class Window {
    const start: int
    const changed: BitSet
    const justified: BitSet
    const derived: BitSet
    const rooted: BitSet
    var changeSum: map<int, Int64>
    var causeSum: map<int, Int64>
    var evidence: map<int, seq<EvidenceLine>>

    /** Everything an event can change about the window. */
    ghost function Cells(): set<object> {
      {this, changed.words, justified.words, derived.words, rooted.words}
    }

    ghost predicate Shaped(capacity: U32) {
      && changed.words != justified.words && changed.words != derived.words && changed.words != rooted.words
      && justified.words != derived.words && justified.words != rooted.words && derived.words != rooted.words
      && changed.Sized() && justified.Sized() && derived.Sized() && rooted.Sized()
      && changed.capacity == justified.capacity == derived.capacity == rooted.capacity == capacity
    }

    ghost function State(): (s: WindowState)
      reads Cells()
      ensures s.start == start
    {
      WindowState(start, changed.Members(), justified.Members(), derived.Members(), rooted.Members(),
                  changeSum, causeSum, evidence)
    }

    constructor (start: int, capacity: U32)
      ensures Shaped(capacity) && fresh(Cells()) && State() == NewWindow(start)
    {
      this.start := start;
      var s1 := new BitSet(capacity);
      var s2 := new BitSet(capacity);
      var s3 := new BitSet(capacity);
      var s4 := new BitSet(capacity);
      changed, justified, derived, rooted := s1, s2, s3, s4;
      changeSum, causeSum, evidence := map[], map[], map[];
    }

    method AddLine(c: ReadyConfig, id: int, line: EvidenceLine)
      modifies this`evidence
      ensures evidence == AddEvidence(c, old(evidence), id, line)
    {
      if |LinesAt(evidence, id)| < c.maxEvidence {
        evidence := evidence[id := LinesAt(evidence, id) + [line]];
      }
    }

    /** An event of the change channel, under the actor's id. */
    method PutChange(c: ReadyConfig, id: U32, ev: Event) returns (ok: bool)
      requires Shaped(c.capacity) && ev.Change?
      modifies Cells()
      ensures ok <==> id < c.capacity
      ensures State() == if ok then Absorb(c, old(State()), id, ev) else old(State())
    {
      hide BitSet.Members, IdsIn, Wrap64, LineOf, AddEvidence;
      ok := changed.Add(id);
      if ok {
        changeSum := changeSum[id := Wrap64(SumAt(changeSum, id) + ev.delta)];
        AddLine(c, id, LineOf(ev));
      }
    }

    /** Records a cause of this kind; only an id that fits is recorded anywhere. */
    method Mark(c: ReadyConfig, id: U32, kind: string) returns (ok: bool)
      requires Shaped(c.capacity)
      modifies justified.words, derived.words, rooted.words
      ensures ok <==> id < c.capacity
      ensures justified.Members() == old(justified.Members()) + if ok then {id} else {}
      ensures derived.Members() == old(derived.Members()) + if ok && On(c.derived, kind) then {id} else {}
      ensures rooted.Members() == old(rooted.Members()) + if ok && On(c.root, kind) then {id} else {}
    {
      hide BitSet.Members, IdsIn;
      ok := justified.Add(id);
      if ok && On(c.derived, kind) {
        var _ := derived.Add(id);
      }
      if ok && On(c.root, kind) {
        var _ := rooted.Add(id);
      }
    }

    /** An event of the cause channel, under the actor's id. */
    method PutCause(c: ReadyConfig, id: U32, ev: Event) returns (ok: bool)
      requires Shaped(c.capacity) && ev.Cause?
      modifies Cells()
      ensures ok <==> id < c.capacity
      ensures State() == if ok then Absorb(c, old(State()), id, ev) else old(State())
    {
      hide BitSet.Members, IdsIn, Wrap64, LineOf, AddEvidence, On;
      ok := Mark(c, id, ev.kind);
      if ok {
        causeSum := causeSum[id := Wrap64(SumAt(causeSum, id) + ev.amount)];
        AddLine(c, id, LineOf(ev));
      }
    }

    /** An event of either channel. */
    method Put(c: ReadyConfig, id: U32, ev: Event) returns (ok: bool)
      requires Shaped(c.capacity)
      modifies Cells()
      ensures ok <==> id < c.capacity
      ensures State() == if ok then Absorb(c, old(State()), id, ev) else old(State())
    {
      hide *;
      if ev.Change? {
        ok := PutChange(c, id, ev);
      } else {
        ok := PutCause(c, id, ev);
      }
    }
  }

  ghost function CellsOf(ws: map<int, Window>): set<object> {
    set k, o | k in ws && o in ws[k].Cells() :: o
  }

  /** Windows under different keys share nothing. */
  ghost predicate Apart(ws: map<int, Window>, capacity: U32) {
    && (forall k :: k in ws ==> ws[k].Shaped(capacity))
    && (forall k, l :: k in ws && l in ws && k != l ==> ws[k].Cells() !! ws[l].Cells())
  }

  ghost function StatesOf(ws: map<int, Window>): map<int, WindowState>
    reads CellsOf(ws)
  {
    map k | k in ws :: ws[k].State()
  }

  lemma ApartWith(ws: map<int, Window>, key: int, w: Window, capacity: U32)
    requires Apart(ws, capacity) && w.Shaped(capacity) && w.Cells() !! CellsOf(ws)
    ensures Apart(ws[key := w], capacity)
  {}

  twostate lemma StateKept(w: Window)
    requires unchanged(w) && unchanged(w.changed.words) && unchanged(w.justified.words)
    requires unchanged(w.derived.words) && unchanged(w.rooted.words)
    ensures w.State() == old(w.State())
  {
    hide IdsIn;
  }

  /** Windows that stand as recorded, but for one. */
  lemma StatesBut(ws: map<int, Window>, was: map<int, WindowState>, key: int)
    requires key in ws && ws.Keys == was.Keys
    requires forall k :: k in ws && k != key ==> ws[k].State() == was[k]
    ensures StatesOf(ws) == was[key := ws[key].State()]
  {
    hide Window.State;
    var states, expected := StatesOf(ws), was[key := ws[key].State()];
    assert states.Keys == expected.Keys;
    assert forall k :: k in ws ==> states[k] == expected[k];
  }

  /** What an admitted event comes to, part by part. */
  lemma PutSteps(c: ReadyConfig, s: EngineState, ev: Event, id: int, t: EngineState)
    requires Trusted(c, ev) && KeyOf(c, ev) !in s.closed && KeyOf(c, ev) in s.windows
    requires t.closed == s.closed && t.ids == WithKey(s.ids, ev.actor) && id == IdOf(t.ids, ev.actor)
    requires var w := s.windows[KeyOf(c, ev)];
             t.windows == s.windows[KeyOf(c, ev) := if id < c.capacity then Absorb(c, w, id, ev) else w]
             && t.pending == if id < c.capacity then s.pending else s.pending + [CapacityAlert(c, w.start, ev, id)]
    ensures t == Engine.Observe(c, s, ev)
  {}

  /** Creating the window of an admitted event first changes nothing. */
  lemma OpenFirst(c: ReadyConfig, s: EngineState, ev: Event)
    requires Trusted(c, ev) && KeyOf(c, ev) !in s.closed
    ensures Engine.Observe(c, s.(windows := s.windows[KeyOf(c, ev) := WindowOf(c, s, ev)]), ev)
         == Engine.Observe(c, s, ev)
  {
    hide KeyOf, StartOf, Absorb, CapacityAlert, IdOf;
    var key := KeyOf(c, ev);
    var w := WindowOf(c, s, ev);
    var id := IdOf(WithKey(s.ids, ev.actor), ev.actor);
    assert s.windows[key := w][key := w] == s.windows[key := w];
    assert s.windows[key := w][key := Absorb(c, w, id, ev)] == s.windows[key := Absorb(c, w, id, ev)];
  }

  lemma Refused(c: ReadyConfig, s: EngineState, ev: Event)
    ensures !Trusted(c, ev) ==> Engine.Observe(c, s, ev) == s.(pending := s.pending + [UntrustedAlert(c, ev)])
    ensures Trusted(c, ev) && KeyOf(c, ev) in s.closed ==>
              Engine.Observe(c, s, ev) == s.(pending := s.pending + [LateAlert(c, ev)])
  {}

  lemma LinesUnderNone(name: string)
    ensures LinesUnder(name, []) == map[]
  {}

  lemma LinesUnderNext(name: string, q: seq<EvidenceLine>, line: EvidenceLine)
    ensures LinesUnder(name, q + [line]) == LinesUnder(name, q)[ActorLine(name, |q|) := Line(line)]
  {}

  /** Alerts reported before the rest of a run of closings. */
  function After(alerts: seq<Alert>, rest: (EngineState, Option<seq<Alert>>)): (EngineState, Option<seq<Alert>>) {
    (rest.0, if rest.1.None? then None else Some(alerts + rest.1.value))
  }

  lemma AfterNone(rest: (EngineState, Option<seq<Alert>>))
    ensures After([], rest) == rest
  {
    assert rest.1.Some? ==> [] + rest.1.value == rest.1.value;
  }

  lemma AfterLast(c: Config, s: EngineState, out: seq<Alert>)
    ensures After(out, CloseKeys(c, s, [])) == (s, Some(out))
  {
    assert out + [] == out;
  }

  lemma CloseNext(c: Config, s: EngineState, keys: seq<int>, n: nat, out: seq<Alert>)
    requires n < |keys|
    ensures var r := if keys[n] in s.windows then Render(c, s.ids, s.windows[keys[n]]) else Some([]);
            After(out, CloseKeys(c, s, keys[n..])) ==
            if r.None? then (Detach(s, keys[n]), None)
            else After(out + r.value, CloseKeys(c, Detach(s, keys[n]), keys[n + 1..]))
  {
    hide Render, Detach;
    assert keys[n..][0] == keys[n] && keys[n..][1..] == keys[n + 1..];
    var r := if keys[n] in s.windows then Render(c, s.ids, s.windows[keys[n]]) else Some([]);
    var rest := CloseKeys(c, Detach(s, keys[n]), keys[n + 1..]).1;
    assert r.Some? && rest.Some? ==> out + (r.value + rest.value) == (out + r.value) + rest.value;
  }

  class Monitor {
    const c: ReadyConfig
    const ids: IdMap
    var windows: map<int, Window>
    var closed: set<int>
    var pending: seq<Alert>

    ghost predicate Valid()
      reads this, ids
    {
      ids.Valid() && Apart(windows, c.capacity)
    }

    ghost function State(): EngineState
      reads this, ids, CellsOf(windows)
    {
      EngineState(ids.rev, StatesOf(windows), closed, pending)
    }

    constructor (config: Config, ids: IdMap)
      requires ids.Valid()
      ensures Valid() && c == WithDefaults(config) && this.ids == ids
      ensures State() == EngineState(ids.rev, map[], {}, []) && CellsOf(windows) == {}
    {
      c := WithDefaults(config);
      this.ids := ids;
      windows, closed, pending := map[], {}, [];
    }

    method OpenWindow(key: int, start: int) returns (w: Window)
      requires Valid() && key !in windows
      modifies this`windows
      ensures Valid() && fresh(w.Cells()) && windows == old(windows)[key := w]
      ensures State() == old(State()).(windows := old(State()).windows[key := NewWindow(start)])
    {
      hide BitSet.Members, IdsIn, Window.State, Window.Shaped, Apart, Bijection, NewWindow;
      w := new Window(start, c.capacity);
      ApartWith(windows, key, w, c.capacity);
      windows := windows[key := w];
      forall k | k in old(windows) ensures windows[k].State() == old(windows[k].State()) {
        assert windows[k] == old(windows)[k];
        StateKept(windows[k]);
      }
      assert StatesOf(windows) == old(StatesOf(windows))[key := w.State()];
    }

    /** The window of an event, created if need be; null if it has been reported already. */
    method WindowFor(ev: Event) returns (w: Window?)
      requires Valid()
      modifies this`windows
      ensures Valid()
      ensures w == null <==> KeyOf(c, ev) in closed
      ensures w == null ==> windows == old(windows) && State() == old(State())
      ensures w != null ==> windows == old(windows)[KeyOf(c, ev) := w] && fresh(w.Cells() - old(CellsOf(windows)))
      ensures var s := old(State());
              w != null ==> State() == s.(windows := s.windows[KeyOf(c, ev) := WindowOf(c, s, ev)])
    {
      hide BitSet.Members, IdsIn, KeyOf, StartOf, Window.State, Window.Shaped, Apart, Bijection;
      var key := KeyOf(c, ev);
      if key in closed {
        return null;
      }
      if key in windows {
        w := windows[key];
        assert windows == windows[key := w];
        assert w.Cells() <= CellsOf(windows);
        assert StatesOf(windows) == StatesOf(windows)[key := w.State()];
      } else {
        w := OpenWindow(key, StartOf(c, ev));
      }
    }

    /** Room for one more id, or a known actor: what keeps the identity map a bijection. */
    ghost predicate CanIntern(actor: string)
      reads ids
    {
      actor in ids.fwd || |ids.rev| < TWO_32
    }

    method Raise(a: Alert)
      requires Valid()
      modifies this`pending
      ensures Valid() && State() == old(State()).(pending := old(State()).pending + [a])
    {
      hide BitSet.Members, IdsIn, Window.State, Bijection, Window.Shaped, Apart;
      pending := pending + [a];
      forall k | k in windows ensures windows[k].State() == old(windows[k].State()) {
        StateKept(windows[k]);
      }
      assert StatesOf(windows) == old(StatesOf(windows));
    }

    /** The window under `key` takes the event, the others stay as they are. */
    method Enter(key: int, id: U32, ev: Event) returns (ok: bool)
      requires Valid() && key in windows
      modifies windows[key].Cells()
      ensures Valid() && windows == old(windows) && (ok <==> id < c.capacity)
      ensures var s := old(State());
              State() == if ok then s.(windows := s.windows[key := Absorb(c, s.windows[key], id, ev)]) else s
    {
      hide BitSet.Members, IdsIn, Absorb, Window.State, Bijection, Window.Shaped;
      ghost var s := State();
      var w := windows[key];
      ok := w.Put(c, id, ev);
      forall k | k in windows && k != key ensures windows[k].State() == s.windows[k] {
        assert windows[k].Cells() !! w.Cells();
        StateKept(windows[k]);
      }
      StatesBut(windows, s.windows, key);
    }

    method InternActor(actor: string) returns (id: U32)
      requires Valid() && CanIntern(actor)
      modifies ids
      ensures Valid() && id == IdOf(WithKey(old(ids.rev), actor), actor)
      ensures State() == old(State()).(ids := WithKey(old(ids.rev), actor))
    {
      hide BitSet.Members, IdsIn, IdOf, WithKey, Window.State, Bijection, Window.Shaped, Apart;
      id := ids.Intern(actor);
      forall k | k in windows ensures windows[k].State() == old(windows[k].State()) {
        StateKept(windows[k]);
      }
      assert StatesOf(windows) == old(StatesOf(windows));
    }

    /** Puts an event of either channel into its open window, under the actor's id. */
    method PutInto(w: Window, ev: Event)
      requires Valid() && CanIntern(ev.actor) && Trusted(c, ev) && KeyOf(c, ev) !in closed
      requires KeyOf(c, ev) in windows && windows[KeyOf(c, ev)] == w
      modifies this`pending, ids, w.Cells()
      ensures Valid() && windows == old(windows)
      ensures State() == Engine.Observe(c, old(State()), ev)
    {
      hide KeyOf, StartOf, Absorb, CapacityAlert, IdOf, WithKey, Window.State, Apart, Window.Cells, CellsOf,
           Engine.Observe;
      var id := InternActor(ev.actor);
      var ok := Enter(KeyOf(c, ev), id, ev);
      if !ok {
        Raise(CapacityAlert(c, w.start, ev, id));
      }
      PutSteps(c, old(State()), ev, id, State());
    }

    /** What both channels do with an event once its producer is trusted. */
    method Admit(ev: Event)
      requires Valid() && CanIntern(ev.actor) && Trusted(c, ev)
      modifies this`windows, this`pending, ids, CellsOf(windows)
      ensures Valid() && fresh(CellsOf(windows) - old(CellsOf(windows)))
      ensures State() == Engine.Observe(c, old(State()), ev)
    {
      hide BitSet.Members, IdsIn, KeyOf, StartOf, Trusted, LateAlert, Window.State, Bijection,
        Window.Shaped, WindowOf, Apart, StatesOf, Engine.Observe, Window.Cells;
      ghost var s := State();
      Refused(c, s, ev);
      var w := WindowFor(ev);
      if w == null {
        Raise(LateAlert(c, ev));
        return;
      }
      OpenFirst(c, s, ev);
      PutInto(w, ev);
    }

    /** One event from the change channel. */
    method ObserveChange(ev: Event)
      requires Valid() && CanIntern(ev.actor) && ev.Change?
      modifies this`windows, this`pending, ids, CellsOf(windows)
      ensures Valid() && fresh(CellsOf(windows) - old(CellsOf(windows)))
      ensures State() == Engine.Observe(c, old(State()), ev)
      ensures forall start ::
                start <= ev.ts < start + c.windowSize && (start - ZERO_TIME) % c.windowSize == 0 ==>
                  Observed(c, old(State()), ev, start, State())
    {
      hide Valid, State, CellsOf, Engine.Observe, Observed;
      Admit(ev);
      ObserveAlways(c, old(State()), ev);
    }

    /** One event from the cause channel: the producer is looked at before anything else. */
    method ObserveCause(ev: Event)
      requires Valid() && CanIntern(ev.actor) && ev.Cause?
      modifies this`windows, this`pending, ids, CellsOf(windows)
      ensures Valid() && fresh(CellsOf(windows) - old(CellsOf(windows)))
      ensures State() == Engine.Observe(c, old(State()), ev)
      ensures forall start ::
                start <= ev.ts < start + c.windowSize && (start - ZERO_TIME) % c.windowSize == 0 ==>
                  Observed(c, old(State()), ev, start, State())
      ensures var s, s' := old(State()), State();
              if |c.trusted| > 0 && !(ev.producer in c.trusted && c.trusted[ev.producer]) then
                && s'.ids == s.ids && s'.windows == s.windows && s'.closed == s.closed
                && |s'.pending| == |s.pending| + 1 && s.pending <= s'.pending
                && s'.pending[|s.pending|].kind == UntrustedProducer && s'.pending[|s.pending|].actors == [ev.actor]
              else
                s.pending <= s'.pending &&
                forall i :: |s.pending| <= i < |s'.pending| ==> s'.pending[i].kind != UntrustedProducer
    {
      hide Valid, State, UntrustedAlert, CellsOf, Engine.Observe, Observed;
      Refused(c, State(), ev);
      ObserveAlways(c, State(), ev);
      OutsiderMeans(c, State(), ev);
      if |c.trusted| > 0 && !On(c.trusted, ev.producer) {
        Raise(UntrustedAlert(c, ev));
      } else {
        Admit(ev);
      }
    }

    method NameAt(id: int) returns (name: string)
      ensures name == NameOf(ids.rev, id)
    {
      var found := ids.Name(id);
      name := if found.Some? then found.value else "";
    }

    method AddLines(evidence: Evidence, name: string, lines: seq<EvidenceLine>) returns (out: Evidence)
      ensures out == evidence + LinesUnder(name, lines)
    {
      hide LinesUnder;
      out := evidence;
      LinesUnderNone(name);
      for i := 0 to |lines|
        invariant out == evidence + LinesUnder(name, lines[..i])
      {
        LinesUnderNext(name, lines[..i], lines[i]);
        assert lines[..i + 1] == lines[..i] + [lines[i]];
        out := out[ActorLine(name, i) := Line(lines[i])];
      }
      assert lines[..|lines|] == lines;
    }

    method AlertFromIds(kind: AlertKind, w: Window, q: seq<int>) returns (a: Alert)
      ensures a == Alert(kind, Ref(c, w.start), NamesOf(ids.rev, q), LinesOf(ids.rev, w.State(), q))
    {
      hide BitSet.Members, IdsIn, NameOf, NamesOf, LinesUnder;
      var names := ids.Names(q);
      var evidence := map[];
      for n := 0 to |q|
        invariant evidence == LinesOf(ids.rev, w.State(), q[..n])
      {
        var id := q[n];
        var name := NameAt(id);
        evidence := AddLines(evidence, name, LinesAt(w.evidence, id));
        assert q[..n + 1][..n] == q[..n];
      }
      assert q[..|q|] == q;
      a := Alert(kind, Ref(c, w.start), names, evidence);
    }

    /** The finding that `a` holds members `b` does not, if it does. */
    method SetFinding(kind: AlertKind, w: Window, a: BitSet, b: BitSet) returns (out: seq<Alert>)
      requires a.Sized()
      ensures out == SetAlert(c, ids.rev, w.State(), kind, a.Members() - b.Members())
    {
      hide IdsIn, Window.State, NamesOf, LinesOf;
      var d := Difference(a, b);
      var none := d.IsEmpty();
      if none {
        return [];
      }
      var q := d.Ids();
      IntOrder();
      ListsUnique(IntLess, q, Ascend(d.Members()), d.Members());
      var alert := AlertFromIds(kind, w, q);
      out := [alert];
    }

    method MismatchedIds(w: Window) returns (found: set<int>)
      ensures found == Mismatched(w.State())
    {
      found := {};
      var rest := w.changeSum.Keys;
      while rest != {}
        invariant rest <= w.changeSum.Keys
        invariant found == set id | id in w.changeSum && id !in rest && SumAt(w.causeSum, id) != w.changeSum[id]
        decreases |rest|
      {
        var id := Any(rest);
        if SumAt(w.causeSum, id) != w.changeSum[id] {
          found := found + {id};
        }
        rest := rest - {id};
      }
    }

    method AddSums(evidence: Evidence, w: Window, q: seq<int>) returns (out: Evidence)
      ensures out == evidence + SumsOf(ids.rev, w.State(), q)
    {
      hide BitSet.Members, IdsIn, NameOf;
      out := evidence;
      for n := 0 to |q|
        invariant out == evidence + SumsOf(ids.rev, w.State(), q[..n])
      {
        var id := q[n];
        var name := NameAt(id);
        out := out[ActorSums(name) := Sums(SumAt(w.changeSum, id), SumAt(w.causeSum, id))];
        assert q[..n + 1][..n] == q[..n];
      }
      assert q[..|q|] == q;
    }

    /** The conservation finding; `None` is the panic of writing to a nil map. */
    method AmountFinding(w: Window) returns (r: Option<seq<Alert>>)
      ensures r == MismatchAlert(c, ids.rev, w.State())
    {
      hide BitSet.Members, IdsIn, NamesOf, LinesOf, SumsOf, Mismatched;
      if !c.checkAmounts {
        return Some([]);
      }
      var found := MismatchedIds(w);
      if found == {} {
        return Some([]);
      }
      var q := Ascend(found);
      var a := AlertFromIds(AmountMismatch, w, q);
      if a.evidence == map[] {
        return None;
      }
      var evidence := AddSums(a.evidence, w, q);
      r := Some([a.(evidence := evidence)]);
    }

    /** What is reported about a window that has left the open ones. */
    method Report(w: Window) returns (r: Option<seq<Alert>>)
      requires w.Shaped(c.capacity)
      ensures r == Render(c, ids.rev, w.State())
    {
      hide IdsIn, BitSet.Members, SetAlert, MismatchAlert;
      var unauthorized := SetFinding(UnauthorizedChange, w, w.changed, w.justified);
      var missing := SetFinding(MissingChange, w, w.justified, w.changed);
      var forged := SetFinding(ForgedCause, w, w.derived, w.rooted);
      var mismatch := AmountFinding(w);
      r := if mismatch.None? then None else Some(unauthorized + missing + forged + mismatch.value);
    }

    /** The locked part of closing: the window leaves the open ones for good, and shares nothing
        with those that stay or with any opened later. */
    method DetachWindow(key: int) returns (w: Window?)
      requires Valid()
      modifies this`windows, this`closed
      ensures Valid() && windows == old(windows) - {key} && State() == Detach(old(State()), key)
      ensures w == null <==> key !in old(windows)
      ensures w != null ==> w == old(windows)[key] && w.Shaped(c.capacity) && w.Cells() !! CellsOf(windows)
      ensures w != null ==> w.State() == old(State()).windows[key]
    {
      hide IdsIn, BitSet.Members, Window.State, Window.Shaped, Bijection;
      if key !in windows {
        assert windows == windows - {key};
        return null;
      }
      w := windows[key];
      ghost var s := State();
      windows := windows - {key};
      closed := closed + {key};
      forall k | k in old(windows) ensures old(windows)[k].State() == s.windows[k] {
        StateKept(old(windows)[k]);
      }
      assert StatesOf(windows) == s.windows - {key};
    }

    /** Detaches and reports with no other operation in between. */
    method CloseWindow(key: int) returns (r: Option<seq<Alert>>)
      requires Valid()
      modifies this`windows, this`closed
      ensures Valid() && windows == old(windows) - {key}
      ensures State() == Detach(old(State()), key)
      ensures var s := old(State());
              r == if key in s.windows then Render(c, s.ids, s.windows[key]) else Some([])
    {
      hide IdsIn, BitSet.Members, Window.State, Window.Shaped, Render, Bijection, Detach;
      var w := DetachWindow(key);
      if w == null {
        return Some([]);
      }
      ghost var s := State();
      label detached:
      r := Report(w);
      StateKept@detached(w);
      forall k | k in windows ensures windows[k].State() == s.windows[k] {
        StateKept@detached(windows[k]);
      }
      assert StatesOf(windows) == s.windows;
    }

    /** Closes the windows of `starts` one by one. */
    method CloseEach(starts: seq<int>) returns (out: Option<seq<Alert>>)
      requires Valid()
      modifies this`windows, this`closed
      ensures Valid() && windows.Keys <= old(windows).Keys && forall k :: k in windows ==> windows[k] == old(windows)[k]
      ensures (State(), out) == CloseKeys(c, old(State()), starts)
    {
      hide Valid, State, Render, Detach, CloseKeys, After;
      AfterNone(CloseKeys(c, State(), starts));
      assert starts[0..] == starts;
      out := Some([]);
      for n := 0 to |starts|
        invariant Valid() && windows.Keys <= old(windows).Keys
        invariant forall k :: k in windows ==> windows[k] == old(windows)[k]
        invariant out.Some?
        invariant CloseKeys(c, old(State()), starts) == After(out.value, CloseKeys(c, State(), starts[n..]))
      {
        CloseNext(c, State(), starts, n, out.value);
        var r := CloseWindow(starts[n]);
        if r.None? {
          return None;
        }
        out := Some(out.value + r.value);
      }
      AfterLast(c, State(), out.value);
      assert starts[|starts|..] == [];
    }

    method Starts(due: bool, now: int) returns (keys: set<int>)
      requires Valid()
      ensures State() == old(State())
      ensures keys == if due then DueKeys(c, State(), now) else State().windows.Keys
    {
      hide BitSet.Members, IdsIn, Bijection, Window.Shaped;
      keys := {};
      var rest := windows.Keys;
      while rest != {}
        invariant rest <= windows.Keys
        invariant keys == set k | k in windows && k !in rest && (!due || Due(c, windows[k].start, now))
        decreases |rest|
      {
        var key := Any(rest);
        if !due || Due(c, windows[key].start, now) {
          keys := keys + {key};
        }
        rest := rest - {key};
      }
      forall k | k in windows ensures windows[k].State() == old(windows[k].State()) {
        StateKept(windows[k]);
      }
      assert StatesOf(windows) == old(StatesOf(windows));
    }

    method DrainPending() returns (p: seq<Alert>)
      requires Valid()
      modifies this`pending
      ensures Valid() && p == old(pending) && State() == Drain(old(State()))
    {
      hide BitSet.Members, IdsIn, Window.State, Bijection, Window.Shaped, Apart;
      p := pending;
      pending := [];
      forall k | k in windows ensures windows[k].State() == old(windows[k].State()) {
        StateKept(windows[k]);
      }
      assert StatesOf(windows) == old(StatesOf(windows));
    }

    /** Closes a set of windows in ascending order; what was raised at ingest comes first. */
    method CloseThese(starts: set<int>) returns (r: Option<seq<Alert>>)
      requires Valid()
      modifies this`windows, this`closed, this`pending
      ensures Valid() && CellsOf(windows) <= old(CellsOf(windows))
      ensures (State(), r) == Close(c, old(State()), starts)
    {
      hide Valid, CloseKeys;
      var out := CloseEach(Ascend(starts));
      if out.None? {
        return None;
      }
      var raised := DrainPending();
      r := Some(raised + out.value);
    }

    /** Closes every window whose end and grace have passed. */
    method CloseDue(now: int) returns (r: Option<seq<Alert>>)
      requires Valid()
      modifies this`windows, this`closed, this`pending
      ensures Valid() && CellsOf(windows) <= old(CellsOf(windows))
      ensures (State(), r) == Close(c, old(State()), DueKeys(c, old(State()), now))
      ensures r.Some? ==> State().ids == old(State()).ids && State().pending == []
      ensures r.Some? ==> forall k :: ClosedOrKept(old(State()), State(), k,
                k in old(State()).windows && old(State()).windows[k].start + c.windowSize + c.grace <= now)
    {
      hide *;
      var starts := Starts(true, now);
      r := CloseThese(starts);
      if r.Some? {
        CloseDueMeans(c, old(State()), now);
      }
    }

    /** Closes every open window. */
    method CloseAll() returns (r: Option<seq<Alert>>)
      requires Valid()
      modifies this`windows, this`closed, this`pending
      ensures Valid() && CellsOf(windows) <= old(CellsOf(windows))
      ensures (State(), r) == Close(c, old(State()), old(State()).windows.Keys)
      ensures r.Some? ==> State().ids == old(State()).ids && State().pending == [] && State().windows == map[]
      ensures r.Some? ==> State().closed == old(State()).closed + old(State()).windows.Keys
    {
      hide *;
      var starts := Starts(false, 0);
      r := CloseThese(starts);
      if r.Some? {
        CloseMeans(c, old(State()), old(State()).windows.Keys);
      }
    }
  }
}
