/** The invariant engine on values (internal/monitor/monitor.go): what each operation does to
    the open windows, the closed keys, the pending alerts and the identity map. The class of
    module `Monitors` is proved to do the same in place. */
module Engine {
  import opened Ints
  import opened Options
  import opened Sorting
  import opened Times
  import opened Encoding
  import opened IdMaps

  datatype Event =
    | Change(actor: string, ts: int, delta: Int64, source: string)
    | Cause(actor: string, ts: int, kind: string, producer: string, amount: Int64, ref: string)

  datatype Config = Config(
    windowSize: int, grace: int, capacity: U32,
    trusted: map<string, bool>, derived: map<string, bool>, root: map<string, bool>,
    checkAmounts: bool, maxEvidence: int)

  function WithDefaults(c: Config): Config {
    Config(
      if c.windowSize <= 0 then MINUTE else c.windowSize,
      if c.grace < 0 then 0 else c.grace,
      if c.capacity == 0 then 0x10_0000 else c.capacity,
      c.trusted, c.derived, c.root, c.checkAmounts,
      if c.maxEvidence == 0 then 3 else c.maxEvidence)
  }

  /** What the defaults guarantee; a negative evidence bound is left as it is. */
  predicate Ready(c: Config) {
    c.windowSize > 0 && c.grace >= 0 && c.capacity > 0 && c.maxEvidence != 0
  }

  /** The defaults repair exactly the configurations that are not ready, and those for good. */
  lemma DefaultsFillGaps(c: Config)
    ensures Ready(WithDefaults(c))
    ensures WithDefaults(c) == c <==> Ready(c)
    ensures WithDefaults(c).windowSize == if c.windowSize > 0 then c.windowSize else 60 * 1_000_000_000
    ensures WithDefaults(c).grace == if c.grace >= 0 then c.grace else 0
    ensures WithDefaults(c).capacity == if c.capacity > 0 then c.capacity else 1024 * 1024
    ensures WithDefaults(c).maxEvidence == if c.maxEvidence != 0 then c.maxEvidence else 3
    ensures WithDefaults(c) == c.(windowSize := WithDefaults(c).windowSize, grace := WithDefaults(c).grace,
                                  capacity := WithDefaults(c).capacity, maxEvidence := WithDefaults(c).maxEvidence)
  {}

  type ReadyConfig = c: Config | Ready(c)
    witness WithDefaults(Config(0, 0, 0, map[], map[], map[], false, 0))

  /** A missing key reads as false. */
  predicate On(m: map<string, bool>, k: string) {
    k in m && m[k]
  }

  /** Change events need no producer; causes do as soon as the allow-list has an entry. */
  predicate Trusted(c: Config, ev: Event) {
    ev.Change? || |c.trusted| == 0 || On(c.trusted, ev.producer)
  }

  function StartOf(c: ReadyConfig, ev: Event): int {
    WindowStart(ev.ts, c.windowSize)
  }

  function KeyOf(c: ReadyConfig, ev: Event): Int64 {
    Key(StartOf(c, ev))
  }

  predicate Due(c: Config, start: int, now: int) {
    start + c.windowSize + c.grace <= now
  }

  // Alerts.

  datatype EvidenceLine =
    | ChangeLine(source: string, ts: int, delta: Int64)
    | CauseLine(kind: string, producer: string, ts: int, amount: Int64, ref: string)

  function OrUnknown(s: string): string {
    if s == "" then "unknown" else s
  }

  function LineOf(ev: Event): EvidenceLine {
    match ev
    case Change(_, ts, delta, source) => ChangeLine(OrUnknown(source), ts, delta)
    case Cause(_, ts, kind, producer, amount, ref) => CauseLine(kind, OrUnknown(producer), ts, amount, OrUnknown(ref))
  }

  datatype WindowRef = WindowRef(start: int, end: int)

  datatype AlertKind =
    | UnauthorizedChange | MissingChange | ForgedCause | AmountMismatch
    | UntrustedProducer | CapacityExceeded | LateEvent

  datatype EvidenceKey = Field(name: string) | ActorLine(actor: string, i: nat) | ActorSums(actor: string)

  datatype EvidenceValue =
    | Text(text: string)
    | Number(n: int)
    | Line(line: EvidenceLine)
    | Sums(observed: int, authorized: int)

  type Evidence = map<EvidenceKey, EvidenceValue>

  datatype Alert = Alert(kind: AlertKind, window: WindowRef, actors: seq<string>, evidence: Evidence)

  function Ref(c: Config, start: int): WindowRef {
    WindowRef(start, start + c.windowSize)
  }

  function UntrustedAlert(c: ReadyConfig, ev: Event): Alert
    requires ev.Cause?
  {
    Alert(UntrustedProducer, Ref(c, StartOf(c, ev)), [ev.actor],
          map[Field("kind") := Text(ev.kind), Field("producer") := Text(ev.producer)])
  }

  function LateAlert(c: ReadyConfig, ev: Event): Alert {
    Alert(LateEvent, Ref(c, StartOf(c, ev)), [ev.actor],
          match ev
          case Change(_, _, _, source) => map[Field("channel") := Text("change"), Field("source") := Text(source)]
          case Cause(_, _, kind, _, _, _) => map[Field("channel") := Text("cause"), Field("kind") := Text(kind)])
  }

  function CapacityAlert(c: Config, start: int, ev: Event, id: int): Alert {
    Alert(CapacityExceeded, Ref(c, start), [ev.actor],
          map[Field("id") := Number(id), Field("capacity") := Number(c.capacity)])
  }

  // State.

  datatype WindowState = WindowState(
    start: int, changed: set<int>, justified: set<int>, derived: set<int>, rooted: set<int>,
    changeSum: map<int, Int64>, causeSum: map<int, Int64>, evidence: map<int, seq<EvidenceLine>>)

  datatype EngineState = EngineState(
    ids: seq<string>, windows: map<int, WindowState>, closed: set<int>, pending: seq<Alert>)

  function NewWindow(start: int): WindowState {
    WindowState(start, {}, {}, {}, {}, map[], map[], map[])
  }

  function SumAt(sums: map<int, Int64>, id: int): Int64 {
    if id in sums then sums[id] else 0
  }

  function LinesAt(evidence: map<int, seq<EvidenceLine>>, id: int): seq<EvidenceLine> {
    if id in evidence then evidence[id] else []
  }

  function AddEvidence(c: Config, evidence: map<int, seq<EvidenceLine>>, id: int, line: EvidenceLine)
    : map<int, seq<EvidenceLine>>
  {
    if |LinesAt(evidence, id)| < c.maxEvidence then evidence[id := LinesAt(evidence, id) + [line]] else evidence
  }

  /** An accepted event enters its window under the actor's id. */
  function Absorb(c: Config, w: WindowState, id: int, ev: Event): WindowState {
    var w' := match ev
      case Change(_, _, delta, _) =>
        w.(changed := w.changed + {id},
           changeSum := w.changeSum[id := Wrap64(SumAt(w.changeSum, id) + delta)])
      case Cause(_, _, kind, _, amount, _) =>
        w.(justified := w.justified + {id},
           derived := if On(c.derived, kind) then w.derived + {id} else w.derived,
           rooted := if On(c.root, kind) then w.rooted + {id} else w.rooted,
           causeSum := w.causeSum[id := Wrap64(SumAt(w.causeSum, id) + amount)]);
    w'.(evidence := AddEvidence(c, w'.evidence, id, LineOf(ev)))
  }

  /** The window an admitted event is put into, new if there is none. */
  function WindowOf(c: ReadyConfig, s: EngineState, ev: Event): WindowState {
    if KeyOf(c, ev) in s.windows then s.windows[KeyOf(c, ev)] else NewWindow(StartOf(c, ev))
  }

  /** ObserveChange and ObserveCause. */
  function Observe(c: ReadyConfig, s: EngineState, ev: Event): EngineState {
    var key := KeyOf(c, ev);
    if !Trusted(c, ev) then s.(pending := s.pending + [UntrustedAlert(c, ev)])
    else if key in s.closed then s.(pending := s.pending + [LateAlert(c, ev)])
    else
      var w := WindowOf(c, s, ev);
      var ids := WithKey(s.ids, ev.actor);
      var id := IdOf(ids, ev.actor);
      if id >= c.capacity then
        s.(ids := ids, windows := s.windows[key := w], pending := s.pending + [CapacityAlert(c, w.start, ev, id)])
      else
        s.(ids := ids, windows := s.windows[key := Absorb(c, w, id, ev)])
  }

  /** The locked part of closing a window: it leaves the open windows for good. */
  function Detach(s: EngineState, key: int): EngineState {
    if key in s.windows then s.(windows := s.windows - {key}, closed := s.closed + {key}) else s
  }

  function Drain(s: EngineState): EngineState {
    s.(pending := [])
  }

  // Reporting a detached window.

  function NameOf(ids: seq<string>, id: int): string {
    if 0 <= id < |ids| then ids[id] else ""
  }

  /** Numbered evidence lines of one actor. */
  function LinesUnder(actor: string, lines: seq<EvidenceLine>): Evidence {
    map i: nat | i < |lines| :: ActorLine(actor, i) := Line(lines[i])
  }

  function LinesOf(ids: seq<string>, w: WindowState, q: seq<int>): Evidence {
    if q == [] then map[]
    else
      var id := q[|q| - 1];
      LinesOf(ids, w, q[..|q| - 1]) + LinesUnder(NameOf(ids, id), LinesAt(w.evidence, id))
  }

  function SumsOf(ids: seq<string>, w: WindowState, q: seq<int>): Evidence {
    if q == [] then map[]
    else
      var id := q[|q| - 1];
      SumsOf(ids, w, q[..|q| - 1])
        [ActorSums(NameOf(ids, id)) := Sums(SumAt(w.changeSum, id), SumAt(w.causeSum, id))]
  }

  /** The ids of `s` in the order `Ids` lists them. */
  function Ascend(s: set<int>): seq<int> {
    IntOrder();
    Sorted(IntLess, s)
  }

  lemma AscendLists(s: set<int>)
    ensures Lists(IntLess, Ascend(s), s)
    ensures forall k :: k in Ascend(s) <==> k in s
  {}

  function AlertFor(c: Config, ids: seq<string>, w: WindowState, kind: AlertKind, s: set<int>): Alert {
    Alert(kind, Ref(c, w.start), NamesOf(ids, Ascend(s)), LinesOf(ids, w, Ascend(s)))
  }

  function SetAlert(c: Config, ids: seq<string>, w: WindowState, kind: AlertKind, s: set<int>): seq<Alert> {
    if s == {} then [] else [AlertFor(c, ids, w, kind, s)]
  }

  function Mismatched(w: WindowState): set<int> {
    set id | id in w.changeSum && SumAt(w.causeSum, id) != w.changeSum[id]
  }

  /** The conservation finding. With no evidence line at all the map it adds the sums to is
      nil, and the source panics: `None`. */
  function MismatchAlert(c: Config, ids: seq<string>, w: WindowState): Option<seq<Alert>> {
    if !c.checkAmounts || Mismatched(w) == {} then Some([])
    else
      var a := AlertFor(c, ids, w, AmountMismatch, Mismatched(w));
      if a.evidence == map[] then None
      else Some([a.(evidence := a.evidence + SumsOf(ids, w, Ascend(Mismatched(w))))])
  }

  /** Everything `closeWindow` reports about a detached window. */
  function Render(c: Config, ids: seq<string>, w: WindowState): Option<seq<Alert>> {
    match MismatchAlert(c, ids, w)
    case None => None
    case Some(mismatch) =>
      Some(SetAlert(c, ids, w, UnauthorizedChange, w.changed - w.justified) +
           SetAlert(c, ids, w, MissingChange, w.justified - w.changed) +
           SetAlert(c, ids, w, ForgedCause, w.derived - w.rooted) +
           mismatch)
  }

  // Closing, as one thread does it with no other in between.

  /** Detaches and reports the windows of `keys`, in order; a panic ends it. */
  function CloseKeys(c: Config, s: EngineState, keys: seq<int>): (EngineState, Option<seq<Alert>>)
    decreases keys
  {
    if keys == [] then (s, Some([]))
    else
      var s1 := Detach(s, keys[0]);
      match (if keys[0] in s.windows then Render(c, s.ids, s.windows[keys[0]]) else Some([]))
      case None => (s1, None)
      case Some(alerts) =>
        var (s2, rest) := CloseKeys(c, s1, keys[1..]);
        (s2, if rest.None? then None else Some(alerts + rest.value))
  }

  function DueKeys(c: Config, s: EngineState, now: int): set<int> {
    set k | k in s.windows && Due(c, s.windows[k].start, now)
  }

  /** Closes a set of windows in ascending order; what was pending comes first. */
  function Close(c: Config, s: EngineState, keys: set<int>): (EngineState, Option<seq<Alert>>) {
    var (s1, alerts) := CloseKeys(c, s, Ascend(keys));
    if alerts.None? then (s1, None) else (Drain(s1), Some(s1.pending + alerts.value))
  }
}
