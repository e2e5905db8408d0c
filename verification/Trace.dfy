/** What a recorded run means, with no bit vectors, maps or open windows: sets of actor names,
    sums and evidence read off the events of the run. The place of an actor in the order of first
    appearance is the one thing it needs of ids: actors past the capacity are not accepted. */
module Traces {
  import opened Ints
  import opened Engine
  import opened IdMaps

  /** One atomic step of the engine, in the order the lock was taken. */
  datatype Step = Observe(ev: Event) | Detach(key: int) | Drain

  /** The first `max` of a list; none for a negative bound. */
  function First<T>(s: seq<T>, max: int): seq<T> {
    if max < 0 then [] else if |s| <= max then s else s[..max]
  }

  function Filter(s: seq<string>, keep: set<string>): seq<string> {
    if s == [] then []
    else Filter(s[..|s| - 1], keep) + (if s[|s| - 1] in keep then [s[|s| - 1]] else [])
  }

  /** Evidence and sums of an alert, actor by actor. */
  ghost function LinesFor(actors: seq<string>, lines: string -> seq<EvidenceLine>): Evidence {
    if actors == [] then map[]
    else LinesFor(actors[..|actors| - 1], lines) + LinesUnder(actors[|actors| - 1], lines(actors[|actors| - 1]))
  }

  ghost function SumsFor(actors: seq<string>, observed: string -> int, authorized: string -> int): Evidence {
    if actors == [] then map[]
    else
      var a := actors[|actors| - 1];
      SumsFor(actors[..|actors| - 1], observed, authorized)[ActorSums(a) := Sums(observed(a), authorized(a))]
  }

  datatype Trace = Trace(c: ReadyConfig, ids0: seq<string>, steps: seq<Step>) {
    /** Step `j` is an event that is let through to the window with key `k`. */
    ghost predicate Admits(j: nat, k: int) {
      j < |steps| && steps[j].Observe? && Trusted(c, steps[j].ev) && KeyOf(c, steps[j].ev) == k
    }

    /** Some event before step `n` was let through to window `k`. */
    ghost predicate Opened(n: nat, k: int) {
      exists j: nat :: j < n && Admits(j, k)
    }

    /** Window `k` was detached, after having been opened, before step `n`. */
    ghost predicate Closed(n: nat, k: int) {
      exists d: nat :: d < n && d < |steps| && steps[d] == Step.Detach(k) && Opened(d, k)
    }

    /** Step `j` is an event that reaches the open window `k`. */
    ghost predicate Reaches(j: nat, k: int) {
      Admits(j, k) && !Closed(j, k)
    }

    /** The actors known before step `n`, in the order of their first appearance in an event
        that reached its window. */
    ghost function Known(n: nat): seq<string>
      requires n <= |steps|
    {
      if n == 0 then ids0
      else if steps[n - 1].Observe? && Reaches(n - 1, KeyOf(c, steps[n - 1].ev))
      then WithKey(Known(n - 1), steps[n - 1].ev.actor)
      else Known(n - 1)
    }

    /** Step `j` is an event that reaches window `k` with an actor the vectors can hold. */
    ghost predicate Accepted(j: nat, k: int) {
      Reaches(j, k) && IdOf(Known(j + 1), steps[j].ev.actor) < c.capacity
    }

    // The four sets of a window, over actor names.

    ghost function Changed(n: nat, k: int): set<string> {
      set j: nat | j < n && Accepted(j, k) && steps[j].ev.Change? :: steps[j].ev.actor
    }

    ghost function Justified(n: nat, k: int): set<string> {
      set j: nat | j < n && Accepted(j, k) && steps[j].ev.Cause? :: steps[j].ev.actor
    }

    ghost function Derived(n: nat, k: int): set<string> {
      set j: nat | j < n && Accepted(j, k) && steps[j].ev.Cause? && On(c.derived, steps[j].ev.kind) :: steps[j].ev.actor
    }

    ghost function Rooted(n: nat, k: int): set<string> {
      set j: nat | j < n && Accepted(j, k) && steps[j].ev.Cause? && On(c.root, steps[j].ev.kind) :: steps[j].ev.actor
    }

    /** Exact sums of the accepted deltas and amounts of an actor. */
    ghost function DeltaSum(n: nat, k: int, a: string): int {
      if n == 0 then 0
      else DeltaSum(n - 1, k, a) +
           (if Accepted(n - 1, k) && steps[n - 1].ev.Change? && steps[n - 1].ev.actor == a
            then steps[n - 1].ev.delta else 0)
    }

    ghost function AmountSum(n: nat, k: int, a: string): int {
      if n == 0 then 0
      else AmountSum(n - 1, k, a) +
           (if Accepted(n - 1, k) && steps[n - 1].ev.Cause? && steps[n - 1].ev.actor == a
            then steps[n - 1].ev.amount else 0)
    }

    /** One line for each accepted event of an actor, in order. */
    ghost function AllLines(n: nat, k: int, a: string): seq<EvidenceLine> {
      if n == 0 then []
      else AllLines(n - 1, k, a) +
           (if Accepted(n - 1, k) && steps[n - 1].ev.actor == a then [LineOf(steps[n - 1].ev)] else [])
    }

    /** Actors whose observed and authorized sums differ, modulo 2^64. */
    ghost function MismatchedActors(n: nat, k: int): set<string> {
      set a | a in Changed(n, k) && Wrap64(AmountSum(n, k, a)) != Wrap64(DeltaSum(n, k, a))
    }

    /** Start of the window: that of the event that opened it. */
    ghost function OpenStart(n: nat, k: int): int {
      if n == 0 then 0
      else if Opened(n - 1, k) then OpenStart(n - 1, k)
      else if Admits(n - 1, k) then StartOf(c, steps[n - 1].ev)
      else 0
    }

    // Findings.

    /** The actors of a finding, in the order of their first appearance. */
    ghost function InOrder(n: nat, actors: set<string>): seq<string>
      requires n <= |steps|
    {
      Filter(Known(n), actors)
    }

    ghost function EvidenceOf(n: nat, k: int): string -> seq<EvidenceLine> {
      a => First(AllLines(n, k, a), c.maxEvidence)
    }

    ghost function Finding(n: nat, k: int, kind: AlertKind, actors: set<string>): seq<Alert>
      requires n <= |steps|
    {
      if actors == {} then []
      else [Alert(kind, Ref(c, OpenStart(n, k)), InOrder(n, actors), LinesFor(InOrder(n, actors), EvidenceOf(n, k)))]
    }

    ghost function MismatchFinding(n: nat, k: int): seq<Alert>
      requires n <= |steps|
    {
      var actors := InOrder(n, MismatchedActors(n, k));
      if !c.checkAmounts || MismatchedActors(n, k) == {} then []
      else [Alert(AmountMismatch, Ref(c, OpenStart(n, k)), actors,
                  LinesFor(actors, EvidenceOf(n, k)) +
                  SumsFor(actors, a => Wrap64(DeltaSum(n, k, a)), a => Wrap64(AmountSum(n, k, a))))]
    }

    /** What closing window `k` at step `n` has to report. */
    ghost function WindowAlerts(n: nat, k: int): seq<Alert>
      requires n <= |steps|
    {
      Finding(n, k, UnauthorizedChange, Changed(n, k) - Justified(n, k)) +
      Finding(n, k, MissingChange, Justified(n, k) - Changed(n, k)) +
      Finding(n, k, ForgedCause, Derived(n, k) - Rooted(n, k)) +
      MismatchFinding(n, k)
    }

    /** What step `j` raises at ingest: at most one alert. */
    ghost function IngestAlerts(j: nat): seq<Alert>
      requires j < |steps|
    {
      if !steps[j].Observe? then []
      else
        var ev := steps[j].ev;
        var k := KeyOf(c, ev);
        if !Trusted(c, ev) then [UntrustedAlert(c, ev)]
        else if Closed(j, k) then [LateAlert(c, ev)]
        else if Accepted(j, k) then []
        else [CapacityAlert(c, OpenStart(j + 1, k), ev, IdOf(Known(j + 1), ev.actor))]
    }

    /** The ingest alerts raised since the last drain before step `n`. */
    ghost function Pending(n: nat): seq<Alert>
      requires n <= |steps|
    {
      if n == 0 then []
      else if steps[n - 1].Drain? then []
      else Pending(n - 1) + IngestAlerts(n - 1)
    }

    // The engine, run over the steps.

    function Run(n: nat): EngineState
      requires n <= |steps|
    {
      if n == 0 then EngineState(ids0, map[], {}, [])
      else
        var s := Run(n - 1);
        match steps[n - 1]
        case Observe(ev) => Engine.Observe(c, s, ev)
        case Detach(key) => Engine.Detach(s, key)
        case Drain => Engine.Drain(s)
    }
  }
}
