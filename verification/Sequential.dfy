/** Runs of one thread: events, CloseDue and CloseAll in sequence. */
module Sequential {
  import opened Ints
  import opened Options
  import opened Sorting
  import opened Times
  import opened IdMaps
  import opened Engine
  import opened Traces
  import opened Refinement
  import opened Meaning

  datatype Op = Feed(ev: Event) | CloseDue(now: int) | CloseAll

  /** The keys a closing operation closes in state `s`. */
  function Targets(c: Config, s: EngineState, op: Op): set<int> {
    match op
    case Feed(_) => {}
    case CloseDue(now) => DueKeys(c, s, now)
    case CloseAll => s.windows.Keys
  }

  /** State after an operation, and the alerts it returns. */
  function Apply(c: ReadyConfig, s: EngineState, op: Op): (EngineState, Option<seq<Alert>>) {
    if op.Feed? then (Engine.Observe(c, s, op.ev), Some([])) else Close(c, s, Targets(c, s, op))
  }

  function RunOps(c: ReadyConfig, ids0: seq<string>, ops: seq<Op>): EngineState {
    if ops == [] then EngineState(ids0, map[], {}, [])
    else Apply(c, RunOps(c, ids0, ops[..|ops| - 1]), ops[|ops| - 1]).0
  }

  /** Configurations whose conservation finding can always be rendered. */
  predicate NeverPanics(c: Config) {
    c.maxEvidence > 0 || !c.checkAmounts
  }

  // The atomic steps an operation takes.

  function Detaches(keys: seq<int>): seq<Step> {
    seq(|keys|, i requires 0 <= i < |keys| => Step.Detach(keys[i]))
  }

  function StepsTaken(c: ReadyConfig, s: EngineState, op: Op): seq<Step> {
    if op.Feed? then [Step.Observe(op.ev)] else Detaches(Ascend(Targets(c, s, op))) + [Step.Drain]
  }

  function EngineSteps(c: ReadyConfig, ids0: seq<string>, ops: seq<Op>): seq<Step> {
    if ops == [] then []
    else
      var init := ops[..|ops| - 1];
      EngineSteps(c, ids0, init) + StepsTaken(c, RunOps(c, ids0, init), ops[|ops| - 1])
  }

  ghost function EngineTrace(c: ReadyConfig, ids0: seq<string>, ops: seq<Op>): Trace {
    Trace(c, ids0, EngineSteps(c, ids0, ops))
  }

  /** A run depends on the steps so far only. */
  lemma {:induction false} RunOfPrefix(t: Trace, more: seq<Step>, n: nat)
    requires n <= |t.steps|
    ensures t.(steps := t.steps + more).Run(n) == t.Run(n)
  {
    if n > 0 {
      RunOfPrefix(t, more, n - 1);
    }
  }

  /** What the trace has to say about each key at its own detaching step. */
  ghost function Reports(t: Trace, n: nat, keys: seq<int>): seq<Alert>
    requires n + |keys| <= |t.steps|
    decreases keys
  {
    if keys == [] then [] else t.WindowAlerts(n, keys[0]) + Reports(t, n + 1, keys[1..])
  }

  lemma DetachStep(t: Trace, n: nat, k: int)
    requires NoDuplicates(t.ids0) && n < |t.steps| && NeverPanics(t.c)
    requires t.steps[n] == Step.Detach(k) && k in t.Run(n).windows
    ensures t.Run(n + 1) == Engine.Detach(t.Run(n), k) && t.Run(n + 1).windows == t.Run(n).windows - {k}
    ensures Render(t.c, t.Run(n).ids, t.Run(n).windows[k]) == Some(t.WindowAlerts(n, k))
  {
    hide Trace.WindowAlerts, Render, Trace.Opened, Trace.Closed, Trace.Known;
    RunRefines(t, n);
    KeyFacts(t, n, k, t.Run(n));
    KnownGrows(t, n, n);
    DetachReportsTrace(t, n, k, t.Known(n));
  }

  lemma {:induction false} CloseKeysReports(t: Trace, n: nat, keys: seq<int>)
    requires NoDuplicates(t.ids0) && n + |keys| <= |t.steps| && NeverPanics(t.c)
    requires forall i :: 0 <= i < |keys| ==> t.steps[n + i] == Step.Detach(keys[i]) && keys[i] in t.Run(n).windows
    requires forall i, j :: 0 <= i < j < |keys| ==> keys[i] != keys[j]
    ensures CloseKeys(t.c, t.Run(n), keys) == (t.Run(n + |keys|), Some(Reports(t, n, keys)))
    decreases keys
  {
    hide Trace.WindowAlerts, Render, Trace.Run, Engine.Detach, NeverPanics;
    if keys != [] {
      var rest := keys[1..];
      assert t.steps[n + 0] == Step.Detach(keys[0]);
      DetachStep(t, n, keys[0]);
      forall i | 0 <= i < |rest|
        ensures t.steps[n + 1 + i] == Step.Detach(rest[i]) && rest[i] in t.Run(n + 1).windows
      {
        assert t.steps[n + (i + 1)] == Step.Detach(keys[i + 1]);
      }
      CloseKeysReports(t, n + 1, rest);
    }
  }

  lemma StepsAppend(c: ReadyConfig, ids0: seq<string>, ops: seq<Op>, op: Op)
    ensures EngineSteps(c, ids0, ops + [op]) == EngineSteps(c, ids0, ops) + StepsTaken(c, RunOps(c, ids0, ops), op)
    ensures RunOps(c, ids0, ops + [op]) == Apply(c, RunOps(c, ids0, ops), op).0
  {}

  lemma TargetsAreOpen(c: Config, s: EngineState, op: Op)
    ensures var keys := Ascend(Targets(c, s, op));
            && (forall i :: 0 <= i < |keys| ==> keys[i] in s.windows)
            && (forall i, j :: 0 <= i < j < |keys| ==> keys[i] < keys[j])
  {
    var targets := Targets(c, s, op);
    var keys := Ascend(targets);
    IntOrder();
    assert Lists(IntLess, keys, targets);
    forall i | 0 <= i < |keys| ensures keys[i] in s.windows {
      assert keys[i] in keys;
    }
    forall i, j | 0 <= i < j < |keys| ensures keys[i] < keys[j] {
      assert IntLess(keys[i], keys[j]);
    }
  }

  /** A closing operation from the state after `n` steps is its detaching steps and a drain. */
  lemma CloseReports(t: Trace, n: nat, op: Op)
    requires NoDuplicates(t.ids0) && NeverPanics(t.c) && n <= |t.steps| && !op.Feed?
    requires t.steps[n..] == StepsTaken(t.c, t.Run(n), op)
    ensures var keys := Ascend(Targets(t.c, t.Run(n), op));
            && n + |keys| + 1 == |t.steps|
            && Apply(t.c, t.Run(n), op) ==
               (t.Run(|t.steps|), Some(t.Pending(n + |keys|) + Reports(t, n, keys)))
  {
    hide Engine.Observe, Trace.Pending, Reports, CloseKeys, Targets, Ascend, Engine.Detach;
    var s := t.Run(n);
    var keys := Ascend(Targets(t.c, s, op));
    TargetsAreOpen(t.c, s, op);
    forall i | 0 <= i < |keys| ensures t.steps[n + i] == Step.Detach(keys[i]) {
      assert t.steps[n..][i] == t.steps[n + i];
    }
    assert t.steps[n..][|keys|] == Step.Drain;
    CloseKeysReports(t, n, keys);
    RunRefines(t, n + |keys|);
  }

  /** The operation at the end of `ops` does what its steps do, and a closing operation returns
      what was raised at ingest since the last drain, then the findings of its windows. */
  lemma OpReports(c: ReadyConfig, ids0: seq<string>, ops: seq<Op>, op: Op)
    requires NoDuplicates(ids0) && NeverPanics(c)
    requires EngineTrace(c, ids0, ops).Run(|EngineSteps(c, ids0, ops)|) == RunOps(c, ids0, ops)
    ensures var t := EngineTrace(c, ids0, ops + [op]);
            var n := |EngineSteps(c, ids0, ops)|;
            && n <= |t.steps| && t.steps[..n] == EngineSteps(c, ids0, ops)
            && t.Run(|t.steps|) == RunOps(c, ids0, ops + [op])
            && (!op.Feed? ==>
                  var keys := Ascend(Targets(c, RunOps(c, ids0, ops), op));
                  && n + |keys| + 1 == |t.steps|
                  && Apply(c, RunOps(c, ids0, ops), op).1 == Some(t.Pending(n + |keys|) + Reports(t, n, keys)))
  {
    hide Engine.Observe, Trace.Pending, Reports, EngineSteps, RunOps, Close, Targets, Ascend;
    StepsAppend(c, ids0, ops, op);
    var s := RunOps(c, ids0, ops);
    var t := EngineTrace(c, ids0, ops + [op]);
    var n := |EngineSteps(c, ids0, ops)|;
    assert t == EngineTrace(c, ids0, ops).(steps := EngineSteps(c, ids0, ops) + StepsTaken(c, s, op));
    RunOfPrefix(EngineTrace(c, ids0, ops), StepsTaken(c, s, op), n);
    assert t.steps[n..] == StepsTaken(c, s, op);
    if !op.Feed? {
      CloseReports(t, n, op);
    }
  }

  /** Every sequential run, of any length: the engine's state is the one its trace describes. */
  lemma {:induction false} RunOpsIsRun(c: ReadyConfig, ids0: seq<string>, ops: seq<Op>)
    requires NoDuplicates(ids0) && NeverPanics(c)
    ensures EngineTrace(c, ids0, ops).Run(|EngineSteps(c, ids0, ops)|) == RunOps(c, ids0, ops)
  {
    hide EngineSteps, RunOps, Trace.Run, Apply, Targets, Ascend, Trace.Pending, Reports, NeverPanics;
    if ops == [] {
      EmptyRun(c, ids0);
    } else {
      var init, op := ops[..|ops| - 1], ops[|ops| - 1];
      RunOpsIsRun(c, ids0, init);
      assert ops == init + [op];
      OpReports(c, ids0, init, op);
    }
  }

  lemma EmptyRun(c: ReadyConfig, ids0: seq<string>)
    ensures EngineSteps(c, ids0, []) == [] && EngineTrace(c, ids0, []).Run(0) == RunOps(c, ids0, [])
  {}

  /** A closing operation after `ops` returns the alerts raised at ingest since the last drain,
      then what the trace of the steps taken says of the windows the engine closes. Which windows
      those are is read off the operations further down. */
  lemma RunReportsSteps(c: ReadyConfig, ids0: seq<string>, ops: seq<Op>, op: Op)
    requires NoDuplicates(ids0) && NeverPanics(c) && !op.Feed?
    ensures var t := EngineTrace(c, ids0, ops + [op]);
            var n := |EngineSteps(c, ids0, ops)|;
            var keys := Ascend(Targets(c, RunOps(c, ids0, ops), op));
            && n + |keys| + 1 == |t.steps|
            && Apply(c, RunOps(c, ids0, ops), op).1 == Some(t.Pending(n + |keys|) + Reports(t, n, keys))
  {
    RunOpsIsRun(c, ids0, ops);
    OpReports(c, ids0, ops, op);
  }

  /** One change event with a delta is a mismatch of its actor. */
  lemma OneChange(t: Trace, k: int)
    requires t.ids0 == [] && |t.steps| >= 1 && t.steps[0].Observe? && t.steps[0].ev.Change?
    requires KeyOf(t.c, t.steps[0].ev) == k && t.steps[0].ev.delta == 1
    ensures t.Opened(1, k) && !t.Closed(1, k) && t.MismatchedActors(1, k) != {}
    ensures t.Run(1).windows.Keys == {k}
  {
    hide KeyOf, Absorb;
    var a := t.steps[0].ev.actor;
    assert t.Admits(0, k) && t.Known(0) == [] && t.Known(1) == [a] && IdOf(t.Known(1), a) == 0;
    assert t.Run(0).windows.Keys == {};
    assert t.Accepted(0, k);
    SetsStep(t, 0, k);
    assert t.DeltaSum(0, k, a) == 0 && t.AmountSum(0, k, a) == 0;
    assert t.DeltaSum(1, k, a) == 1 && t.AmountSum(1, k, a) == 0;
    assert a in t.MismatchedActors(1, k);
  }

  /** The configurations that never panic are all of them: any other one panics on one change
      event and a CloseAll. */
  lemma OtherwiseItPanics(c: ReadyConfig)
    requires !NeverPanics(c)
    ensures exists ev :: Apply(c, RunOps(c, [], [Feed(ev)]), CloseAll).1.None?
  {
    hide KeyOf, Engine.Observe, Render, Trace.Opened, Trace.Closed, Trace.MismatchedActors, Trace.WindowAlerts;
    var ev := Change("a", 0, 1, "");
    var k := KeyOf(c, ev);
    var t := Trace(c, [], [Step.Observe(ev)]);
    OneChange(t, k);
    DetachReportsTrace(t, 1, k, t.Known(1));
    RunRefines(t, 1);
    assert [Feed(ev)][..0] == [];
    assert t.Run(1) == RunOps(c, [], [Feed(ev)]);
    IntOrder();
    ListsUnique(IntLess, Ascend({k}), [k], {k});
  }

  // When windows close.

  /** Operation `j` is an event let through to window `k`. */
  ghost predicate Feeds(c: ReadyConfig, ops: seq<Op>, j: nat, k: int) {
    j < |ops| && ops[j].Feed? && Trusted(c, ops[j].ev) && KeyOf(c, ops[j].ev) == k
  }

  /** Start of window `k`: that of the first event let through to it before operation `n`. */
  function FirstStart(c: ReadyConfig, ops: seq<Op>, n: nat, k: int): Option<int>
    requires n <= |ops|
  {
    if n == 0 then None
    else if FirstStart(c, ops, n - 1, k).Some? then FirstStart(c, ops, n - 1, k)
    else if ops[n - 1].Feed? && Trusted(c, ops[n - 1].ev) && KeyOf(c, ops[n - 1].ev) == k
    then Some(StartOf(c, ops[n - 1].ev))
    else None
  }

  lemma {:induction false} FirstStartMeaning(c: ReadyConfig, ops: seq<Op>, n: nat, k: int)
    requires n <= |ops|
    ensures FirstStart(c, ops, n, k).Some? <==> exists j: nat :: j < n && Feeds(c, ops, j, k)
    ensures FirstStart(c, ops, n, k).Some? ==> Key(FirstStart(c, ops, n, k).value) == k
  {
    if n > 0 {
      FirstStartMeaning(c, ops, n - 1, k);
      assert Feeds(c, ops, n - 1, k) <==>
          ops[n - 1].Feed? && Trusted(c, ops[n - 1].ev) && KeyOf(c, ops[n - 1].ev) == k;
    }
  }

  /** Operation `i` finds window `k` opened before it, and closes it if it is still open. */
  ghost predicate Closes(c: ReadyConfig, ops: seq<Op>, i: nat, k: int)
    requires i < |ops|
  {
    var start := FirstStart(c, ops, i, k);
    start.Some? && (ops[i].CloseAll? || (ops[i].CloseDue? && start.value + c.windowSize + c.grace <= ops[i].now))
  }

  ghost predicate ClosedBefore(c: ReadyConfig, ops: seq<Op>, n: nat, k: int)
    requires n <= |ops|
  {
    exists i: nat :: i < n && Closes(c, ops, i, k)
  }

  ghost predicate Timed(c: ReadyConfig, ops: seq<Op>, n: nat, k: int, s: EngineState)
    requires n <= |ops|
  {
    && (k in s.closed <==> ClosedBefore(c, ops, n, k))
    && (k in s.windows <==> FirstStart(c, ops, n, k).Some? && !ClosedBefore(c, ops, n, k))
    && (k in s.windows ==> s.windows[k].start == FirstStart(c, ops, n, k).value)
  }

  lemma CloseEffect(c: ReadyConfig, s: EngineState, op: Op)
    requires !op.Feed? && Apply(c, s, op).1.Some?
    ensures var s' := Apply(c, s, op).0;
            var targets := Targets(c, s, op);
            && (forall k :: k in s'.closed <==> k in s.closed || k in targets)
            && (forall k :: k in s'.windows <==> k in s.windows && k !in targets)
            && (forall k :: k in s'.windows ==> s'.windows[k] == s.windows[k])
  {
    hide Close;
    CloseMeans(c, s, Targets(c, s, op));
  }

  lemma TurnedAway(c: ReadyConfig, s: EngineState, ev: Event)
    requires !Trusted(c, ev) || KeyOf(c, ev) in s.closed
    ensures Engine.Observe(c, s, ev).closed == s.closed && Engine.Observe(c, s, ev).windows == s.windows
  {}

  lemma LetIn(c: ReadyConfig, s: EngineState, ev: Event)
    requires Trusted(c, ev) && KeyOf(c, ev) !in s.closed
    ensures var s' := Engine.Observe(c, s, ev);
            var w := WindowOf(c, s, ev);
            && s'.closed == s.closed
            && exists w' :: s'.windows == s.windows[KeyOf(c, ev) := w'] && w'.start == w.start
  {}

  lemma ObserveEffect(c: ReadyConfig, s: EngineState, ev: Event)
    ensures var s' := Engine.Observe(c, s, ev);
            var key := KeyOf(c, ev);
            && s'.closed == s.closed
            && (if Trusted(c, ev) && key !in s.closed then
                  && s'.windows.Keys == s.windows.Keys + {key}
                  && s'.windows[key].start == (if key in s.windows then s.windows[key].start else StartOf(c, ev))
                  && forall k :: k in s.windows && k != key ==> s'.windows[k] == s.windows[k]
                else s'.windows == s.windows)
  {
    hide KeyOf, StartOf, Engine.Observe, Trusted;
    if Trusted(c, ev) && KeyOf(c, ev) !in s.closed {
      LetIn(c, s, ev);
    } else {
      TurnedAway(c, s, ev);
    }
  }

  lemma ClosedBeforeStep(c: ReadyConfig, ops: seq<Op>, n: nat, k: int)
    requires n < |ops|
    ensures ClosedBefore(c, ops, n + 1, k) <==> ClosedBefore(c, ops, n, k) || Closes(c, ops, n, k)
  {}

  lemma TimedStep(c: ReadyConfig, ops: seq<Op>, n: nat, k: int, s: EngineState)
    requires n < |ops| && Timed(c, ops, n, k, s) && Apply(c, s, ops[n]).1.Some?
    ensures Timed(c, ops, n + 1, k, Apply(c, s, ops[n]).0)
  {
    hide KeyOf, StartOf, Engine.Observe, Close, ClosedBefore;
    ClosedBeforeStep(c, ops, n, k);
    ClosedWasStarted(c, ops, n, k);
    if ops[n].Feed? {
      ObserveEffect(c, s, ops[n].ev);
    } else {
      CloseEffect(c, s, ops[n]);
    }
  }

  lemma {:induction false} ClosedWasStarted(c: ReadyConfig, ops: seq<Op>, n: nat, k: int)
    requires n <= |ops|
    ensures ClosedBefore(c, ops, n, k) ==> FirstStart(c, ops, n, k).Some?
  {
    hide KeyOf, StartOf;
    if n > 0 {
      ClosedWasStarted(c, ops, n - 1, k);
    }
  }

  /** After any sequential run a window is closed exactly when some operation before found it
      opened and, for CloseDue, due: its end plus the grace not after `now`. It is open exactly
      when it was opened and not closed; so a closed window never opens again. */
  lemma {:induction false} WindowsCloseWhenDue(c: ReadyConfig, ids0: seq<string>, ops: seq<Op>, n: nat, k: int)
    requires NoDuplicates(ids0) && NeverPanics(c) && n <= |ops|
    ensures Timed(c, ops, n, k, RunOps(c, ids0, ops[..n]))
  {
    hide Apply, Timed, KeyOf, NeverPanics;
    if n == 0 {
      InitTimed(c, ids0, ops, k);
    } else {
      WindowsCloseWhenDue(c, ids0, ops, n - 1, k);
      assert ops[..n] == ops[..n - 1] + [ops[n - 1]];
      StepsAppend(c, ids0, ops[..n - 1], ops[n - 1]);
      ApplySucceeds(c, ids0, ops[..n - 1], ops[n - 1]);
      TimedStep(c, ops, n - 1, k, RunOps(c, ids0, ops[..n - 1]));
    }
  }

  lemma InitTimed(c: ReadyConfig, ids0: seq<string>, ops: seq<Op>, k: int)
    ensures Timed(c, ops, 0, k, RunOps(c, ids0, ops[..0]))
  {}

  lemma ApplySucceeds(c: ReadyConfig, ids0: seq<string>, ops: seq<Op>, op: Op)
    requires NoDuplicates(ids0) && NeverPanics(c)
    ensures Apply(c, RunOps(c, ids0, ops), op).1.Some?
  {
    if !op.Feed? {
      hide RunOps, EngineSteps, Close, Trace.Pending, Reports, Ascend, Targets;
      RunReportsSteps(c, ids0, ops, op);
    }
  }

  /** An event let past the producer check is reported late exactly when its window was closed
      earlier in the run; that its grace period has passed is not enough. */
  lemma LateMeansClosed(c: ReadyConfig, ids0: seq<string>, ops: seq<Op>, n: nat)
    requires NoDuplicates(ids0) && NeverPanics(c) && n < |ops| && ops[n].Feed? && Trusted(c, ops[n].ev)
    ensures var s := RunOps(c, ids0, ops[..n]);
            Apply(c, s, ops[n]).0.pending == s.pending + [LateAlert(c, ops[n].ev)] <==>
            ClosedBefore(c, ops, n, KeyOf(c, ops[n].ev))
  {
    hide RunOps, ClosedBefore, Absorb, KeyOf;
    var ev := ops[n].ev;
    var s := RunOps(c, ids0, ops[..n]);
    WindowsCloseWhenDue(c, ids0, ops, n, KeyOf(c, ev));
    if KeyOf(c, ev) !in s.closed {
      ObserveInto(c, s, ev);
      var w := WindowOf(c, s, ev);
      var alert := CapacityAlert(c, w.start, ev, IdOf(WithKey(s.ids, ev.actor), ev.actor));
      assert alert != LateAlert(c, ev);
      assert (s.pending + [alert])[|s.pending|] == alert;
      assert (s.pending + [LateAlert(c, ev)])[|s.pending|] == LateAlert(c, ev);
    }
  }

  // The steps of a run, read off its operations.

  function KeysFed(c: ReadyConfig, ops: seq<Op>): set<int> {
    set j: nat | j < |ops| && ops[j].Feed? && Trusted(c, ops[j].ev) :: KeyOf(c, ops[j].ev)
  }

  /** The windows operation `i` closes: opened before it, not closed before it, and, for
      CloseDue, due. */
  ghost function ClosedBy(c: ReadyConfig, ops: seq<Op>, i: nat): set<int>
    requires i < |ops|
  {
    set k | k in KeysFed(c, ops) && Closes(c, ops, i, k) && !ClosedBefore(c, ops, i, k)
  }

  ghost function StepsOf(c: ReadyConfig, ops: seq<Op>, i: nat): seq<Step>
    requires i < |ops|
  {
    if ops[i].Feed? then [Step.Observe(ops[i].ev)] else Detaches(Ascend(ClosedBy(c, ops, i))) + [Step.Drain]
  }

  ghost function Steps(c: ReadyConfig, ops: seq<Op>): seq<Step> {
    if ops == [] then [] else Steps(c, ops[..|ops| - 1]) + StepsOf(c, ops, |ops| - 1)
  }

  ghost function TraceOf(c: ReadyConfig, ids0: seq<string>, ops: seq<Op>): Trace {
    Trace(c, ids0, Steps(c, ops))
  }

  /** `r` is what the trace of `ops` and then `op` has to say: the alerts raised at ingest since
      the last drain, then, in ascending order, the findings of the windows `op` closes. */
  ghost predicate ReturnsTrace(c: ReadyConfig, ids0: seq<string>, ops: seq<Op>, op: Op, r: Option<seq<Alert>>) {
    var t := TraceOf(c, ids0, ops + [op]);
    var n := |Steps(c, ops)|;
    var keys := Ascend(ClosedBy(c, ops + [op], |ops|));
    n + |keys| + 1 == |t.steps| && r == Some(t.Pending(n + |keys|) + Reports(t, n, keys))
  }

  lemma {:induction false} FirstStartWasFed(c: ReadyConfig, ops: seq<Op>, n: nat, k: int)
    requires n <= |ops| && FirstStart(c, ops, n, k).Some?
    ensures k in KeysFed(c, ops)
  {
    hide KeyOf, StartOf;
    if FirstStart(c, ops, n - 1, k).Some? {
      FirstStartWasFed(c, ops, n - 1, k);
    }
  }

  /** The windows the engine closes are the ones the operations say. */
  lemma TargetsAreClosedBy(c: ReadyConfig, ids0: seq<string>, ops: seq<Op>, op: Op)
    requires NoDuplicates(ids0) && NeverPanics(c) && !op.Feed?
    ensures Targets(c, RunOps(c, ids0, ops), op) == ClosedBy(c, ops + [op], |ops|)
  {
    hide RunOps, ClosedBefore, FirstStart, KeysFed, NeverPanics;
    var all, n := ops + [op], |ops|;
    assert all[..n] == ops;
    forall k ensures k in Targets(c, RunOps(c, ids0, ops), op) <==> k in ClosedBy(c, all, n) {
      WindowsCloseWhenDue(c, ids0, all, n, k);
      if FirstStart(c, all, n, k).Some? {
        FirstStartWasFed(c, all, n, k);
      }
    }
  }

  lemma {:induction false} StepsAreTaken(c: ReadyConfig, ids0: seq<string>, ops: seq<Op>)
    requires NoDuplicates(ids0) && NeverPanics(c)
    ensures Steps(c, ops) == EngineSteps(c, ids0, ops)
  {
    hide RunOps, ClosedBy, Targets, Ascend, NeverPanics;
    if ops != [] {
      var init, op := ops[..|ops| - 1], ops[|ops| - 1];
      assert ops == init + [op];
      StepsAreTaken(c, ids0, init);
      if !op.Feed? {
        TargetsAreClosedBy(c, ids0, init, op);
      }
    }
  }

  /** Every sequential run reports exactly what its trace means: a closing operation after `ops`
      returns the alerts raised at ingest since the last one, then, in ascending order of the
      windows it closes, their findings. Trace and windows come from the operations alone. */
  lemma SequentialRunReportsTrace(c: ReadyConfig, ids0: seq<string>, ops: seq<Op>, op: Op)
    requires NoDuplicates(ids0) && NeverPanics(c) && !op.Feed?
    ensures ReturnsTrace(c, ids0, ops, op, Apply(c, RunOps(c, ids0, ops), op).1)
    ensures Refines(TraceOf(c, ids0, ops + [op]), |Steps(c, ops + [op])|, RunOps(c, ids0, ops + [op]))
  {
    hide RunOps, Steps, EngineSteps, ClosedBy, Targets, Ascend, NeverPanics, Reports, Trace.Pending, Apply, Refines,
         Trace.Run;
    StepsAreTaken(c, ids0, ops);
    StepsAreTaken(c, ids0, ops + [op]);
    TargetsAreClosedBy(c, ids0, ops, op);
    RunReportsSteps(c, ids0, ops, op);
    RunOpsIsRun(c, ids0, ops + [op]);
    RunRefines(TraceOf(c, ids0, ops + [op]), |Steps(c, ops + [op])|);
  }
}
