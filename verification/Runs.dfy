/** The in-place monitor, run from its constructor: bit vectors, id map and windows together
    return what the trace means. */
module Runs {
  import opened Ints
  import opened Options
  import opened Sorting
  import opened IdMaps
  import opened Engine
  import opened Monitors
  import opened Sequential

  lemma OneMoreId(c: ReadyConfig, s: EngineState, op: Op)
    ensures |Apply(c, s, op).0.ids| <= |s.ids| + 1
  {
    hide KeyOf, StartOf, Absorb, Trusted, Ascend, Targets, CloseKeys;
    if !op.Feed? {
      ClosingKeepsIds(c, s, Ascend(Targets(c, s, op)));
    }
  }

  lemma {:induction false} ClosingKeepsIds(c: Config, s: EngineState, keys: seq<int>)
    ensures CloseKeys(c, s, keys).0.ids == s.ids
    decreases keys
  {
    hide Render;
    if keys != [] {
      ClosingKeepsIds(c, Engine.Detach(s, keys[0]), keys[1..]);
    }
  }

  method Perform(m: Monitor, op: Op) returns (r: Option<seq<Alert>>)
    requires m.Valid() && |m.ids.rev| < TWO_32
    modifies m, m.ids, CellsOf(m.windows)
    ensures m.Valid() && forall o :: o in CellsOf(m.windows) ==> o in old(CellsOf(m.windows)) || fresh(o)
    ensures (m.State(), r) == Apply(m.c, old(m.State()), op)
    ensures |m.ids.rev| <= old(|m.ids.rev|) + 1
  {
    hide Monitor.Valid, CellsOf, Engine.Observe, Close, DueKeys;
    OneMoreId(m.c, m.State(), op);
    match op
    case Feed(ev) =>
      if ev.Change? {
        m.ObserveChange(ev);
      } else {
        m.ObserveCause(ev);
      }
      r := Some([]);
    case CloseDue(now) =>
      r := m.CloseDue(now);
    case CloseAll =>
      r := m.CloseAll();
  }

  /** `out` is what the operations so far return; where nothing panics, what the trace says. */
  ghost predicate Played(c: ReadyConfig, ids0: seq<string>, ops: seq<Op>, out: seq<Option<seq<Alert>>>) {
    && |out| <= |ops|
    && (forall i :: 0 <= i < |out| ==> out[i] == Apply(c, RunOps(c, ids0, ops[..i]), ops[i]).1)
    && (NeverPanics(c) ==>
          forall i :: 0 <= i < |out| && !ops[i].Feed? ==> ReturnsTrace(c, ids0, ops[..i], ops[i], out[i]))
  }

  lemma PlayNext(c: ReadyConfig, ids0: seq<string>, ops: seq<Op>, out: seq<Option<seq<Alert>>>,
                 s: EngineState, r: Option<seq<Alert>>)
    requires NoDuplicates(ids0) && Played(c, ids0, ops, out) && |out| < |ops|
    requires (s, r) == Apply(c, RunOps(c, ids0, ops[..|out|]), ops[|out|])
    ensures Played(c, ids0, ops, out + [r]) && s == RunOps(c, ids0, ops[..|out| + 1])
    ensures NeverPanics(c) ==> r.Some?
  {
    hide Apply, RunOps, ReturnsTrace, NeverPanics, EngineSteps, StepsTaken;
    var n := |out|;
    assert ops[..n + 1] == ops[..n] + [ops[n]];
    StepsAppend(c, ids0, ops[..n], ops[n]);
    if NeverPanics(c) {
      ReturnsAlways(c, ids0, ops[..n], ops[n]);
    }
  }

  lemma ReturnsAlways(c: ReadyConfig, ids0: seq<string>, ops: seq<Op>, op: Op)
    requires NoDuplicates(ids0) && NeverPanics(c)
    ensures Apply(c, RunOps(c, ids0, ops), op).1.Some?
    ensures !op.Feed? ==> ReturnsTrace(c, ids0, ops, op, Apply(c, RunOps(c, ids0, ops), op).1)
  {
    hide Apply, RunOps, ReturnsTrace, NeverPanics, Steps, TraceOf;
    ApplySucceeds(c, ids0, ops, op);
    if !op.Feed? {
      SequentialRunReportsTrace(c, ids0, ops, op);
    }
  }

  /** A whole run of a new monitor over any identity map, empty or loaded. It ends early only in
      a panic, which a configuration that never panics rules out; then every closing operation
      returns what the trace says. */
  method Play(config: Config, ids: IdMap, ops: seq<Op>) returns (m: Monitor, out: seq<Option<seq<Alert>>>)
    requires ids.Valid() && |ids.rev| + |ops| <= TWO_32
    modifies ids
    ensures m.Valid() && m.c == WithDefaults(config) && m.ids == ids && Played(m.c, old(ids.rev), ops, out)
    ensures m.State() == RunOps(m.c, old(ids.rev), ops[..|out|])
    ensures |out| < |ops| ==> out != [] && out[|out| - 1].None?
    ensures NeverPanics(m.c) ==> |out| == |ops|
  {
    hide Monitor.Valid, CellsOf, Apply, RunOps, Played, NeverPanics;
    ghost var ids0 := ids.rev;
    BijectionIsNoDuplicates(ids.fwd, ids0);
    m := new Monitor(config, ids);
    out := [];
    RunsNone(m.c, ids0, ops);
    while |out| < |ops|
      invariant |out| <= |ops| && fresh(m) && m.ids == ids
      invariant forall o :: o in CellsOf(m.windows) ==> fresh(o)
      invariant m.Valid() && m.c == WithDefaults(config) && |ids.rev| <= |ids0| + |out|
      invariant m.State() == RunOps(m.c, ids0, ops[..|out|]) && Played(m.c, ids0, ops, out)
    {
      var r := Perform(m, ops[|out|]);
      PlayNext(m.c, ids0, ops, out, m.State(), r);
      out := out + [r];
      if r.None? {
        return;
      }
    }
  }

  lemma RunsNone(c: ReadyConfig, ids0: seq<string>, ops: seq<Op>)
    ensures RunOps(c, ids0, ops[..0]) == EngineState(ids0, map[], {}, []) && Played(c, ids0, ops, [])
  {}
}
