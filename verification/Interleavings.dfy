/** The closing threads on the in-place monitor: a detached window is an object some thread
    holds, and what the others do to the monitor in the meantime never writes it. */
module Interleavings {
  import opened Ints
  import opened Options
  import opened Sorting
  import opened IdMaps
  import opened Engine
  import opened Meaning
  import opened Monitors
  import opened Sequential
  import opened Runs
  import C = Closing

  /** A closing thread, with the window it has detached and not yet reported. */
  datatype Live =
    | Idle
    | Closing(todo: seq<int>, out: seq<Alert>)
    | Holding(w: Window, todo: seq<int>, out: seq<Alert>)

  ghost function HeldCells(th: Live): set<object> {
    if th.Holding? then th.w.Cells() else {}
  }

  ghost function ValueOf(th: Live): C.Thread
    reads HeldCells(th)
  {
    match th
    case Idle => C.Idle
    case Closing(todo, out) => C.Closing(todo, out)
    case Holding(w, todo, out) => C.Holding(w.State(), todo, out)
  }

  /** What the threads hold is out of reach of events: it shares nothing with an open window. */
  ghost predicate HeldApart(m: Monitor, ths: seq<Live>)
    reads m
  {
    forall i :: 0 <= i < |ths| && ths[i].Holding? ==>
                  ths[i].w.Shaped(m.c.capacity) && ths[i].w.Cells() !! CellsOf(m.windows)
  }

  /** Any further operations leave a detached window as it was when it was detached. */
  method HeldIsNeverWritten(m: Monitor, w: Window, ops: seq<Op>)
    requires m.Valid() && |m.ids.rev| + |ops| <= TWO_32 && w.Cells() !! CellsOf(m.windows)
    modifies m, m.ids, CellsOf(m.windows)
    ensures w.State() == old(w.State()) && w.Cells() !! CellsOf(m.windows)
  {
    hide Monitor.Valid, Monitor.State, CellsOf, Apply;
    for i := 0 to |ops|
      invariant m.Valid() && |m.ids.rev| <= old(|m.ids.rev|) + i
      invariant forall o :: o in CellsOf(m.windows) ==> o in old(CellsOf(m.windows)) || fresh(o)
      invariant unchanged(w) && unchanged(w.changed.words) && unchanged(w.justified.words)
      invariant unchanged(w.derived.words) && unchanged(w.rooted.words)
    {
      var _ := Perform(m, ops[i]);
    }
    StateKept(w);
  }

  /** Monitor and threads are the system `s` of values. */
  ghost predicate Represents(m: Monitor, ths: seq<Live>, s: C.System)
    reads m, m.ids, CellsOf(m.windows), set i, o | 0 <= i < |ths| && o in HeldCells(ths[i]) :: o
  {
    && m.State() == s.engine && |ths| == |s.threads|
    && forall i :: 0 <= i < |ths| ==> ValueOf(ths[i]) == s.threads[i]
  }

  twostate lemma ValueKept(th: Live)
    requires th.Holding? ==> unchanged(th.w)
    requires th.Holding? ==> unchanged(th.w.changed.words) && unchanged(th.w.justified.words)
    requires th.Holding? ==> unchanged(th.w.derived.words) && unchanged(th.w.rooted.words)
    ensures ValueOf(th) == old(ValueOf(th))
  {
    if th.Holding? {
      StateKept(th.w);
    }
  }

  method Arrive(m: Monitor, ths: seq<Live>, ev: Event, ghost s: C.System)
    requires m.Valid() && |m.ids.rev| < TWO_32 && HeldApart(m, ths) && Represents(m, ths, s)
    modifies m, m.ids, CellsOf(m.windows)
    ensures m.Valid() && HeldApart(m, ths) && Represents(m, ths, C.Next(m.c, s, C.Arrive(ev)))
    ensures forall o :: o in CellsOf(m.windows) ==> o in old(CellsOf(m.windows)) || fresh(o)
    ensures |m.ids.rev| <= old(|m.ids.rev|) + 1
  {
    hide Monitor.Valid, Monitor.State, CellsOf, Engine.Observe, Window.Shaped;
    var _ := Perform(m, Feed(ev));
    forall i | 0 <= i < |ths| ensures ValueOf(ths[i]) == s.threads[i] {
      ValueKept(ths[i]);
    }
  }

  method List(m: Monitor, ths: seq<Live>, tid: nat, op: Op, ghost s: C.System) returns (ths': seq<Live>)
    requires m.Valid() && HeldApart(m, ths) && Represents(m, ths, s)
    requires tid < |ths| && ths[tid].Idle? && !op.Feed?
    ensures m.Valid() && HeldApart(m, ths') && Represents(m, ths', C.Next(m.c, s, C.List(tid, op)))
  {
    hide Monitor.Valid, Monitor.State, CellsOf, Window.Shaped, Ascend, DueKeys;
    var starts := m.Starts(op.CloseDue?, if op.CloseDue? then op.now else 0);
    ths' := ths[tid := Closing(Ascend(starts), [])];
    forall i | 0 <= i < |ths| ensures ValueOf(ths[i]) == s.threads[i] {
      ValueKept(ths[i]);
    }
  }

  /** The locked step: the window leaves the monitor and stays with the thread. */
  method Take(m: Monitor, ths: seq<Live>, tid: nat, ghost s: C.System) returns (ths': seq<Live>)
    requires m.Valid() && HeldApart(m, ths) && Represents(m, ths, s)
    requires tid < |ths| && ths[tid].Closing? && ths[tid].todo != []
    modifies m`windows, m`closed
    ensures m.Valid() && HeldApart(m, ths') && Represents(m, ths', C.Next(m.c, s, C.Take(tid)))
    ensures CellsOf(m.windows) <= old(CellsOf(m.windows))
  {
    hide Monitor.Valid, Window.Shaped, Window.State;
    var th := ths[tid];
    var w := m.DetachWindow(th.todo[0]);
    ths' := ths[tid := if w == null then Closing(th.todo[1..], th.out) else Holding(w, th.todo[1..], th.out)];
    forall i | 0 <= i < |ths| ensures ValueOf(ths[i]) == s.threads[i] {
      ValueKept(ths[i]);
    }
  }

  /** The unlocked step; `None` is the panic. */
  method Report(m: Monitor, ths: seq<Live>, tid: nat, ghost s: C.System) returns (ths': Option<seq<Live>>)
    requires m.Valid() && HeldApart(m, ths) && Represents(m, ths, s)
    requires tid < |ths| && ths[tid].Holding?
    ensures m.Valid() && (ths'.None? <==> Render(m.c, s.engine.ids, s.threads[tid].w).None?)
    ensures ths'.Some? ==> HeldApart(m, ths'.value) && Represents(m, ths'.value, C.Next(m.c, s, C.Report(tid)))
    ensures ths'.None? ==> HeldApart(m, ths) && Represents(m, ths, s)
  {
    hide Monitor.Valid, Window.Shaped, Window.State, Render;
    var th := ths[tid];
    var r := m.Report(th.w);
    forall k | k in m.windows ensures m.windows[k].State() == old(m.windows[k].State()) {
      StateKept(m.windows[k]);
    }
    assert StatesOf(m.windows) == old(StatesOf(m.windows));
    ths' := if r.None? then None else Some(ths[tid := Closing(th.todo, th.out + r.value)]);
    forall i | 0 <= i < |ths| ensures ValueOf(ths[i]) == s.threads[i] {
      ValueKept(ths[i]);
    }
  }

  method Return(m: Monitor, ths: seq<Live>, tid: nat, ghost s: C.System) returns (ths': seq<Live>, out: seq<Alert>)
    requires m.Valid() && HeldApart(m, ths) && Represents(m, ths, s)
    requires tid < |ths| && ths[tid].Closing? && ths[tid].todo == []
    modifies m`pending
    ensures m.Valid() && HeldApart(m, ths') && Represents(m, ths', C.Next(m.c, s, C.Return(tid)))
    ensures C.Next(m.c, s, C.Return(tid)).returned == s.returned + out
  {
    hide Monitor.Valid, CellsOf, StatesOf, Window.Shaped;
    var raised := m.DrainPending();
    out := raised + ths[tid].out;
    ths' := ths[tid := Idle];
    forall i | 0 <= i < |ths| ensures ValueOf(ths[i]) == s.threads[i] {
      ValueKept(ths[i]);
    }
  }

  /** One action by whichever thread can take it; `None` is the panic of a report. */
  method Act(m: Monitor, ths: seq<Live>, a: C.Action, ghost s: C.System)
    returns (ths': Option<seq<Live>>, out: seq<Alert>)
    requires m.Valid() && |m.ids.rev| < TWO_32 && HeldApart(m, ths) && Represents(m, ths, s)
    modifies m, m.ids, CellsOf(m.windows)
    ensures m.Valid() && |m.ids.rev| <= old(|m.ids.rev|) + 1
    ensures forall o :: o in CellsOf(m.windows) ==> o in old(CellsOf(m.windows)) || fresh(o)
    ensures ths'.Some? ==> HeldApart(m, ths'.value) && Represents(m, ths'.value, C.Next(m.c, s, a))
    ensures ths'.Some? ==> C.Next(m.c, s, a).returned == s.returned + out
    ensures ths'.None? ==> HeldApart(m, ths) && Represents(m, ths, s)
    ensures ths'.None? ==>
              C.Enabled(s, a) && a.Report? && Render(m.c, s.engine.ids, s.threads[a.tid].w).None?
  {
    hide Monitor.Valid, Monitor.State, CellsOf, Window.Shaped, HeldApart, Render, Engine.Observe, Ascend, Targets;
    out := [];
    assert s.returned + [] == s.returned;
    assert forall i :: 0 <= i < |ths| ==> ValueOf(ths[i]) == s.threads[i];
    match a
    case Arrive(ev) =>
      Arrive(m, ths, ev, s);
      ths' := Some(ths);
    case List(tid, op) =>
      var now := ths;
      if tid < |ths| && ths[tid].Idle? && !op.Feed? {
        now := List(m, ths, tid, op, s);
      }
      ths' := Some(now);
    case Take(tid) =>
      var now := ths;
      if tid < |ths| && ths[tid].Closing? && ths[tid].todo != [] {
        now := Take(m, ths, tid, s);
      }
      ths' := Some(now);
    case Report(tid) =>
      ths' := Some(ths);
      if tid < |ths| && ths[tid].Holding? {
        ths' := Report(m, ths, tid, s);
      }
    case Return(tid) =>
      var now := ths;
      if tid < |ths| && ths[tid].Closing? && ths[tid].todo == [] {
        now, out := Return(m, ths, tid, s);
      }
      ths' := Some(now);
  }

  lemma StartOfSchedule(h: C.Schedule)
    ensures h.At(0).engine == EngineState(h.ids0, map[], {}, []) && h.At(0).returned == []
    ensures |h.At(0).threads| == h.threads && forall i :: 0 <= i < h.threads ==> h.At(0).threads[i] == C.Idle
  {}

  lemma Initially(m: Monitor, ths: seq<Live>, h: C.Schedule)
    requires m.State() == EngineState(h.ids0, map[], {}, [])
    requires |ths| == h.threads && forall i :: 0 <= i < |ths| ==> ths[i].Idle?
    ensures HeldApart(m, ths) && Represents(m, ths, h.At(0)) && h.At(0).returned == []
  {
    hide Monitor.State, C.Schedule.At;
    StartOfSchedule(h);
  }

  lemma HeldRenders(h: C.Schedule, i: nat, tid: nat)
    requires NoDuplicates(h.ids0) && NeverPanics(h.c) && i <= |h.actions|
    requires tid < |h.At(i).threads| && h.At(i).threads[tid].Holding?
    ensures Render(h.c, h.At(i).engine.ids, h.At(i).threads[tid].w).Some?
  {
    hide C.Schedule.At, C.InFlight, C.AllIngest, C.AllFindings, Within, Render, NeverPanics;
    C.EveryInterleavingAccounted(h, i);
  }

  /** A whole interleaving on a new monitor over bit vectors, windows held by threads as the
      objects they detached: monitor, threads and all that is returned are those of the schedule
      of values, of which `Closing` says what is returned. It ends early only in a panic. */
  method Interleave(config: Config, ids: IdMap, threads: nat, actions: seq<C.Action>)
    returns (m: Monitor, ths: seq<Live>, returned: seq<Alert>, done: nat)
    requires ids.Valid() && |ids.rev| + |actions| <= TWO_32
    modifies ids
    ensures done <= |actions| && m.Valid() && m.c == WithDefaults(config) && m.ids == ids
    ensures var h := C.Schedule(m.c, old(ids.rev), threads, actions);
            Represents(m, ths, h.At(done)) && returned == h.At(done).returned
    ensures HeldApart(m, ths)
    ensures NeverPanics(m.c) ==> done == |actions|
    ensures var t := C.Schedule(m.c, old(ids.rev), threads, actions).TraceOf();
            NeverPanics(m.c) ==>
              C.Accounted(t, |t.steps|, C.Schedule(m.c, old(ids.rev), threads, actions).At(done))
  {
    hide Monitor.Valid, Monitor.State, CellsOf, Represents, HeldApart, NeverPanics, C.Schedule.At, C.Next, Render,
         C.Accounted, C.Schedule.Log;
    ghost var ids0 := ids.rev;
    BijectionIsNoDuplicates(ids.fwd, ids0);
    m := new Monitor(config, ids);
    ths := seq(threads, _ => Idle);
    returned, done := [], 0;
    ghost var h := C.Schedule(m.c, ids0, threads, actions);
    Initially(m, ths, h);
    if NeverPanics(m.c) {
      C.EveryInterleavingAccounted(h, |actions|);
    }
    while done < |actions|
      invariant done <= |actions| && fresh(m) && m.ids == ids && m.Valid() && m.c == WithDefaults(config)
      invariant forall o :: o in CellsOf(m.windows) ==> fresh(o)
      invariant |ids.rev| <= |ids0| + done
      invariant HeldApart(m, ths) && Represents(m, ths, h.At(done)) && returned == h.At(done).returned
    {
      C.LogStep(h, done);
      var now, out := Act(m, ths, actions[done], h.At(done));
      if now.None? {
        if NeverPanics(m.c) {
          HeldRenders(h, done, actions[done].tid);
        }
        return;
      }
      ths, returned, done := now.value, returned + out, done + 1;
    }
  }
}
