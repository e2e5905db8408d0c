/** Closing under concurrency (internal/monitor/monitor.go): CloseDue and CloseAll release the
    lock between taking their list of windows, detaching each one, reporting it, and draining
    the pending alerts; events and other closing threads interleave at those points. */
module Closing {
  import opened Ints
  import opened Options
  import opened Sorting
  import opened IdMaps
  import opened Engine
  import opened Traces
  import opened Refinement
  import opened Sequential
  import opened Meaning

  /** A closing thread: the windows still to close and the alerts gathered, possibly with a
      detached window it has not reported yet. */
  datatype Thread =
    | Idle
    | Closing(todo: seq<int>, out: seq<Alert>)
    | Holding(w: WindowState, todo: seq<int>, out: seq<Alert>)

  datatype System = System(engine: EngineState, threads: seq<Thread>, returned: seq<Alert>)

  datatype Action =
    | Arrive(ev: Event)
    | List(tid: nat, op: Op)
    | Take(tid: nat)
    | Report(tid: nat)
    | Return(tid: nat)

  /** An action by a thread that cannot take it changes nothing. */
  predicate Enabled(s: System, a: Action) {
    a.Arrive? ||
    (a.tid < |s.threads| &&
     match a
     case Arrive(_) => true
     case List(tid, op) => s.threads[tid].Idle? && !op.Feed?
     case Take(tid) => s.threads[tid].Closing? && s.threads[tid].todo != []
     case Report(tid) => s.threads[tid].Holding?
     case Return(tid) => s.threads[tid].Closing? && s.threads[tid].todo == [])
  }

  function Next(c: ReadyConfig, s: System, a: Action): System {
    if !Enabled(s, a) then s
    else match a
      case Arrive(ev) => s.(engine := Engine.Observe(c, s.engine, ev))
      case List(tid, op) =>
        s.(threads := s.threads[tid := Closing(Ascend(Targets(c, s.engine, op)), [])])
      case Take(tid) =>
        var th := s.threads[tid];
        var k := th.todo[0];
        var th' := if k in s.engine.windows then Holding(s.engine.windows[k], th.todo[1..], th.out)
                   else Closing(th.todo[1..], th.out);
        s.(engine := Engine.Detach(s.engine, k), threads := s.threads[tid := th'])
      case Report(tid) =>
        var th := s.threads[tid];
        s.(threads := s.threads[tid := Closing(th.todo, th.out + Rendered(c, s.engine.ids, th.w))])
      case Return(tid) =>
        System(Engine.Drain(s.engine), s.threads[tid := Idle],
               s.returned + (s.engine.pending + s.threads[tid].out))
  }

  /** The report of a detached window; a configuration that never panics always has one. */
  function Rendered(c: Config, ids: seq<string>, w: WindowState): seq<Alert> {
    var r := Render(c, ids, w);
    if r.Some? then r.value else []
  }

  /** What an action does under the lock. */
  function StepsBy(s: System, a: Action): seq<Step> {
    if !Enabled(s, a) then []
    else match a
      case Arrive(ev) => [Step.Observe(ev)]
      case Take(tid) => [Step.Detach(s.threads[tid].todo[0])]
      case Return(_) => [Step.Drain]
      case _ => []
  }

  /** An interleaving: the monitor, the number of threads, and the actions in order. */
  datatype Schedule = Schedule(c: ReadyConfig, ids0: seq<string>, threads: nat, actions: seq<Action>) {
    function At(m: nat): System
      requires m <= |actions|
    {
      if m == 0 then System(EngineState(ids0, map[], {}, []), seq(threads, _ => Idle), [])
      else Next(c, At(m - 1), actions[m - 1])
    }

    function Log(m: nat): seq<Step>
      requires m <= |actions|
    {
      if m == 0 then [] else Log(m - 1) + StepsBy(At(m - 1), actions[m - 1])
    }

    ghost function TraceOf(): Trace {
      Trace(c, ids0, Log(|actions|))
    }
  }

  lemma {:induction false} LogGrows(h: Schedule, m: nat, n: nat)
    requires m <= n <= |h.actions|
    ensures h.Log(m) <= h.Log(n)
  {
    hide StepsBy, Schedule.At;
    if m < n {
      LogGrows(h, m, n - 1);
    }
  }

  // Findings and alerts of a trace, all together.

  /** Step `d` takes window `k` from the open ones. */
  ghost predicate Takes(t: Trace, d: nat, k: int) {
    d < |t.steps| && t.steps[d] == Step.Detach(k) && t.Opened(d, k) && !t.Closed(d, k)
  }

  ghost function AllIngest(t: Trace, n: nat): multiset<Alert>
    requires n <= |t.steps|
  {
    if n == 0 then multiset{} else AllIngest(t, n - 1) + multiset(t.IngestAlerts(n - 1))
  }

  ghost function AllFindings(t: Trace, n: nat): multiset<Alert>
    requires n <= |t.steps|
  {
    if n == 0 then multiset{}
    else AllFindings(t, n - 1) +
         (if t.steps[n - 1].Detach? && Takes(t, n - 1, t.steps[n - 1].key)
          then multiset(t.WindowAlerts(n - 1, t.steps[n - 1].key)) else multiset{})
  }

  // What the threads still have in hand.

  function InHand(c: Config, ids: seq<string>, th: Thread): multiset<Alert> {
    match th
    case Idle => multiset{}
    case Closing(_, out) => multiset(out)
    case Holding(w, _, out) => multiset(out) + multiset(Rendered(c, ids, w))
  }

  function InFlight(c: Config, ids: seq<string>, threads: seq<Thread>): multiset<Alert> {
    if threads == [] then multiset{}
    else InFlight(c, ids, threads[..|threads| - 1]) + InHand(c, ids, threads[|threads| - 1])
  }

  lemma {:induction false} InFlightUpdate(c: Config, ids: seq<string>, threads: seq<Thread>, i: nat, th: Thread)
    requires i < |threads|
    ensures InFlight(c, ids, threads[i := th]) + InHand(c, ids, threads[i]) ==
            InFlight(c, ids, threads) + InHand(c, ids, th)
  {
    hide InHand;
    var init := threads[..|threads| - 1];
    if i == |threads| - 1 {
      assert threads[i := th][..i] == init;
    } else {
      assert threads[i := th][..|threads| - 1] == init[i := th] && init[i] == threads[i];
      InFlightUpdate(c, ids, init, i, th);
      AddLast(InFlight(c, ids, init[i := th]), InHand(c, ids, threads[i]), InFlight(c, ids, init), InHand(c, ids, th),
              InHand(c, ids, threads[|threads| - 1]));
    }
  }

  lemma AddLast(x: multiset<Alert>, a: multiset<Alert>, y: multiset<Alert>, b: multiset<Alert>, last: multiset<Alert>)
    requires x + a == y + b
    ensures x + last + a == y + last + b
  {
    assert x + last + a == (x + a) + last;
    assert y + last + b == (y + b) + last;
  }

  lemma {:induction false} AllIdle(c: Config, ids: seq<string>, threads: seq<Thread>)
    requires forall i :: 0 <= i < |threads| ==> threads[i].Idle?
    ensures InFlight(c, ids, threads) == multiset{}
  {
    if threads != [] {
      AllIdle(c, ids, threads[..|threads| - 1]);
    }
  }

  // A detached window reads the same whatever is interned later.

  lemma {:induction false} NamesStable(ids: seq<string>, more: seq<string>, w: WindowState, q: seq<int>)
    requires ids <= more && forall i :: 0 <= i < |q| ==> 0 <= q[i] < |ids|
    ensures NamesOf(more, q) == NamesOf(ids, q) && LinesOf(more, w, q) == LinesOf(ids, w, q)
    ensures SumsOf(more, w, q) == SumsOf(ids, w, q)
  {
    if q != [] {
      NamesStable(ids, more, w, q[..|q| - 1]);
    }
  }

  lemma AlertStable(c: Config, ids: seq<string>, more: seq<string>, w: WindowState, kind: AlertKind, s: set<int>)
    requires ids <= more && forall id :: id in s ==> 0 <= id < |ids|
    ensures AlertFor(c, more, w, kind, s) == AlertFor(c, ids, w, kind, s)
    ensures SumsOf(more, w, Ascend(s)) == SumsOf(ids, w, Ascend(s))
  {
    AscendLists(s);
    var q := Ascend(s);
    forall i | 0 <= i < |q| ensures 0 <= q[i] < |ids| {
      assert q[i] in q;
    }
    NamesStable(ids, more, w, q);
  }

  lemma RenderedStable(c: Config, ids: seq<string>, more: seq<string>, w: WindowState)
    requires ids <= more && Within(ids, w)
    ensures Render(c, more, w) == Render(c, ids, w)
  {
    hide AlertFor, SumsOf, Ascend;
    AlertStable(c, ids, more, w, UnauthorizedChange, w.changed - w.justified);
    AlertStable(c, ids, more, w, MissingChange, w.justified - w.changed);
    AlertStable(c, ids, more, w, ForgedCause, w.derived - w.rooted);
    AlertStable(c, ids, more, w, AmountMismatch, Mismatched(w));
  }

  /** What the threads hold can be reported, and its ids have names. */
  ghost predicate HeldReportable(c: Config, ids: seq<string>, threads: seq<Thread>) {
    forall i :: 0 <= i < |threads| && threads[i].Holding? ==>
                  Within(ids, threads[i].w) && Render(c, ids, threads[i].w).Some?
  }

  lemma HeldStays(c: Config, ids: seq<string>, more: seq<string>, threads: seq<Thread>)
    requires ids <= more && HeldReportable(c, ids, threads)
    ensures HeldReportable(c, more, threads)
  {
    hide Within, Render;
    forall i | 0 <= i < |threads| && threads[i].Holding?
      ensures Within(more, threads[i].w) && Render(c, more, threads[i].w).Some?
    {
      RenderedStable(c, ids, more, threads[i].w);
      WithinMore(ids, more, threads[i].w);
    }
  }

  lemma {:induction false} InFlightStable(c: Config, ids: seq<string>, more: seq<string>, threads: seq<Thread>)
    requires ids <= more && HeldReportable(c, ids, threads)
    ensures InFlight(c, more, threads) == InFlight(c, ids, threads)
  {
    hide Render, Within;
    if threads != [] {
      var th := threads[|threads| - 1];
      InFlightStable(c, ids, more, threads[..|threads| - 1]);
      if th.Holding? {
        RenderedStable(c, ids, more, th.w);
      }
    }
  }

  // Every interleaving.

  /** The state after `m` actions against the trace of the whole schedule, `n` steps in. */
  ghost predicate Accounted(t: Trace, n: nat, s: System)
    requires n <= |t.steps|
  {
    && s.engine == t.Run(n)
    && HeldReportable(t.c, s.engine.ids, s.threads)
    && multiset(s.returned) + InFlight(t.c, s.engine.ids, s.threads) + multiset(s.engine.pending) ==
       AllIngest(t, n) + AllFindings(t, n)
  }

  lemma WindowsWithin(t: Trace, n: nat, k: int)
    requires NoDuplicates(t.ids0) && n <= |t.steps| && k in t.Run(n).windows
    ensures Within(t.Run(n).ids, t.Run(n).windows[k])
  {
    hide Trace.Run, Trace.Known, Trace.Opened, Trace.Closed, Trace.Changed, Trace.Justified, Trace.Derived,
         Trace.Rooted, EntriesMatch;
    RunRefines(t, n);
    assert KeyRefines(t, n, k, t.Run(n));
  }

  lemma ArriveAccounted(t: Trace, n: nat, s: System, ev: Event)
    requires NoDuplicates(t.ids0) && n < |t.steps| && Accounted(t, n, s) && t.steps[n] == Step.Observe(ev)
    ensures Accounted(t, n + 1, Next(t.c, s, Arrive(ev)))
  {
    hide InFlight, Within, Trace.IngestAlerts, Trace.Known, AllFindings, Engine.Observe;
    RunRefines(t, n);
    RunRefines(t, n + 1);
    KnownGrows(t, n, n + 1);
    var more := t.Run(n + 1).ids;
    InFlightStable(t.c, s.engine.ids, more, s.threads);
    HeldStays(t.c, s.engine.ids, more, s.threads);
    NoFinding(t, n);
    var s' := Next(t.c, s, Arrive(ev));
    assert AllIngest(t, n + 1) == AllIngest(t, n) + multiset(t.IngestAlerts(n));
    assert multiset(s'.engine.pending) == multiset(s.engine.pending) + multiset(t.IngestAlerts(n));
    Grow(multiset(s.returned), InFlight(t.c, s.engine.ids, s.threads), multiset(s.engine.pending),
         AllIngest(t, n), AllFindings(t, n), multiset(t.IngestAlerts(n)));
  }

  /** Both sides of the account grow by the same alerts. */
  lemma Grow(r: multiset<Alert>, f: multiset<Alert>, p: multiset<Alert>,
             i: multiset<Alert>, d: multiset<Alert>, g: multiset<Alert>)
    requires r + f + p == i + d
    ensures r + f + (p + g) == (i + g) + d && r + (f + g) + p == i + (d + g)
  {
    assert r + f + (p + g) == (r + f + p) + g && r + (f + g) + p == (r + f + p) + g;
    assert (i + g) + d == (i + d) + g && i + (d + g) == (i + d) + g;
  }

  lemma WithinMore(ids: seq<string>, more: seq<string>, w: WindowState)
    requires ids <= more && Within(ids, w)
    ensures Within(more, w)
  {}

  lemma NoFinding(t: Trace, n: nat)
    requires n < |t.steps|
    ensures !t.steps[n].Detach? ==> AllFindings(t, n + 1) == AllFindings(t, n)
    ensures !t.steps[n].Observe? ==> AllIngest(t, n + 1) == AllIngest(t, n)
  {}

  lemma ListAccounted(t: Trace, n: nat, s: System, tid: nat, op: Op)
    requires n <= |t.steps| && Accounted(t, n, s) && Enabled(s, List(tid, op))
    ensures Accounted(t, n, Next(t.c, s, List(tid, op)))
  {
    hide InFlight, Within, Ascend, Targets, AllIngest, AllFindings;
    var th := Closing(Ascend(Targets(t.c, s.engine, op)), []);
    InFlightUpdate(t.c, s.engine.ids, s.threads, tid, th);
    Cancel(InFlight(t.c, s.engine.ids, s.threads[tid := th]), InFlight(t.c, s.engine.ids, s.threads), multiset{});
  }

  lemma TakeAccounted(t: Trace, n: nat, s: System, tid: nat)
    requires NoDuplicates(t.ids0) && NeverPanics(t.c) && n < |t.steps| && Accounted(t, n, s) && Enabled(s, Take(tid))
    requires t.steps[n] == Step.Detach(s.threads[tid].todo[0])
    ensures Accounted(t, n + 1, Next(t.c, s, Take(tid)))
  {
    hide InFlight, Within, Trace.WindowAlerts, Trace.Opened, Trace.Closed, AllIngest, Render;
    var th := s.threads[tid];
    var k := th.todo[0];
    var s' := Next(t.c, s, Take(tid));
    RunRefines(t, n);
    KeyFacts(t, n, k, t.Run(n));
    InFlightUpdate(t.c, s.engine.ids, s.threads, tid, s'.threads[tid]);
    assert s'.threads == s.threads[tid := s'.threads[tid]];
    NoFinding(t, n);
    var before, after := InFlight(t.c, s.engine.ids, s.threads), InFlight(t.c, s.engine.ids, s'.threads);
    if k in s.engine.windows {
      DetachStep(t, n, k);
      WindowsWithin(t, n, k);
      assert Takes(t, n, k);
      var found := multiset(t.WindowAlerts(n, k));
      assert before + (multiset(th.out) + found) == before + found + multiset(th.out);
      Cancel(after, before + found, multiset(th.out));
      assert AllFindings(t, n + 1) == AllFindings(t, n) + found;
      Grow(multiset(s.returned), before, multiset(s.engine.pending), AllIngest(t, n), AllFindings(t, n), found);
    } else {
      assert !Takes(t, n, k);
      Cancel(after, before, multiset(th.out));
    }
  }

  lemma ReportAccounted(t: Trace, n: nat, s: System, tid: nat)
    requires n <= |t.steps| && Accounted(t, n, s) && Enabled(s, Report(tid))
    ensures Accounted(t, n, Next(t.c, s, Report(tid)))
  {
    hide InFlight, Within, Rendered, AllIngest, AllFindings;
    var s' := Next(t.c, s, Report(tid));
    InFlightUpdate(t.c, s.engine.ids, s.threads, tid, s'.threads[tid]);
    assert s'.threads == s.threads[tid := s'.threads[tid]];
    var th := s.threads[tid];
    assert multiset(th.out + Rendered(t.c, s.engine.ids, th.w)) == InHand(t.c, s.engine.ids, th);
    Cancel(InFlight(t.c, s.engine.ids, s'.threads), InFlight(t.c, s.engine.ids, s.threads),
           InHand(t.c, s.engine.ids, th));
  }

  lemma ReturnAccounted(t: Trace, n: nat, s: System, tid: nat)
    requires n < |t.steps| && Accounted(t, n, s) && Enabled(s, Return(tid)) && t.steps[n] == Step.Drain
    ensures Accounted(t, n + 1, Next(t.c, s, Return(tid)))
  {
    hide InFlight, Within, AllIngest, AllFindings;
    InFlightUpdate(t.c, s.engine.ids, s.threads, tid, Idle);
    NoFinding(t, n);
    var out, pending := s.threads[tid].out, s.engine.pending;
    var before := InFlight(t.c, s.engine.ids, s.threads);
    var after := InFlight(t.c, s.engine.ids, s.threads[tid := Idle]);
    assert after + multiset(out) == before by {
      Cancel(after + multiset(out), before, multiset{});
    }
    assert multiset(s.returned + (pending + out)) == multiset(s.returned) + multiset(pending) + multiset(out);
  }

  lemma Cancel(x: multiset<Alert>, y: multiset<Alert>, a: multiset<Alert>)
    requires x + a == y + a
    ensures x == y
  {
    forall e ensures x[e] == y[e] {
      assert (x + a)[e] == x[e] + a[e] && (y + a)[e] == y[e] + a[e];
    }
  }

  /** Over every interleaving of arriving events and closing threads: what has been returned,
      what the threads have in hand and what is pending are together exactly the ingest alerts
      of the events that arrived and the findings of the windows taken, each once; and the
      engine's state is the one of the log of locked steps. */
  lemma {:induction false} EveryInterleavingAccounted(h: Schedule, m: nat)
    requires NoDuplicates(h.ids0) && NeverPanics(h.c) && m <= |h.actions|
    ensures h.Log(m) <= h.TraceOf().steps && Accounted(h.TraceOf(), |h.Log(m)|, h.At(m))
  {
    hide Accounted, NeverPanics, Schedule.At, Schedule.Log;
    LogGrows(h, m, |h.actions|);
    if m == 0 {
      InitAccounted(h);
    } else {
      EveryInterleavingAccounted(h, m - 1);
      ActionAccounted(h, m);
    }
  }

  lemma InitAccounted(h: Schedule)
    ensures h.Log(0) == [] && Accounted(h.TraceOf(), 0, h.At(0))
  {
    AllIdle(h.c, h.ids0, h.At(0).threads);
  }

  lemma ActionAccounted(h: Schedule, m: nat)
    requires NoDuplicates(h.ids0) && NeverPanics(h.c) && 0 < m <= |h.actions|
    requires h.Log(m) <= h.TraceOf().steps
    requires h.Log(m - 1) <= h.TraceOf().steps && Accounted(h.TraceOf(), |h.Log(m - 1)|, h.At(m - 1))
    ensures Accounted(h.TraceOf(), |h.Log(m)|, h.At(m))
  {
    hide Accounted, NeverPanics, Next;
    var t, s, a := h.TraceOf(), h.At(m - 1), h.actions[m - 1];
    var n := |h.Log(m - 1)|;
    if Enabled(s, a) {
      assert StepsBy(s, a) != [] ==> t.steps[n] == StepsBy(s, a)[0] by {
        if StepsBy(s, a) != [] {
          assert h.Log(m)[n] == StepsBy(s, a)[0];
        }
      }
      match a
      case Arrive(ev) => ArriveAccounted(t, n, s, ev);
      case List(tid, op) => ListAccounted(t, n, s, tid, op);
      case Take(tid) => TakeAccounted(t, n, s, tid);
      case Report(tid) => ReportAccounted(t, n, s, tid);
      case Return(tid) => ReturnAccounted(t, n, s, tid);
    } else {
      DisabledStays(h.c, s, a);
    }
  }

  lemma DisabledStays(c: ReadyConfig, s: System, a: Action)
    requires !Enabled(s, a)
    ensures Next(c, s, a) == s
  {}

  /** When no thread is closing and nothing is pending, everything raised and found has been
      returned, once. */
  lemma QuiescentReturnsEverything(h: Schedule, m: nat)
    requires NoDuplicates(h.ids0) && NeverPanics(h.c) && m <= |h.actions|
    requires h.At(m).engine.pending == [] && forall i :: 0 <= i < |h.At(m).threads| ==> h.At(m).threads[i].Idle?
    ensures h.Log(m) <= h.TraceOf().steps
    ensures multiset(h.At(m).returned) == AllIngest(h.TraceOf(), |h.Log(m)|) + AllFindings(h.TraceOf(), |h.Log(m)|)
  {
    hide Schedule.At, Schedule.Log, AllIngest, AllFindings, InFlight;
    EveryInterleavingAccounted(h, m);
    AllIdle(h.c, h.At(m).engine.ids, h.At(m).threads);
  }

  lemma StepTakenOnce(t: Trace, d: nat, e: nat, k: int)
    requires Takes(t, d, k) && Takes(t, e, k)
    ensures d == e
  {}

  /** Action `m` detaches window `k`: a thread whose next window it is finds it open. */
  ghost predicate Detaching(h: Schedule, m: nat, k: int) {
    && m < |h.actions| && h.actions[m].Take? && Enabled(h.At(m), h.actions[m])
    && h.At(m).threads[h.actions[m].tid].todo[0] == k && k in h.At(m).engine.windows
  }

  lemma DetachingTakes(h: Schedule, m: nat, k: int)
    requires NoDuplicates(h.ids0) && NeverPanics(h.c) && Detaching(h, m, k)
    ensures Takes(h.TraceOf(), |h.Log(m)|, k) && |h.Log(m + 1)| == |h.Log(m)| + 1
  {
    hide Schedule.At, Schedule.Log, Trace.Opened, Trace.Closed, Trace.Run, InFlight, HeldReportable, AllIngest,
         AllFindings;
    var t, n := h.TraceOf(), |h.Log(m)|;
    EveryInterleavingAccounted(h, m);
    EveryInterleavingAccounted(h, m + 1);
    LogStep(h, m);
    assert h.Log(m + 1)[n] == Step.Detach(k);
    RunRefines(t, n);
    KeyFacts(t, n, k, t.Run(n));
  }

  lemma LogStep(h: Schedule, m: nat)
    requires m < |h.actions|
    ensures h.Log(m + 1) == h.Log(m) + StepsBy(h.At(m), h.actions[m])
    ensures h.At(m + 1) == Next(h.c, h.At(m), h.actions[m])
  {
    hide StepsBy, Next;
  }

  /** Over every interleaving no window is detached, hence reported, by two actions, whichever
      threads take them and however often the key is listed. */
  lemma TakenOnce(h: Schedule, m: nat, n: nat, k: int)
    requires NoDuplicates(h.ids0) && NeverPanics(h.c) && Detaching(h, m, k) && Detaching(h, n, k)
    ensures m == n
  {
    hide Schedule.At, Schedule.Log, Detaching, Takes;
    DetachingBounds(h, m, k);
    DetachingBounds(h, n, k);
    DetachingTakes(h, m, k);
    DetachingTakes(h, n, k);
    StepTakenOnce(h.TraceOf(), |h.Log(m)|, |h.Log(n)|, k);
    if m < n {
      LogGrows(h, m + 1, n);
    } else if n < m {
      LogGrows(h, n + 1, m);
    }
  }

  lemma DetachingBounds(h: Schedule, m: nat, k: int)
    requires Detaching(h, m, k)
    ensures m < |h.actions|
  {}

  // What a closing thread serves is the list it took.

  /** The last action before `m` by which thread `tid` took a list. */
  function ListedAt(h: Schedule, m: nat, tid: nat): (i: Option<nat>)
    requires m <= |h.actions|
    ensures i.Some? ==> i.value < m && h.actions[i.value].List? && !h.actions[i.value].op.Feed?
  {
    if m == 0 then None
    else
      var a := h.actions[m - 1];
      if a.List? && a.tid == tid && Enabled(h.At(m - 1), a) then Some(m - 1) else ListedAt(h, m - 1, tid)
  }

  function Todo(th: Thread): seq<int> {
    if th.Idle? then [] else th.todo
  }

  /** Window `k`, open in `e0`, is still the same open window in `e`, or closed for good. */
  ghost predicate Stands(e0: EngineState, e: EngineState, k: int) {
    && k in e0.windows
    && ((k in e.closed && k !in e.windows) ||
        (k !in e.closed && k in e.windows && e.windows[k].start == e0.windows[k].start))
  }

  lemma StandsNext(c: ReadyConfig, e0: EngineState, s: System, a: Action, k: int)
    requires Stands(e0, s.engine, k)
    ensures Stands(e0, Next(c, s, a).engine, k)
  {
    hide Engine.Observe, KeyOf, StartOf, Trusted, Ascend, Targets, Rendered;
    if a.Arrive? {
      ObserveEffect(c, s.engine, a.ev);
    }
  }

  /** A thread works off exactly the windows it listed: those still to do are among them, and
      the others are closed. A listed window that is open is the one that was listed. */
  lemma {:induction false} ListIsServed(h: Schedule, m: nat, tid: nat)
    requires NoDuplicates(h.ids0) && NeverPanics(h.c) && m <= |h.actions| && ListedAt(h, m, tid).Some?
    ensures var i := ListedAt(h, m, tid).value;
            && tid < |h.At(m).threads|
            && var listed := Targets(h.c, h.At(i).engine, h.actions[i].op);
               && (forall k :: k in Todo(h.At(m).threads[tid]) ==> k in listed)
               && (forall k :: k in listed ==> k in Todo(h.At(m).threads[tid]) || k in h.At(m).engine.closed)
               && (forall k :: k in listed ==> Stands(h.At(i).engine, h.At(m).engine, k))
  {
    hide Schedule.At, NeverPanics, Targets, Stands, Ascend, Engine.Observe, Rendered;
    var a, s := h.actions[m - 1], h.At(m - 1);
    LogStep(h, m - 1);
    if a.List? && a.tid == tid && Enabled(s, a) {
      var listed := Targets(h.c, s.engine, a.op);
      AscendLists(listed);
      forall k | k in listed ensures Stands(s.engine, h.At(m).engine, k) {
        ListedStands(h, m - 1, k);
      }
    } else {
      ListIsServed(h, m - 1, tid);
      var i := ListedAt(h, m - 1, tid).value;
      var listed := Targets(h.c, h.At(i).engine, h.actions[i].op);
      forall k | k in listed ensures Stands(h.At(i).engine, h.At(m).engine, k) {
        StandsNext(h.c, h.At(i).engine, s, a, k);
      }
      TodoNext(h.c, s, a, tid);
      var before := Todo(s.threads[tid]);
      forall k | k in listed ensures k in Todo(h.At(m).threads[tid]) || k in h.At(m).engine.closed {
        StandsMeans(h.At(i).engine, s.engine, k);
        assert k in before ==> k == before[0] || k in before[1..];
      }
    }
  }

  lemma StandsMeans(e0: EngineState, e: EngineState, k: int)
    requires Stands(e0, e, k)
    ensures k in e.windows || k in e.closed
  {}

  lemma ListedStands(h: Schedule, m: nat, k: int)
    requires NoDuplicates(h.ids0) && NeverPanics(h.c) && m < |h.actions| && h.actions[m].List?
    requires !h.actions[m].op.Feed? && k in Targets(h.c, h.At(m).engine, h.actions[m].op)
    ensures Stands(h.At(m).engine, h.At(m + 1).engine, k)
  {
    hide Schedule.At, Ascend;
    EveryInterleavingAccounted(h, m);
    OpenOrClosed(h.TraceOf(), |h.Log(m)|);
    LogStep(h, m);
  }

  /** Another action leaves the list of a thread as it is, or takes its first window off. */
  lemma TodoNext(c: ReadyConfig, s: System, a: Action, tid: nat)
    requires tid < |s.threads| && !(a.List? && a.tid == tid && Enabled(s, a))
    ensures var s' := Next(c, s, a);
            var before, after := Todo(s.threads[tid]), Todo(s'.threads[tid]);
            && |s'.threads| == |s.threads|
            && (forall k :: k in s.engine.closed ==> k in s'.engine.closed)
            && (after == before ||
                (before != [] && after == before[1..] &&
                 (before[0] in s.engine.windows ==> before[0] in s'.engine.closed) &&
                 (before[0] !in s.engine.windows ==> s'.engine == s.engine)))
  {
    hide Engine.Observe, KeyOf, StartOf, Trusted, Ascend, Targets, Rendered;
    if a.Arrive? {
      ObserveEffect(c, s.engine, a.ev);
    }
  }

  lemma {:induction false} BusyHasListed(h: Schedule, m: nat, tid: nat)
    requires m <= |h.actions| && tid < |h.At(m).threads| && !h.At(m).threads[tid].Idle?
    ensures ListedAt(h, m, tid).Some?
  {
    hide Engine.Observe, Ascend, Targets, Rendered;
    if m > 0 && ListedAt(h, m, tid).None? {
      var s := h.At(m - 1);
      assert !s.threads[tid].Idle?;
      BusyHasListed(h, m - 1, tid);
    }
  }

  /** Over every interleaving, a window detached by a CloseDue is due at the time it was given. */
  lemma TakenWhenDue(h: Schedule, m: nat, k: int)
    requires NoDuplicates(h.ids0) && NeverPanics(h.c) && Detaching(h, m, k)
    ensures ListedAt(h, m, h.actions[m].tid).Some?
    ensures var op := h.actions[ListedAt(h, m, h.actions[m].tid).value].op;
            op.CloseDue? ==> h.At(m).engine.windows[k].start + h.c.windowSize + h.c.grace <= op.now
  {
    hide Schedule.At, NeverPanics, ListedAt;
    BusyHasListed(h, m, h.actions[m].tid);
    ListIsServed(h, m, h.actions[m].tid);
    assert k in Todo(h.At(m).threads[h.actions[m].tid]);
  }

  /** Over every interleaving, when a closing operation returns, every window it listed, for a
      CloseDue every window that was open and due, is closed. */
  lemma ReturnsWhenServed(h: Schedule, m: nat, tid: nat)
    requires NoDuplicates(h.ids0) && NeverPanics(h.c) && m < |h.actions|
    requires h.actions[m] == Return(tid) && Enabled(h.At(m), h.actions[m])
    ensures ListedAt(h, m, tid).Some?
    ensures var i := ListedAt(h, m, tid).value;
            forall k :: k in Targets(h.c, h.At(i).engine, h.actions[i].op) ==> k in h.At(m).engine.closed
  {
    hide Schedule.At, NeverPanics, ListedAt, Targets;
    BusyHasListed(h, m, tid);
    ListIsServed(h, m, tid);
  }

  /** Open and closed keys stay apart. */
  lemma OpenOrClosed(t: Trace, n: nat)
    requires NoDuplicates(t.ids0) && n <= |t.steps|
    ensures t.Run(n).windows.Keys !! t.Run(n).closed
  {}

  /** Every event that has arrived is in exactly one place: it raised one ingest alert, or it
      is in its open window, or it is in its window as taken by the one later step that took it. */
  lemma EventInOnePlace(t: Trace, j: nat, n: nat)
    requires NoDuplicates(t.ids0) && j < n <= |t.steps| && t.steps[j].Observe?
    ensures var k := KeyOf(t.c, t.steps[j].ev);
            var raised := |t.IngestAlerts(j)| == 1;
            var open := t.Accepted(j, k) && k in t.Run(n).windows;
            var taken := t.Accepted(j, k) && exists d: nat :: j < d < n && Takes(t, d, k);
            && (raised || open || taken) && !(raised && open) && !(raised && taken) && !(open && taken)
            && |t.IngestAlerts(j)| <= 1
  {
    hide KeyOf, Trace.Known, Trace.OpenStart, Trace.Run, IdOf;
    var k := KeyOf(t.c, t.steps[j].ev);
    RunRefines(t, n);
    KeyFacts(t, n, k, t.Run(n));
    if t.Accepted(j, k) {
      NotAdmitted(t, j, k);
      assert t.Opened(n, k);
      if t.Closed(n, k) {
        TakenBetween(t, j, n, k);
      }
    }
  }

  lemma {:induction false} TakenBetween(t: Trace, j: nat, n: nat, k: int)
    requires j < n <= |t.steps| && t.Reaches(j, k) && t.Closed(n, k)
    ensures exists d: nat :: j < d < n && Takes(t, d, k)
  {
    hide KeyOf;
    ClosedStep(t, n - 1, k);
    if t.Closed(n - 1, k) {
      assert n - 1 != j;
      TakenBetween(t, j, n - 1, k);
    } else {
      assert Takes(t, n - 1, k);
      assert n - 1 != j;
    }
  }
}
