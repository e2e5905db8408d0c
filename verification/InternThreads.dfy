/** `Intern` under concurrency (internal/idmap/idmap.go): the read check and the write
    section are separate steps, and between them other threads may intern the same key. */
module InternThreads {
  import opened Ints
  import opened IdMaps

  /** What a thread is doing: nothing, or about to enter the write section after a miss. */
  datatype Thread = Idle | Missed(key: string)

  /** The shared map, the threads, and every (key, id) pair a call has returned so far. */
  datatype State = State(fwd: map<string, U32>, rev: seq<string>, threads: seq<Thread>,
                         returned: seq<(string, U32)>)

  datatype Step =
    | ReadCheck(tid: nat, key: string)
    | WriteSection(tid: nat)

  function Next(s: State, step: Step): State {
    match step
    case ReadCheck(tid, key) =>
      if tid >= |s.threads| || !s.threads[tid].Idle? then s
      else if key in s.fwd then s.(returned := s.returned + [(key, s.fwd[key])])
      else s.(threads := s.threads[tid := Missed(key)])
    case WriteSection(tid) =>
      if tid >= |s.threads| || !s.threads[tid].Missed? then s
      else
        var key := s.threads[tid].key;
        var (fwd, rev, id) := Interned(s.fwd, s.rev, key);
        State(fwd, rev, s.threads[tid := Idle], s.returned + [(key, id)])
  }

  function Run(s: State, steps: seq<Step>): State {
    if steps == [] then s else Next(Run(s, steps[..|steps| - 1]), steps[|steps| - 1])
  }

  ghost predicate Consistent(s: State) {
    && Bijection(s.fwd, s.rev)
    && forall r :: r in s.returned ==> r.0 in s.fwd && s.fwd[r.0] == r.1
  }

  lemma NextKeepsConsistent(s: State, step: Step)
    requires Consistent(s) && |Next(s, step).rev| <= TWO_32
    ensures Consistent(Next(s, step))
    ensures s.rev <= Next(s, step).rev
    ensures s.returned <= Next(s, step).returned
  {
    if step.WriteSection? && step.tid < |s.threads| && s.threads[step.tid].Missed? {
      var key := s.threads[step.tid].key;
      if key !in s.fwd {
        AppendKeepsBijection(s.fwd, s.rev, key);
      }
    }
  }

  lemma NextGrows(s: State, step: Step)
    ensures s.rev <= Next(s, step).rev
  {}

  /** Every interleaving that assigns at most 2^32 ids keeps the two directions inverse,
      only extends the assignment, and agrees with everything returned before. */
  lemma {:induction false} EveryInterleaving(s: State, steps: seq<Step>)
    requires Consistent(s) && |Run(s, steps).rev| <= TWO_32
    ensures Consistent(Run(s, steps))
    ensures s.rev <= Run(s, steps).rev
    ensures s.returned <= Run(s, steps).returned
  {
    if steps != [] {
      var before := Run(s, steps[..|steps| - 1]);
      NextGrows(before, steps[|steps| - 1]);
      EveryInterleaving(s, steps[..|steps| - 1]);
      NextKeepsConsistent(before, steps[|steps| - 1]);
    }
  }

  /** A call with no other in between does what `IdMap.Intern` promises. */
  lemma CallAlone(s: State, tid: nat, key: string)
    requires tid < |s.threads| && s.threads[tid].Idle?
    ensures var (fwd, rev, id) := Interned(s.fwd, s.rev, key);
            Run(s, [ReadCheck(tid, key), WriteSection(tid)]) == State(fwd, rev, s.threads, s.returned + [(key, id)])
  {
    var steps := [ReadCheck(tid, key), WriteSection(tid)];
    assert steps[..1] == [ReadCheck(tid, key)] && steps[..1][..0] == [];
    assert Run(s, steps[..1]) == Next(s, ReadCheck(tid, key));
    assert s.threads[tid := Missed(key)][tid := Idle] == s.threads;
  }

  /** Two calls, by any threads at any times, return the same id exactly when they were
      given the same key. */
  lemma SameKeySameId(s: State, steps: seq<Step>, i: nat, j: nat)
    requires Consistent(s) && |Run(s, steps).rev| <= TWO_32
    requires i < |Run(s, steps).returned| && j < |Run(s, steps).returned|
    ensures Run(s, steps).returned[i].0 == Run(s, steps).returned[j].0 <==>
            Run(s, steps).returned[i].1 == Run(s, steps).returned[j].1
  {
    EveryInterleaving(s, steps);
    var r := Run(s, steps);
    assert r.returned[i] in r.returned && r.returned[j] in r.returned;
  }
}
