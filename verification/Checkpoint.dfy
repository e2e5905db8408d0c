/** The settlement checkpoint and the audit of its failures (internal/checkpoint/checkpoint.go). */
module Checkpoint {
  import opened Ints
  import opened Options
  import opened Sorting
  import opened Times
  import opened Ledger

  datatype Settlement = Settlement(id: string, ts: int, legs: seq<Leg>)

  datatype Failure = Failure(settlement: string, ts: int, actor: string, reason: Reason)

  datatype RiskAlert = RiskAlert(actor: string, windowStart: int, failures: nat, counterparties: seq<string>)

  /** Failures by window key and by the actor charged. */
  type FailureLog = map<int, map<string, seq<Failure>>>

  function Charged(log: FailureLog, key: int, actor: string): seq<Failure> {
    if key in log && actor in log[key] then log[key][actor] else []
  }

  function Record(log: FailureLog, key: int, f: Failure): FailureLog {
    var byActor := if key in log then log[key] else map[];
    log[key := byActor[f.actor := Charged(log, key, f.actor) + [f]]]
  }

  /** A recorded failure is appended to one actor's list in one window and changes no other. */
  lemma RecordAddsOne(log: FailureLog, key: int, f: Failure, key': int, actor': string)
    ensures Charged(Record(log, key, f), key', actor') ==
            Charged(log, key', actor') + (if key' == key && actor' == f.actor then [f] else [])
  {}

  function FailureTime(s: Settlement, now: int): int {
    if s.ts == ZERO_TIME then now else s.ts
  }

  /** The counterparties of `actor`. */
  function Others(legs: seq<Leg>, actor: string): set<string> {
    if legs == [] then {}
    else Others(legs[..|legs| - 1], actor) + ({legs[|legs| - 1].from, legs[|legs| - 1].to} - {actor})
  }

  lemma {:induction false} OthersAreTheOtherParties(legs: seq<Leg>, actor: string)
    ensures forall a :: a in Others(legs, actor) <==> a != actor && IsParty(legs, a)
  {
    if legs != [] {
      var init, last := legs[..|legs| - 1], legs[|legs| - 1];
      OthersAreTheOtherParties(init, actor);
      assert legs == init + [last];
      assert forall leg :: leg in legs <==> leg in init || leg == last;
    }
  }

  ghost predicate Burst(log: FailureLog, threshold: nat, actor: string) {
    exists key :: |Charged(log, key, actor)| >= threshold
  }

  /** The gate and the failure history agree: exactly the actors with a burst in some window
      are flagged, and a flag carries the current count of its own window. */
  ghost predicate GateMatches(log: FailureLog, flagged: map<string, RiskAlert>, threshold: nat) {
    && (forall a :: a in flagged <==> Burst(log, threshold, a))
    && (forall a :: a in flagged ==>
          && flagged[a].actor == a
          && flagged[a].failures == |Charged(log, Key(flagged[a].windowStart), a)|
          && flagged[a].failures >= threshold)
  }

  function Flag(log: FailureLog, flagged: map<string, RiskAlert>, threshold: nat,
                start: int, actor: string, legs: seq<Leg>): map<string, RiskAlert> {
    var n := |Charged(log, Key(start), actor)|;
    if n < threshold then flagged else
      StringOrder();
      flagged[actor := RiskAlert(actor, start, n, Sorted(StringLess, Others(legs, actor)))]
  }

  lemma FlagKeepsGate(log: FailureLog, flagged: map<string, RiskAlert>, threshold: nat,
                      start: int, f: Failure, legs: seq<Leg>)
    requires threshold > 0 && GateMatches(log, flagged, threshold)
    ensures var log' := Record(log, Key(start), f);
            GateMatches(log', Flag(log', flagged, threshold, start, f.actor, legs), threshold)
  {
    var log' := Record(log, Key(start), f);
    var flagged' := Flag(log', flagged, threshold, start, f.actor, legs);
    hide Record, Charged;
    forall k, a
      ensures Charged(log', k, a) ==
              Charged(log, k, a) + (if k == Key(start) && a == f.actor then [f] else [])
    {
      RecordAddsOne(log, Key(start), f, k, a);
    }
    forall a ensures a in flagged' <==> Burst(log', threshold, a) {
      if Burst(log', threshold, a) {
        var k :| |Charged(log', k, a)| >= threshold;
        if k != Key(start) || a != f.actor {
          assert |Charged(log, k, a)| >= threshold;
        }
      }
      if Burst(log, threshold, a) {
        var k :| |Charged(log, k, a)| >= threshold;
        assert |Charged(log', k, a)| >= threshold;
      }
    }
  }

  lemma AppliedElsewhere(accounts: Accounts, legs: seq<Leg>)
    ensures forall a :: AccountOf(Applied(accounts, legs), a) ==
              if a in Net(legs) then
                AccountOf(accounts, a).(balance := Wrap64(AccountOf(accounts, a).balance + Entry(Net(legs), a)))
              else AccountOf(accounts, a)
  {
    hide Wrap64;
    forall a ensures Wrap64(AccountOf(accounts, a).balance + 0) == AccountOf(accounts, a).balance {
      WrapExact(AccountOf(accounts, a).balance);
    }
    WrapExact(0);
  }

  /** `log'` and `flagged'` are the history and the gate after a rejection charged as `blame`. */
  ghost predicate RejectionRecorded(log: FailureLog, flagged: map<string, RiskAlert>,
                                    log': FailureLog, flagged': map<string, RiskAlert>,
                                    size: int, threshold: nat, s: Settlement, now: int, blame: Blame)
    requires size > 0
  {
    var ts := FailureTime(s, now);
    var start := WindowStart(ts, size);
    && log' == Record(log, Key(start), Failure(s.id, ts, blame.actor, blame.reason))
    && flagged' == Flag(log', flagged, threshold, start, blame.actor, s.legs)
  }

  /** Failure `f` of a settlement with `legs` is charged in the window from `start` on, and
      nowhere else; a count that reaches the threshold flags the actor with this window. */
  ghost predicate RejectedIn(log: FailureLog, flagged: map<string, RiskAlert>,
                             log': FailureLog, flagged': map<string, RiskAlert>,
                             threshold: nat, start: int, f: Failure, legs: seq<Leg>)
  {
    && (forall k, a :: Charged(log', k, a) ==
                       Charged(log, k, a) + (if k == Wrap64(start) && a == f.actor then [f] else []))
    && (forall a :: a != f.actor ==>
          (a in flagged' <==> a in flagged) && (a in flagged ==> flagged'[a] == flagged[a]))
    && (var n := |Charged(log', Wrap64(start), f.actor)|;
        if n < threshold then flagged' == flagged
        else
          && f.actor in flagged' && flagged'[f.actor].actor == f.actor
          && flagged'[f.actor].windowStart == start && flagged'[f.actor].failures == n
          && Ascending(StringLess, flagged'[f.actor].counterparties)
          && forall b :: b in flagged'[f.actor].counterparties <==> b != f.actor && IsParty(legs, b))
  }

  /** A rejection is charged in the window that contains the settlement's time, or the clock's
      if the settlement has none. */
  lemma RejectionMeans(log: FailureLog, flagged: map<string, RiskAlert>,
                       log': FailureLog, flagged': map<string, RiskAlert>,
                       size: int, threshold: nat, s: Settlement, now: int, blame: Blame, start: int)
    requires size > 0 && RejectionRecorded(log, flagged, log', flagged', size, threshold, s, now, blame)
    requires start <= (if s.ts == ZERO_TIME then now else s.ts) < start + size && (start - ZERO_TIME) % size == 0
    ensures RejectedIn(log, flagged, log', flagged', threshold, start,
                       Failure(s.id, if s.ts == ZERO_TIME then now else s.ts, blame.actor, blame.reason), s.legs)
  {
    hide Record, Charged, WindowStart, Wrap64, Others, IsParty, StringLess, StrictOrder;
    var ts := FailureTime(s, now);
    OneWindow(ts, size, start);
    OthersAreTheOtherParties(s.legs, blame.actor);
    StringOrder();
    var f := Failure(s.id, ts, blame.actor, blame.reason);
    forall k, a
      ensures Charged(log', k, a) == Charged(log, k, a) + (if k == Wrap64(start) && a == f.actor then [f] else [])
    {
      RecordAddsOne(log, Wrap64(start), f, k, a);
    }
  }

  class Book {
    var accounts: Accounts
    const windowSize: int
    const burstThreshold: nat
    var failures: FailureLog
    var flagged: map<string, RiskAlert>

    ghost predicate Valid()
      reads this
    {
      windowSize > 0 && burstThreshold > 0 && GateMatches(failures, flagged, burstThreshold)
    }

    constructor (windowSize: int, burstThreshold: int)
      ensures Valid() && accounts == map[] && failures == map[] && flagged == map[]
      ensures forall a :: AccountOf(accounts, a) == Account(0, false)
      ensures this.windowSize == if windowSize <= 0 then MINUTE else windowSize
      ensures this.burstThreshold == if burstThreshold <= 0 then 3 else burstThreshold
    {
      this.windowSize := if windowSize <= 0 then MINUTE else windowSize;
      this.burstThreshold := if burstThreshold <= 0 then 3 else burstThreshold;
      accounts, failures, flagged := map[], map[], map[];
    }

    /** Creates the account if there is none; no observable balance changes. */
    method Touch(actor: string)
      modifies this`accounts
      ensures accounts.Keys == old(accounts).Keys + {actor}
      ensures forall a :: AccountOf(accounts, a) == AccountOf(old(accounts), a)
    {
      if actor !in accounts {
        accounts := accounts[actor := Account(0, false)];
      }
    }

    method Credit(actor: string, amount: Int64)
      modifies this`accounts
      ensures forall a :: AccountOf(accounts, a) ==
                if a == actor then
                  AccountOf(old(accounts), a).(balance := Wrap64(AccountOf(old(accounts), a).balance + amount))
                else AccountOf(old(accounts), a)
    {
      Touch(actor);
      accounts := accounts[actor := accounts[actor].(balance := Wrap64(accounts[actor].balance + amount))];
    }

    method Ban(actor: string)
      modifies this`accounts
      ensures forall a :: AccountOf(accounts, a) ==
                if a == actor then AccountOf(old(accounts), a).(banned := true) else AccountOf(old(accounts), a)
    {
      Touch(actor);
      accounts := accounts[actor := accounts[actor].(banned := true)];
    }

    /** Records a failure and raises the flag when the actor's failures in the window reach
        the threshold. */
    method Fail(s: Settlement, now: int, blame: Blame)
      requires Valid()
      modifies this`failures, this`flagged
      ensures Valid()
      ensures RejectionRecorded(old(failures), old(flagged), failures, flagged,
                                windowSize, burstThreshold, s, now, blame)
      ensures old(flagged).Keys <= flagged.Keys
    {
      var ts := FailureTime(s, now);
      var f := Failure(s.id, ts, blame.actor, blame.reason);
      var start := WindowStart(ts, windowSize);
      hide GateMatches, StrictOrder, StringLess, Record, Charged;
      FlagKeepsGate(failures, flagged, burstThreshold, start, f, s.legs);
      failures := Record(failures, Key(start), f);
      var n := |Charged(failures, Key(start), blame.actor)|;
      if n >= burstThreshold {
        var names := Counterparties(s.legs, blame.actor);
        flagged := flagged[blame.actor := RiskAlert(blame.actor, start, n, names)];
      }
    }

    static method Counterparties(legs: seq<Leg>, actor: string) returns (names: seq<string>)
      ensures StrictOrder(StringLess) && names == Sorted(StringLess, Others(legs, actor))
      ensures forall a :: a in names <==> a != actor && IsParty(legs, a)
    {
      OthersAreTheOtherParties(legs, actor);
      hide StrictOrder, StringLess;
      var others := {};
      for i := 0 to |legs|
        invariant others == Others(legs[..i], actor)
      {
        var leg := legs[i];
        assert legs[..i + 1][..i] == legs[..i];
        if leg.from != actor {
          others := others + {leg.from};
        }
        if leg.to != actor {
          others := others + {leg.to};
        }
      }
      assert legs[..|legs|] == legs;
      StringOrder();
      names := Sorted(StringLess, others);
    }

    /** Nets the legs up to the first one whose amount is not positive. */
    static method NetLegs(legs: seq<Leg>) returns (net: map<string, Int64>, bad: Option<Leg>)
      ensures bad == FirstBadLeg(legs)
      ensures bad.None? ==> net == Net(legs)
    {
      hide Wrap64;
      net := map[];
      assert legs[0..] == legs;
      for i := 0 to |legs|
        invariant net == Net(legs[..i])
        invariant FirstBadLeg(legs) == FirstBadLeg(legs[i..])
      {
        var leg := legs[i];
        assert legs[..i + 1][..i] == legs[..i];
        assert legs[i..][1..] == legs[i + 1..];
        net := net[leg.from := Wrap64(Entry(net, leg.from) - leg.amount)];
        net := net[leg.to := Wrap64(Entry(net, leg.to) + leg.amount)];
        if leg.amount <= 0 {
          return net, Some(leg);
        }
      }
      assert legs[..|legs|] == legs;
      return net, None;
    }

    /** Re-reads every party, in order, up to the first with a problem. */
    method CheckParties(parties: seq<string>, net: map<string, Int64>) returns (r: Option<Blame>)
      modifies this`accounts
      ensures r == FirstProblem(old(accounts), net, parties)
      ensures forall a :: AccountOf(accounts, a) == AccountOf(old(accounts), a)
      ensures r.None? ==> forall a :: a in parties ==> a in accounts
    {
      hide Problem;
      ghost var was := accounts;
      assert parties[0..] == parties;
      for i := 0 to |parties|
        invariant forall a :: AccountOf(accounts, a) == AccountOf(was, a)
        invariant forall j :: 0 <= j < i ==> parties[j] in accounts
        invariant FirstProblem(was, net, parties) == FirstProblem(was, net, parties[i..])
      {
        var actor := parties[i];
        assert parties[i..][1..] == parties[i + 1..];
        Touch(actor);
        assert AccountOf(was, actor) == accounts[actor];
        var problem := Problem(accounts[actor], Entry(net, actor));
        if problem.Some? {
          return Some(Blame(actor, problem.value));
        }
      }
      return None;
    }

    /** Adds every party's net to its balance. */
    method Apply(parties: seq<string>, net: map<string, Int64>)
      requires forall a :: a in parties ==> a in accounts
      requires forall i, j :: 0 <= i < j < |parties| ==> parties[i] != parties[j]
      modifies this`accounts
      ensures forall a :: AccountOf(accounts, a) ==
                if a in parties then
                  AccountOf(old(accounts), a).(balance := Wrap64(AccountOf(old(accounts), a).balance + Entry(net, a)))
                else AccountOf(old(accounts), a)
    {
      hide Wrap64;
      ghost var was := accounts;
      for i := 0 to |parties|
        invariant forall j :: 0 <= j < |parties| ==> parties[j] in accounts
        invariant forall a :: AccountOf(accounts, a) ==
                    if a in parties[..i] then
                      AccountOf(was, a).(balance := Wrap64(AccountOf(was, a).balance + Entry(net, a)))
                    else AccountOf(was, a)
      {
        var actor := parties[i];
        assert parties[..i + 1] == parties[..i] + [actor];
        assert actor !in parties[..i];
        accounts := accounts[actor := accounts[actor].(balance := Wrap64(accounts[actor].balance + Entry(net, actor)))];
      }
      assert parties[..|parties|] == parties;
    }

    /** Validates, then applies all legs or records the failure. */
    method Decide(s: Settlement, now: int) returns (r: Option<Blame>)
      requires Valid()
      modifies this
      ensures Valid()
      ensures r == Verdict(old(accounts), s.legs)
      ensures forall a :: AccountOf(accounts, a) ==
                AccountOf(if r.None? then Applied(old(accounts), s.legs) else old(accounts), a)
      ensures r.None? ==> failures == old(failures) && flagged == old(flagged)
      ensures r.Some? ==> RejectionRecorded(old(failures), old(flagged), failures, flagged,
                                            windowSize, burstThreshold, s, now, r.value)
      ensures old(flagged).Keys <= flagged.Keys
    {
      hide Wrap64, GateMatches, FirstProblem, Net, FirstBadLeg, Applied, RejectionRecorded, SortedParties;
      var net, bad := NetLegs(s.legs);
      if bad.Some? {
        r := Some(Blame(bad.value.from, NonPositive(bad.value.amount)));
        Fail(s, now, r.value);
        return;
      }
      var parties := SortedParties(net);
      r := CheckParties(parties, net);
      if r.Some? {
        Fail(s, now, r.value);
        return;
      }
      PartiesDistinct(net);
      Apply(parties, net);
      AppliedElsewhere(old(accounts), s.legs);
    }

    /** All legs or none. The first problem is charged to the party at fault and returned. */
    method Settle(s: Settlement, now: int) returns (r: Option<Blame>)
      requires Valid()
      modifies this
      ensures Valid()
      ensures r == Verdict(old(accounts), s.legs)
      ensures forall a :: AccountOf(accounts, a) ==
                AccountOf(if r.None? then Applied(old(accounts), s.legs) else old(accounts), a)
      ensures r.None? ==> failures == old(failures) && flagged == old(flagged)
      ensures r.Some? ==> RejectionRecorded(old(failures), old(flagged), failures, flagged,
                                            windowSize, burstThreshold, s, now, r.value)
      ensures old(flagged).Keys <= flagged.Keys
      // Who is charged, and why.
      ensures forall i: nat :: FirstNotPositive(s.legs, i) ==>
                r == Some(Blame(s.legs[i].from, NonPositive(s.legs[i].amount)))
      ensures (forall leg :: leg in s.legs ==> leg.amount > 0) && r.Some? ==>
                var a := r.value.actor;
                && AtFault(old(accounts), s.legs, a)
                && (forall b :: AtFault(old(accounts), s.legs, b) ==> b == a || StringLess(a, b))
                && r.value.reason ==
                   (if AccountOf(old(accounts), a).banned then PartyBanned
                    else Insufficient(AccountOf(old(accounts), a).balance, Wrap64(-Gain(s.legs, a))))
      // When the failure is charged.
      ensures var ts := if s.ts == ZERO_TIME then now else s.ts;
              r.Some? ==>
                forall start :: start <= ts < start + windowSize && (start - ZERO_TIME) % windowSize == 0 ==>
                  RejectedIn(old(failures), old(flagged), failures, flagged, burstThreshold, start,
                             Failure(s.id, ts, r.value.actor, r.value.reason), s.legs)
    {
      hide *;
      r := Decide(s, now);
      PayerIsBlamed(old(accounts), s.legs);
      if r.Some? {
        if forall leg :: leg in s.legs ==> leg.amount > 0 {
          LeastAtFaultIsBlamed(old(accounts), s.legs);
        }
        ghost var ts := if s.ts == ZERO_TIME then now else s.ts;
        forall start | start <= ts < start + windowSize && (start - ZERO_TIME) % windowSize == 0
          ensures RejectedIn(old(failures), old(flagged), failures, flagged, burstThreshold, start,
                             Failure(s.id, ts, r.value.actor, r.value.reason), s.legs)
        {
          RejectionMeans(old(failures), old(flagged), failures, flagged,
                         windowSize, burstThreshold, s, now, r.value, start);
        }
      }
    }

    /** The downstream gate: closed exactly for the actors with a burst of failures in some
        window, with the alert of one such window. */
    method WithdrawalAllowed(actor: string) returns (allowed: bool, alert: Option<RiskAlert>)
      requires Valid()
      ensures allowed <==> forall key :: |Charged(failures, key, actor)| < burstThreshold
      ensures alert.Some? <==> !allowed
      ensures alert.Some? ==> alert.value.actor == actor && alert.value.failures >= burstThreshold
      ensures alert.Some? ==> alert.value.failures == |Charged(failures, Key(alert.value.windowStart), actor)|
    {
      assert actor in flagged <==> Burst(failures, burstThreshold, actor);
      if actor in flagged {
        return false, Some(flagged[actor]);
      }
      return true, None;
    }

    /** The flagged actors' alerts, sorted by actor. */
    method RiskAlerts() returns (out: seq<RiskAlert>)
      requires Valid()
      ensures Lists(StringLess, ActorsOf(out), flagged.Keys)
      ensures forall i :: 0 <= i < |out| ==> out[i].actor in flagged && out[i] == flagged[out[i].actor]
    {
      hide StrictOrder, StringLess, GateMatches;
      StringOrder();
      FlagsNameTheirActor(failures, flagged, burstThreshold);
      var actors := Sorted(StringLess, flagged.Keys);
      out := [];
      for i := 0 to |actors|
        invariant ActorsOf(out) == actors[..i]
        invariant forall j :: 0 <= j < |out| ==> out[j].actor in flagged && out[j] == flagged[out[j].actor]
      {
        assert actors[i] in actors;
        var alert := flagged[actors[i]];
        assert ActorsOf(out + [alert]) == ActorsOf(out) + [alert.actor];
        out := out + [alert];
      }
      assert actors[..|actors|] == actors;
    }
  }

  lemma FlagsNameTheirActor(log: FailureLog, flagged: map<string, RiskAlert>, threshold: nat)
    requires GateMatches(log, flagged, threshold)
    ensures forall a :: a in flagged ==> flagged[a].actor == a
  {}

  function ActorsOf(alerts: seq<RiskAlert>): seq<string> {
    seq(|alerts|, i requires 0 <= i < |alerts| => alerts[i].actor)
  }

  lemma PartiesDistinct(net: map<string, Int64>)
    ensures forall a :: a in SortedParties(net) <==> a in net
    ensures forall i, j :: 0 <= i < j < |SortedParties(net)| ==> SortedParties(net)[i] != SortedParties(net)[j]
  {
    StringOrder();
    var q := SortedParties(net);
    forall i, j | 0 <= i < j < |q| ensures q[i] != q[j] {
      assert StringLess(q[i], q[j]);
    }
  }
}
