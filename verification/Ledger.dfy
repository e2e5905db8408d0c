/** What a settlement decides (internal/checkpoint/checkpoint.go): netting, the verdict, and
    how both relate to moving the legs one at a time. */
module Ledger {
  import opened Ints
  import opened Options
  import opened Sorting

  datatype Account = Account(balance: Int64, banned: bool)

  datatype Leg = Leg(from: string, to: string, amount: Int64)

  type Accounts = map<string, Account>

  datatype Reason =
    | NonPositive(amount: Int64)
    | PartyBanned
    | Insufficient(has: Int64, needs: Int64)

  datatype Blame = Blame(actor: string, reason: Reason)

  /** A missing account reads as empty. */
  function AccountOf(accounts: Accounts, a: string): Account {
    if a in accounts then accounts[a] else Account(0, false)
  }

  // Netting, in the int64 arithmetic of the source.

  function Entry(net: map<string, Int64>, a: string): Int64 {
    if a in net then net[a] else 0
  }

  function NetLeg(net: map<string, Int64>, leg: Leg): map<string, Int64> {
    var debited := net[leg.from := Wrap64(Entry(net, leg.from) - leg.amount)];
    debited[leg.to := Wrap64(Entry(debited, leg.to) + leg.amount)]
  }

  function Net(legs: seq<Leg>): map<string, Int64> {
    if legs == [] then map[] else NetLeg(Net(legs[..|legs| - 1]), legs[|legs| - 1])
  }

  // The verdict.

  function FirstBadLeg(legs: seq<Leg>): Option<Leg> {
    if legs == [] then None
    else if legs[0].amount <= 0 then Some(legs[0])
    else FirstBadLeg(legs[1..])
  }

  /** What is wrong with one party: the ban is looked at before the balance. */
  function Problem(account: Account, net: Int64): Option<Reason> {
    if account.banned then Some(PartyBanned)
    else if Wrap64(account.balance + net) < 0 then Some(Insufficient(account.balance, Wrap64(-(net as int))))
    else None
  }

  function FirstProblem(accounts: Accounts, net: map<string, Int64>, parties: seq<string>): Option<Blame> {
    if parties == [] then None
    else match Problem(AccountOf(accounts, parties[0]), Entry(net, parties[0]))
      case Some(reason) => Some(Blame(parties[0], reason))
      case None => FirstProblem(accounts, net, parties[1..])
  }

  function SortedParties(net: map<string, Int64>): seq<string> {
    StringOrder();
    Sorted(StringLess, net.Keys)
  }

  function Verdict(accounts: Accounts, legs: seq<Leg>): Option<Blame> {
    match FirstBadLeg(legs)
    case Some(leg) => Some(Blame(leg.from, NonPositive(leg.amount)))
    case None => FirstProblem(accounts, Net(legs), SortedParties(Net(legs)))
  }

  // The unbounded reading: money moved leg by leg.

  ghost function Flow(leg: Leg, a: string): int {
    (if leg.to == a then leg.amount else 0) - (if leg.from == a then leg.amount else 0)
  }

  /** What the legs bring to `a` all together. */
  ghost function Gain(legs: seq<Leg>, a: string): int {
    Sum((leg: Leg) => Flow(leg, a), legs)
  }

  ghost predicate IsParty(legs: seq<Leg>, a: string) {
    exists leg :: leg in legs && (leg.from == a || leg.to == a)
  }

  /** Balances, as a function of the actor. */
  type Balances = string -> int

  ghost function Balance(accounts: Accounts): Balances {
    a => AccountOf(accounts, a).balance
  }

  ghost function Move(b: Balances, leg: Leg): Balances {
    a => b(a) + Flow(leg, a)
  }

  /** The legs applied one at a time, in order. */
  ghost function MoveAll(b: Balances, legs: seq<Leg>): Balances {
    if legs == [] then b else Move(MoveAll(b, legs[..|legs| - 1]), legs[|legs| - 1])
  }

  lemma {:induction false} MoveAllGains(b: Balances, legs: seq<Leg>, a: string)
    ensures MoveAll(b, legs)(a) == b(a) + Gain(legs, a)
  {
    if legs != [] {
      MoveAllGains(b, legs[..|legs| - 1], a);
    }
  }

  lemma GainStep(legs: seq<Leg>, leg: Leg, a: string)
    ensures Gain([], a) == 0
    ensures Gain(legs + [leg], a) == Gain(legs, a) + Flow(leg, a)
  {}

  // Netting computes the gains, up to the width of int64.

  lemma EntryAfter(net: map<string, Int64>, leg: Leg, a: string)
    ensures Entry(NetLeg(net, leg), a) == Wrap64(Entry(net, a) + Flow(leg, a))
  {
    hide Wrap64;
    var e, amount: int := Entry(net, a), leg.amount;
    WrapExact(e);
    WrapAbsorbs(e - amount, amount);
  }

  lemma {:induction false} PartiesOfNet(legs: seq<Leg>, a: string)
    ensures a in Net(legs) <==> IsParty(legs, a)
  {
    if legs != [] {
      var init, leg := legs[..|legs| - 1], legs[|legs| - 1];
      assert legs == init + [leg];
      PartiesOfNet(init, a);
      assert forall l :: l in legs <==> l in init || l == leg;
    }
  }

  lemma {:induction false} NetWrapsGain(legs: seq<Leg>, a: string)
    ensures a in Net(legs) <==> IsParty(legs, a)
    ensures Entry(Net(legs), a) == Wrap64(Gain(legs, a))
  {
    hide Wrap64, NetLeg, Flow;
    PartiesOfNet(legs, a);
    if legs == [] {
      WrapExact(0);
    } else {
      var init, leg := legs[..|legs| - 1], legs[|legs| - 1];
      NetWrapsGain(init, a);
      EntryAfter(Net(init), leg, a);
      WrapAbsorbs(Gain(init, a), Flow(leg, a));
    }
  }

  lemma WrapOfBalance(balance: int, gain: int)
    ensures Wrap64(balance + Wrap64(gain)) == Wrap64(balance + gain)
  {}

  // When a settlement commits.

  lemma {:induction false} NoBadLeg(legs: seq<Leg>)
    ensures FirstBadLeg(legs).None? <==> forall leg :: leg in legs ==> leg.amount > 0
    ensures FirstBadLeg(legs).Some? ==> FirstBadLeg(legs).value in legs && FirstBadLeg(legs).value.amount <= 0
  {
    if legs != [] {
      NoBadLeg(legs[1..]);
      assert forall leg :: leg in legs <==> leg == legs[0] || leg in legs[1..];
    }
  }

  lemma {:induction false} NoProblem(accounts: Accounts, net: map<string, Int64>, parties: seq<string>)
    ensures FirstProblem(accounts, net, parties).None? <==>
            forall a :: a in parties ==> Problem(AccountOf(accounts, a), Entry(net, a)).None?
    ensures FirstProblem(accounts, net, parties).Some? ==>
              var blame := FirstProblem(accounts, net, parties).value;
              blame.actor in parties &&
              Problem(AccountOf(accounts, blame.actor), Entry(net, blame.actor)) == Some(blame.reason)
  {
    if parties != [] {
      NoProblem(accounts, net, parties[1..]);
      assert forall a :: a in parties <==> a == parties[0] || a in parties[1..];
    }
  }

  lemma ProblemMeaning(accounts: Accounts, legs: seq<Leg>, a: string)
    ensures Problem(AccountOf(accounts, a), Entry(Net(legs), a)).None? <==>
            !AccountOf(accounts, a).banned && Wrap64(AccountOf(accounts, a).balance + Gain(legs, a)) >= 0
  {
    hide Wrap64;
    NetWrapsGain(legs, a);
    WrapOfBalance(AccountOf(accounts, a).balance, Gain(legs, a));
  }

  /** For every input: the settlement commits exactly when every amount is positive and every
      party is free of a ban and left, in int64 arithmetic, with a non-negative balance. */
  lemma CommitsExactlyWhen(accounts: Accounts, legs: seq<Leg>)
    ensures Verdict(accounts, legs).None? <==>
            && (forall leg :: leg in legs ==> leg.amount > 0)
            && (forall a :: IsParty(legs, a) ==>
                  !AccountOf(accounts, a).banned &&
                  Wrap64(AccountOf(accounts, a).balance + Gain(legs, a)) >= 0)
  {
    hide Wrap64, Problem, Gain, IsParty, Net, AccountOf;
    NoBadLeg(legs);
    StringOrder();
    NoProblem(accounts, Net(legs), SortedParties(Net(legs)));
    forall a
      ensures IsParty(legs, a) <==> a in SortedParties(Net(legs))
      ensures Problem(AccountOf(accounts, a), Entry(Net(legs), a)).None? <==>
              !AccountOf(accounts, a).banned && Wrap64(AccountOf(accounts, a).balance + Gain(legs, a)) >= 0
    {
      NetWrapsGain(legs, a);
      ProblemMeaning(accounts, legs, a);
    }
  }

  /** The first leg whose amount is not positive. */
  ghost predicate FirstNotPositive(legs: seq<Leg>, i: nat) {
    i < |legs| && legs[i].amount <= 0 && forall j :: 0 <= j < i ==> legs[j].amount > 0
  }

  /** A party that is banned or left negative in int64. */
  ghost predicate AtFault(accounts: Accounts, legs: seq<Leg>, a: string) {
    && IsParty(legs, a)
    && (AccountOf(accounts, a).banned || Wrap64(AccountOf(accounts, a).balance + Gain(legs, a)) < 0)
  }

  lemma {:induction false} FirstBadLegIs(legs: seq<Leg>, i: nat)
    requires FirstNotPositive(legs, i)
    ensures FirstBadLeg(legs) == Some(legs[i])
  {
    if i > 0 {
      assert forall j :: 0 <= j < i - 1 ==> legs[1..][j] == legs[j + 1];
      FirstBadLegIs(legs[1..], i - 1);
    }
  }

  lemma {:induction false} FirstProblemIs(accounts: Accounts, net: map<string, Int64>, parties: seq<string>)
    requires StrictOrder(StringLess) && Ascending(StringLess, parties)
    requires FirstProblem(accounts, net, parties).Some?
    ensures var a := FirstProblem(accounts, net, parties).value.actor;
            forall b :: b in parties && Problem(AccountOf(accounts, b), Entry(net, b)).Some? ==>
                          b == a || StringLess(a, b)
  {
    hide Problem, StringLess, StrictOrder;
    var first := Problem(AccountOf(accounts, parties[0]), Entry(net, parties[0]));
    forall b | b in parties[1..] ensures StringLess(parties[0], b) {
      var j :| 0 <= j < |parties[1..]| && parties[1..][j] == b;
      assert StringLess(parties[0], parties[j + 1]);
    }
    assert forall b :: b in parties ==> b == parties[0] || b in parties[1..];
    if first.None? {
      FirstProblemIs(accounts, net, parties[1..]);
    }
  }

  /** An amount that is not positive is charged to the payer of the first such leg. */
  lemma PayerIsBlamed(accounts: Accounts, legs: seq<Leg>)
    ensures forall i: nat :: FirstNotPositive(legs, i) ==>
              Verdict(accounts, legs) == Some(Blame(legs[i].from, NonPositive(legs[i].amount)))
  {
    forall i: nat | FirstNotPositive(legs, i)
      ensures Verdict(accounts, legs) == Some(Blame(legs[i].from, NonPositive(legs[i].amount)))
    {
      FirstBadLegIs(legs, i);
    }
  }

  lemma ProblemIsFault(accounts: Accounts, legs: seq<Leg>, a: string)
    ensures a in SortedParties(Net(legs)) && Problem(AccountOf(accounts, a), Entry(Net(legs), a)).Some? <==>
            AtFault(accounts, legs, a)
    ensures AtFault(accounts, legs, a) ==>
              Problem(AccountOf(accounts, a), Entry(Net(legs), a)).value ==
              (if AccountOf(accounts, a).banned then PartyBanned
               else Insufficient(AccountOf(accounts, a).balance, Wrap64(-Gain(legs, a))))
  {
    hide Gain, IsParty, Net, StringLess, StrictOrder, Wrap64;
    StringOrder();
    NetWrapsGain(legs, a);
    ProblemMeaning(accounts, legs, a);
    WrapNegated(Gain(legs, a));
  }

  /** With every amount positive a rejection is charged to the least party, in name order, that
      is banned or left negative; a ban is the reason whenever there is one. */
  lemma LeastAtFaultIsBlamed(accounts: Accounts, legs: seq<Leg>)
    requires (forall leg :: leg in legs ==> leg.amount > 0) && Verdict(accounts, legs).Some?
    ensures var a := Verdict(accounts, legs).value.actor;
            && AtFault(accounts, legs, a)
            && (forall b :: AtFault(accounts, legs, b) ==> b == a || StringLess(a, b))
            && Verdict(accounts, legs).value.reason ==
               (if AccountOf(accounts, a).banned then PartyBanned
                else Insufficient(AccountOf(accounts, a).balance, Wrap64(-Gain(legs, a))))
  {
    hide Wrap64, Gain, Net, AccountOf, StringLess, StrictOrder, AtFault, Problem, FirstProblem, FirstBadLeg;
    NoBadLeg(legs);
    StringOrder();
    var parties := SortedParties(Net(legs));
    NoProblem(accounts, Net(legs), parties);
    FirstProblemIs(accounts, Net(legs), parties);
    forall a
      ensures a in parties && Problem(AccountOf(accounts, a), Entry(Net(legs), a)).Some? <==>
              AtFault(accounts, legs, a)
    {
      ProblemIsFault(accounts, legs, a);
    }
    ProblemIsFault(accounts, legs, Verdict(accounts, legs).value.actor);
  }

  lemma WrapNegated(x: int)
    ensures Wrap64(-(Wrap64(x) as int)) == Wrap64(-x)
  {}

  /** Moving a leg takes its amount from the payer and gives it to the payee. */
  lemma MovePays(b: Balances, leg: Leg)
    ensures leg.from != leg.to ==>
              Move(b, leg)(leg.from) == b(leg.from) - leg.amount && Move(b, leg)(leg.to) == b(leg.to) + leg.amount
    ensures forall a :: (a != leg.from && a != leg.to) || leg.from == leg.to ==> Move(b, leg)(a) == b(a)
  {}

  /** The actor a rejection is charged to takes part in the settlement. */
  lemma BlamedIsParty(accounts: Accounts, legs: seq<Leg>)
    requires Verdict(accounts, legs).Some?
    ensures IsParty(legs, Verdict(accounts, legs).value.actor)
  {
    NoBadLeg(legs);
    StringOrder();
    NoProblem(accounts, Net(legs), SortedParties(Net(legs)));
    NetWrapsGain(legs, Verdict(accounts, legs).value.actor);
  }

  /** Every party's balance after the legs fits an int64. */
  ghost predicate Representable(accounts: Accounts, legs: seq<Leg>) {
    forall a :: IsParty(legs, a) ==> InInt64(AccountOf(accounts, a).balance + Gain(legs, a))
  }

  /** Accounts after a commit: every party's balance has its net added. */
  function Applied(accounts: Accounts, legs: seq<Leg>): Accounts {
    var net := Net(legs);
    map a | a in accounts.Keys + net.Keys ::
      AccountOf(accounts, a).(balance := Wrap64(AccountOf(accounts, a).balance + Entry(net, a)))
  }

  lemma NoGainOutside(legs: seq<Leg>, a: string)
    requires !IsParty(legs, a)
    ensures Gain(legs, a) == 0
  {
    var zero := (leg: Leg) => 0;
    SumAgrees((leg: Leg) => Flow(leg, a), zero, legs);
    SumZero(legs);
  }

  lemma {:induction false} SumZero(legs: seq<Leg>)
    ensures Sum((leg: Leg) => 0, legs) == 0
  {
    if legs != [] { SumZero(legs[..|legs| - 1]); }
  }

  lemma AppliedBalance(accounts: Accounts, legs: seq<Leg>, a: string)
    ensures AccountOf(Applied(accounts, legs), a).balance == Wrap64(AccountOf(accounts, a).balance + Gain(legs, a))
    ensures AccountOf(Applied(accounts, legs), a).banned == AccountOf(accounts, a).banned
  {
    hide Wrap64;
    NetWrapsGain(legs, a);
    WrapOfBalance(AccountOf(accounts, a).balance, Gain(legs, a));
    WrapExact(AccountOf(accounts, a).balance);
  }

  /** A commit leaves exactly the balances of moving the legs one at a time, in the given or
      any other order, when and only when each of those balances fits an int64. */
  lemma CommitIsLegByLeg(accounts: Accounts, legs: seq<Leg>, order: seq<Leg>)
    requires multiset(order) == multiset(legs)
    ensures Representable(accounts, legs) <==>
            forall a :: AccountOf(Applied(accounts, legs), a).balance == MoveAll(Balance(accounts), order)(a)
  {
    forall a
      ensures MoveAll(Balance(accounts), order)(a) == AccountOf(accounts, a).balance + Gain(legs, a)
      ensures AccountOf(Applied(accounts, legs), a).balance == Wrap64(AccountOf(accounts, a).balance + Gain(legs, a))
      ensures !IsParty(legs, a) ==> Gain(legs, a) == 0
    {
      MoveAllGains(Balance(accounts), order, a);
      SumPermuted((leg: Leg) => Flow(leg, a), order, legs);
      AppliedBalance(accounts, legs, a);
      if !IsParty(legs, a) {
        NoGainOutside(legs, a);
      }
    }
    forall x: int ensures Wrap64(x) == x <==> InInt64(x) { WrapExact(x); }
  }

  // A bound on the inputs under which nothing wraps.

  ghost function Total(legs: seq<Leg>): int {
    Sum((leg: Leg) => leg.amount as int, legs)
  }

  lemma {:induction false} GainWithinTotal(legs: seq<Leg>, n: nat, a: string)
    requires n <= |legs| && forall leg :: leg in legs ==> leg.amount > 0
    ensures -Total(legs) <= Gain(legs[..n], a) <= Total(legs)
    ensures 0 <= Total(legs)
  {
    if legs == [] {
      assert legs[..n] == [];
    } else {
      var init := legs[..|legs| - 1];
      assert forall leg :: leg in init ==> leg in legs;
      assert legs[|legs| - 1] in legs;
      if n < |legs| {
        GainWithinTotal(init, n, a);
        assert legs[..n] == init[..n];
      } else {
        GainWithinTotal(init, n - 1, a);
        assert legs[..n] == legs && init[..n - 1] == init;
      }
    }
  }

  ghost predicate Bounded(accounts: Accounts, legs: seq<Leg>) {
    forall a :: IsParty(legs, a) ==>
      && AccountOf(accounts, a).balance + Total(legs) < TWO_63
      && AccountOf(accounts, a).balance - Total(legs) >= -TWO_63
  }

  /** The decision over unbounded integers: positive amounts, no ban, and nobody left negative
      by moving the legs one at a time. */
  ghost predicate UnboundedAccepts(accounts: Accounts, legs: seq<Leg>) {
    && (forall leg :: leg in legs ==> leg.amount > 0)
    && (forall a :: IsParty(legs, a) ==>
          !AccountOf(accounts, a).banned && MoveAll(Balance(accounts), legs)(a) >= 0)
  }

  /** Where every final balance fits an int64, the code decides as unbounded integers do. */
  lemma RepresentableDecision(accounts: Accounts, legs: seq<Leg>)
    requires Representable(accounts, legs)
    ensures Verdict(accounts, legs).None? <==> UnboundedAccepts(accounts, legs)
  {
    hide Verdict, Gain, IsParty, Wrap64, AccountOf, MoveAll;
    CommitsExactlyWhen(accounts, legs);
    forall a ensures MoveAll(Balance(accounts), legs)(a) == AccountOf(accounts, a).balance + Gain(legs, a) {
      MoveAllGains(Balance(accounts), legs, a);
    }
    forall x: int ensures Wrap64(x) == x <==> InInt64(x) { WrapExact(x); }
  }

  /** The code refuses what unbounded integers accept exactly when some party's exact balance
      is past the int64 range and wraps to a negative one. */
  lemma RefusedThoughSound(accounts: Accounts, legs: seq<Leg>)
    requires UnboundedAccepts(accounts, legs)
    ensures Verdict(accounts, legs).Some? <==>
            exists a :: IsParty(legs, a) && AccountOf(accounts, a).balance + Gain(legs, a) >= TWO_63 &&
                        Wrap64(AccountOf(accounts, a).balance + Gain(legs, a)) < 0
  {
    hide Verdict, Gain, IsParty, Wrap64, AccountOf, MoveAll;
    CommitsExactlyWhen(accounts, legs);
    forall a ensures MoveAll(Balance(accounts), legs)(a) == AccountOf(accounts, a).balance + Gain(legs, a) {
      MoveAllGains(Balance(accounts), legs, a);
    }
    forall x: int ensures Wrap64(x) == x <==> InInt64(x) { WrapExact(x); }
  }

  /** The code accepts what unbounded integers refuse exactly when some party's exact balance is
      below the int64 range: a committed settlement leaves nobody negative if and only if no
      party's is. */
  lemma CommitLeavesNobodyNegative(accounts: Accounts, legs: seq<Leg>)
    requires Verdict(accounts, legs).None?
    ensures UnboundedAccepts(accounts, legs) <==>
            (forall a :: IsParty(legs, a) ==> MoveAll(Balance(accounts), legs)(a) >= 0)
    ensures (forall a :: IsParty(legs, a) ==> MoveAll(Balance(accounts), legs)(a) >= 0) <==>
            (forall a :: IsParty(legs, a) ==> AccountOf(accounts, a).balance + Gain(legs, a) >= -TWO_63)
  {
    hide Verdict, Gain, IsParty, Wrap64, AccountOf, MoveAll;
    CommitsExactlyWhen(accounts, legs);
    forall a ensures MoveAll(Balance(accounts), legs)(a) == AccountOf(accounts, a).balance + Gain(legs, a) {
      MoveAllGains(Balance(accounts), legs, a);
    }
    forall x: int ensures Wrap64(x) == x <==> InInt64(x) { WrapExact(x); }
  }

  /** With every party's balance and the sum of the amounts inside the int64 range, no
      intermediate net and no final balance wraps, the decision is that of unbounded integers,
      and a commit leaves every party with its exact balance, not negative. */
  lemma BoundedNeverWraps(accounts: Accounts, legs: seq<Leg>)
    requires Bounded(accounts, legs) && Total(legs) < TWO_63 && forall leg :: leg in legs ==> leg.amount > 0
    ensures Representable(accounts, legs)
    ensures forall n, a :: 0 <= n <= |legs| ==> Entry(Net(legs[..n]), a) == Gain(legs[..n], a)
    ensures Verdict(accounts, legs).None? <==> UnboundedAccepts(accounts, legs)
    ensures Verdict(accounts, legs).None? ==>
              forall a :: IsParty(legs, a) ==>
                AccountOf(Applied(accounts, legs), a).balance == MoveAll(Balance(accounts), legs)(a) >= 0
  {
    hide Verdict, IsParty, Wrap64, Applied, MoveAll, Net;
    assert legs[..|legs|] == legs;
    forall a | IsParty(legs, a) ensures InInt64(AccountOf(accounts, a).balance + Gain(legs, a)) {
      GainWithinTotal(legs, |legs|, a);
    }
    forall n, a | 0 <= n <= |legs| ensures Entry(Net(legs[..n]), a) == Gain(legs[..n], a) {
      GainWithinTotal(legs, n, a);
      NetWrapsGain(legs[..n], a);
      WrapExact(Gain(legs[..n], a));
    }
    RepresentableDecision(accounts, legs);
    CommitIsLegByLeg(accounts, legs, legs);
  }

  /** Outside that bound the decision can be another: two legs of 2^63-1 each net to +2. */
  lemma UnboundedDecisionDiffers()
    ensures exists accounts, legs ::
              && Verdict(accounts, legs).None?
              && (exists a :: IsParty(legs, a) && MoveAll(Balance(accounts), legs)(a) < 0)
  {
    hide Verdict, Gain, MoveAll;
    var leg := Leg("a", "b", TWO_63 - 1);
    var legs := [leg, leg];
    var accounts := map["b" := Account(2, false)];
    assert legs == ([] + [leg]) + [leg];
    GainStep([], leg, "a");
    GainStep([], leg, "b");
    GainStep([] + [leg], leg, "a");
    GainStep([] + [leg], leg, "b");
    assert leg in legs && IsParty(legs, "a");
    CommitsExactlyWhen(accounts, legs);
    forall a | IsParty(legs, a)
      ensures !AccountOf(accounts, a).banned && Wrap64(AccountOf(accounts, a).balance + Gain(legs, a)) >= 0
    {
      assert a == "a" || a == "b";
    }
    MoveAllGains(Balance(accounts), legs, "a");
    assert Verdict(accounts, legs).None?;
  }

  // Conservation.

  lemma {:induction false} SumOfOne(q: seq<string>, x: string, amount: int)
    requires NoDuplicates(q)
    ensures Sum((a: string) => if a == x then amount else 0, q) == if x in q then amount else 0
  {
    if q != [] {
      var init := q[..|q| - 1];
      SumOfOne(init, x, amount);
      assert q == init + [q[|q| - 1]];
    }
  }

  lemma {:induction false} SumOfDifference(f: string -> int, g: string -> int, q: seq<string>)
    ensures Sum((a: string) => f(a) - g(a), q) == Sum(f, q) - Sum(g, q)
  {
    if q != [] { SumOfDifference(f, g, q[..|q| - 1]); }
  }

  lemma {:induction false} MoveConserves(b: Balances, leg: Leg, q: seq<string>)
    requires NoDuplicates(q) && leg.from in q && leg.to in q
    ensures Sum(Move(b, leg), q) == Sum(b, q)
  {
    var amount: int := leg.amount;
    var to := (a: string) => if a == leg.to then amount else 0;
    var from := (a: string) => if a == leg.from then amount else 0;
    SumOfOne(q, leg.to, amount);
    SumOfOne(q, leg.from, amount);
    var net := (a: string) => from(a) - to(a);
    SumOfDifference(from, to, q);
    SumOfDifference(b, net, q);
    SumAgrees(Move(b, leg), (a: string) => b(a) - net(a), q);
  }

  lemma {:induction false} MoveAllConserves(b: Balances, legs: seq<Leg>, q: seq<string>)
    requires NoDuplicates(q) && forall a :: IsParty(legs, a) ==> a in q
    ensures Sum(MoveAll(b, legs), q) == Sum(b, q)
  {
    if legs != [] {
      var init, leg := legs[..|legs| - 1], legs[|legs| - 1];
      assert leg in legs && IsParty(legs, leg.from) && IsParty(legs, leg.to);
      forall a | IsParty(init, a) ensures a in q {
        var l :| l in init && (l.from == a || l.to == a);
        assert l in legs && IsParty(legs, a);
      }
      MoveAllConserves(b, init, q);
      MoveConserves(MoveAll(b, init), leg, q);
    }
  }

  lemma {:induction false} SumWraps(f: string -> int, g: string -> int, q: seq<string>)
    requires forall a :: f(a) == Wrap64(g(a))
    ensures Wrap64(Sum(f, q)) == Wrap64(Sum(g, q))
  {
    if q != [] {
      var init, a := q[..|q| - 1], q[|q| - 1];
      SumWraps(f, g, init);
      WrapAbsorbs(g(a), Sum(f, init));
      WrapAbsorbs(Sum(f, init), g(a));
      WrapAbsorbs(Sum(g, init), g(a));
    }
  }

  /** A commit conserves the total over any accounts that include the parties: exactly when
      no balance wraps, and modulo 2^64 whatever the amounts are. */
  lemma CommitConserves(accounts: Accounts, legs: seq<Leg>, q: seq<string>)
    requires NoDuplicates(q) && forall a :: IsParty(legs, a) ==> a in q
    ensures Wrap64(Sum(Balance(Applied(accounts, legs)), q)) == Wrap64(Sum(Balance(accounts), q))
    ensures Representable(accounts, legs) ==> Sum(Balance(Applied(accounts, legs)), q) == Sum(Balance(accounts), q)
  {
    var b, moved := Balance(accounts), MoveAll(Balance(accounts), legs);
    MoveAllConserves(b, legs, q);
    forall a ensures Balance(Applied(accounts, legs))(a) == Wrap64(moved(a)) {
      MoveAllGains(b, legs, a);
      AppliedBalance(accounts, legs, a);
    }
    SumWraps(Balance(Applied(accounts, legs)), moved, q);
    if Representable(accounts, legs) {
      CommitIsLegByLeg(accounts, legs, legs);
      SumAgrees(Balance(Applied(accounts, legs)), moved, q);
    }
  }

  // Order.

  lemma PermutedGain(legs: seq<Leg>, order: seq<Leg>, a: string)
    requires multiset(order) == multiset(legs)
    ensures Gain(order, a) == Gain(legs, a)
    ensures IsParty(order, a) <==> IsParty(legs, a)
  {
    SumPermuted((leg: Leg) => Flow(leg, a), order, legs);
    assert forall leg :: leg in order <==> leg in multiset(order);
    assert forall leg :: leg in legs <==> leg in multiset(legs);
  }

  /** With every amount positive, neither the decision nor the actor and reason blamed depend
      on the order of the legs. */
  lemma VerdictIgnoresOrder(accounts: Accounts, legs: seq<Leg>, order: seq<Leg>)
    requires multiset(order) == multiset(legs)
    requires forall leg :: leg in legs ==> leg.amount > 0
    ensures Verdict(accounts, order) == Verdict(accounts, legs)
  {
    forall leg | leg in order ensures leg in legs {
      assert leg in multiset(order);
      assert leg in multiset(legs);
    }
    NoBadLeg(legs);
    NoBadLeg(order);
    forall a
      ensures a in Net(order) <==> a in Net(legs)
      ensures Entry(Net(order), a) == Entry(Net(legs), a)
    {
      PermutedGain(legs, order, a);
      NetWrapsGain(legs, a);
      NetWrapsGain(order, a);
    }
    assert Net(order) == Net(legs) by {
      assert forall a :: a in Net(order) ==> Net(order)[a] == Entry(Net(order), a);
      assert forall a :: a in Net(legs) ==> Net(legs)[a] == Entry(Net(legs), a);
    }
  }

  /** Whatever the amounts, the decision to commit does not depend on the order. */
  lemma DecisionIgnoresOrder(accounts: Accounts, legs: seq<Leg>, order: seq<Leg>)
    requires multiset(order) == multiset(legs)
    ensures Verdict(accounts, order).None? <==> Verdict(accounts, legs).None?
  {
    hide Verdict, Gain, IsParty, Wrap64, AccountOf;
    CommitsExactlyWhen(accounts, legs);
    CommitsExactlyWhen(accounts, order);
    assert forall leg :: leg in order <==> leg in multiset(order);
    assert forall leg :: leg in legs <==> leg in multiset(legs);
    forall a
      ensures Gain(order, a) == Gain(legs, a)
      ensures IsParty(order, a) <==> IsParty(legs, a)
    {
      PermutedGain(legs, order, a);
    }
  }

  /** If some order of the legs can be moved one at a time with no balance ever negative and
      no party is banned, the settlement commits - exactly unless int64 makes some party's final
      balance negative, which it cannot where every final balance is representable. */
  lemma RunnableCommits(accounts: Accounts, legs: seq<Leg>, order: seq<Leg>)
    requires multiset(order) == multiset(legs)
    requires forall leg :: leg in legs ==> leg.amount > 0
    requires forall a :: IsParty(legs, a) ==> !AccountOf(accounts, a).banned
    requires forall n, a :: 0 <= n <= |order| ==> MoveAll(Balance(accounts), order[..n])(a) >= 0
    ensures Verdict(accounts, legs).None? <==>
            forall a :: IsParty(legs, a) ==> Wrap64(MoveAll(Balance(accounts), order)(a)) >= 0
    ensures Representable(accounts, legs) ==> Verdict(accounts, legs).None?
  {
    hide Verdict, Gain, IsParty, Wrap64, AccountOf, MoveAll;
    assert order[..|order|] == order;
    CommitsExactlyWhen(accounts, legs);
    forall a
      ensures MoveAll(Balance(accounts), order)(a) == AccountOf(accounts, a).balance + Gain(legs, a) >= 0
    {
      assert MoveAll(Balance(accounts), order[..|order|])(a) >= 0;
      MoveAllGains(Balance(accounts), order, a);
      PermutedGain(legs, order, a);
    }
    forall x: int ensures Wrap64(x) == x <==> InInt64(x) { WrapExact(x); }
  }
}
