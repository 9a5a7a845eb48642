/**
 Fee envelopes and their distribution (`consensus/fee_distribution.rs`): shares divide the pending
 pool exactly, and over a run no satoshi is lost or made. Running totals are assumed to fit a u64.
 */
module Fees {
  import opened Bytes

  const MAX: nat := 0xffff_ffff_ffff_ffff

  datatype Params = Params(indexerFeePct: Byte, minIndexerFee: nat)

  datatype Envelope = Envelope(totalFee: nat, indexerFee: nat, operatorPool: nat)

  datatype Share = Share(pubkey: Bytes, posted: nat, challenged: nat, fee: nat)

  /** A percentage of the fee, at least the minimum, never more than the fee; overflow counts as everything. */
  function IndexerFee(params: Params, total: nat): (fee: nat)
    ensures fee <= total
    ensures fee == total || fee >= params.minIndexerFee
  {
    var cut := if total * params.indexerFeePct > MAX then MAX else total * params.indexerFeePct / 100;
    var fee := if cut < params.minIndexerFee then params.minIndexerFee else cut;
    if fee < total then fee else total
  }

  /**
   The fee is the least amount that is at least the minimum and not a whole unit below the percentage, if that is
   within the total; otherwise, and when the percentage overflows a u64, it is the total. No smaller `f` will do.
   */
  lemma IndexerFeeIsLeast(params: Params, total: nat, f: nat)
    requires total <= MAX
    ensures var (fee, percents) := (IndexerFee(params, total), total * params.indexerFeePct);
            && (percents > MAX ==> fee == total)
            && (percents <= MAX ==>
                  && (fee == total || (fee >= params.minIndexerFee && percents < 100 * (fee + 1)))
                  && (f < fee ==> f < params.minIndexerFee || 100 * (f + 1) <= percents))
  {
    var percents := total * params.indexerFeePct;
    PercentNonnegative(total, params.indexerFeePct);
    assert percents == 100 * (percents / 100) + percents % 100;
  }

  lemma PercentNonnegative(total: nat, pct: nat)
    ensures total * pct >= 0
  {
  }

  function Effective(s: Share): nat {
    if s.posted > s.challenged then s.posted - s.challenged else 0
  }

  function TotalEffective(ops: seq<Share>): nat {
    if ops == [] then 0 else TotalEffective(ops[..|ops| - 1]) + Effective(ops[|ops| - 1])
  }

  /** An operator's part of the pool, rounded down; a product beyond u64 counts as nothing. */
  function Part(pool: nat, effective: nat, total: nat): nat
    requires total > 0
  {
    if pool * effective > MAX then 0 else pool * effective / total
  }

  function Parts(pool: nat, ops: seq<Share>, total: nat): nat
    requires total > 0
  {
    if ops == [] then 0 else Parts(pool, ops[..|ops| - 1], total) + Part(pool, Effective(ops[|ops| - 1]), total)
  }

  function SumFees(shares: seq<Share>): nat {
    if shares == [] then 0 else SumFees(shares[..|shares| - 1]) + shares[|shares| - 1].fee
  }

  lemma PartBounds(pool: nat, e: nat, total: nat)
    requires total > 0
    ensures total * Part(pool, e, total) <= pool * e
    ensures pool * e <= MAX ==> pool * e < total * Part(pool, e, total) + total
  {
    var x := pool * e;
    assert x == total * (x / total) + x % total;
    assert x >= 0 by { MulNonnegative(pool, e); }
  }

  lemma MulNonnegative(a: nat, b: nat)
    ensures a * b >= 0
  {
  }

  ghost predicate NoOverflow(pool: nat, ops: seq<Share>) {
    forall i | 0 <= i < |ops| :: pool * Effective(ops[i]) <= MAX
  }

  /** The rounded parts never exceed the pool's proportion, and fall short by less than one per operator. */
  lemma {:induction false} PartsBounds(pool: nat, ops: seq<Share>, total: nat)
    requires total > 0
    ensures total * Parts(pool, ops, total) <= pool * TotalEffective(ops)
    ensures ops != [] && NoOverflow(pool, ops) ==>
              pool * TotalEffective(ops) < total * Parts(pool, ops, total) + total * |ops|
    ensures ops == [] ==> pool * TotalEffective(ops) == 0
  {
    if ops != [] {
      var init, last := ops[..|ops| - 1], ops[|ops| - 1];
      PartsBounds(pool, init, total);
      PartBounds(pool, Effective(last), total);
      Distribute3(pool, TotalEffective(init), Effective(last));
      Distribute3(total, Parts(pool, init, total), Part(pool, Effective(last), total));
      Distribute3(total, |init|, 1);
      assert NoOverflow(pool, ops) ==> NoOverflow(pool, init) && pool * Effective(last) <= MAX;
    }
  }

  lemma Distribute3(a: int, b: int, c: int)
    ensures a * (b + c) == a * b + a * c
  {
  }

  /** So what is left over goes to the first operator, and is less than one per operator. */
  lemma Leftover(pool: nat, ops: seq<Share>)
    requires TotalEffective(ops) > 0
    ensures Parts(pool, ops, TotalEffective(ops)) <= pool
    ensures NoOverflow(pool, ops) ==> pool - Parts(pool, ops, TotalEffective(ops)) < |ops|
  {
    var total := TotalEffective(ops);
    var parts := Parts(pool, ops, total);
    PartsBounds(pool, ops, total);
    if parts > pool {
      Distribute3(total, pool, parts - pool);
      MulPositive(total, parts - pool);
      assert false;
    }
    if NoOverflow(pool, ops) && pool - parts >= |ops| {
      Distribute3(total, parts, pool - parts);
      Distribute3(total, |ops|, pool - parts - |ops|);
      MulNonnegative(total, pool - parts - |ops|);
      assert false;
    }
  }

  lemma MulPositive(a: nat, b: nat)
    requires a > 0 && b > 0
    ensures a * b > 0
  {
  }

  // ----- the accounts

  datatype Account = Account(envelopes: seq<Envelope>, shares: seq<Share>, collected: nat, distributed: nat,
                             pending: nat)

  const OPENED: Account := Account([], [], 0, 0, 0)

  datatype Event = Collect(total: nat, params: Params) | Calculate(ops: seq<Share>) | Distribute

  function Shares(pool: nat, ops: seq<Share>, total: nat): (s: seq<Share>)
    requires total > 0
    ensures |s| == |ops|
  {
    seq<Share>(|ops|, i requires 0 <= i < |ops| => ops[i].(fee := Part(pool, Effective(ops[i]), total)))
  }

  /** Rounded shares, the leftover added to the first. */
  function Divided(pool: nat, ops: seq<Share>): Option<seq<Share>> {
    if ops == [] || TotalEffective(ops) == 0 then None
    else
      Leftover(pool, ops);
      var total := TotalEffective(ops);
      var raw := Shares(pool, ops, total);
      Some(raw[0 := raw[0].(fee := raw[0].fee + (pool - Parts(pool, ops, total)))])
  }

  lemma {:induction false} SharesSum(pool: nat, ops: seq<Share>, total: nat)
    requires total > 0
    ensures SumFees(Shares(pool, ops, total)) == Parts(pool, ops, total)
  {
    if ops != [] {
      SharesSum(pool, ops[..|ops| - 1], total);
      assert Shares(pool, ops, total)[..|ops| - 1] == Shares(pool, ops[..|ops| - 1], total);
    }
  }

  lemma {:induction false} SumRaised(shares: seq<Share>, extra: nat)
    requires shares != []
    ensures SumFees(shares[0 := shares[0].(fee := shares[0].fee + extra)]) == SumFees(shares) + extra
  {
    var raised := shares[0 := shares[0].(fee := shares[0].fee + extra)];
    if |shares| > 1 {
      var init := shares[..|shares| - 1];
      SumRaised(init, extra);
      assert raised[..|shares| - 1] == init[0 := init[0].(fee := init[0].fee + extra)];
    } else {
      assert SumFees(shares[..0]) == 0 && SumFees(raised[..0]) == 0;
    }
  }

  /** Shares divide the pool exactly, whatever overflows on the way. */
  lemma DividedExactly(pool: nat, ops: seq<Share>)
    ensures Divided(pool, ops).Some? ==>
            |Divided(pool, ops).value| == |ops| && SumFees(Divided(pool, ops).value) == pool
    ensures Divided(pool, ops).Some? && NoOverflow(pool, ops) ==>
              forall i | 0 <= i < |ops| ::
                0 <= Divided(pool, ops).value[i].fee - Part(pool, Effective(ops[i]), TotalEffective(ops)) < |ops|
  {
    if ops != [] && TotalEffective(ops) > 0 {
      var total := TotalEffective(ops);
      Leftover(pool, ops);
      SharesSum(pool, ops, total);
      SumRaised(Shares(pool, ops, total), pool - Parts(pool, ops, total));
    }
  }

  /** Only the first operator gets more than its rounded part. */
  lemma RestToFirst(pool: nat, ops: seq<Share>, i: nat)
    requires Divided(pool, ops).Some? && 0 < i < |ops|
    ensures |Divided(pool, ops).value| == |ops|
    ensures Divided(pool, ops).value[i].fee == Part(pool, Effective(ops[i]), TotalEffective(ops))
  {
    hide Part, Effective;
  }

  /**
   Without overflow an operator's fee is its proportion of the pool by batches posted and not challenged: never a
   whole unit below, and above it only for the first operator, by less than one unit per operator.
   */
  lemma SharesProportional(pool: nat, ops: seq<Share>, i: nat)
    requires Divided(pool, ops).Some? && NoOverflow(pool, ops) && i < |ops|
    ensures var (fee, total) := (Divided(pool, ops).value[i].fee, TotalEffective(ops));
            var standing := if ops[i].posted > ops[i].challenged then ops[i].posted - ops[i].challenged else 0;
            && pool * standing < total * fee + total
            && total * fee <= pool * standing + (if i == 0 then total * (|ops| - 1) else 0)
  {
    hide Part, Divided;
    DividedWhen(pool, ops);
    DividedExactly(pool, ops);
    if i > 0 { RestToFirst(pool, ops, i); }
    var (fee, total) := (Divided(pool, ops).value[i].fee, TotalEffective(ops));
    var part := Part(pool, Effective(ops[i]), total);
    PartBounds(pool, Effective(ops[i]), total);
    WithinUnits(total, fee, part, pool * Effective(ops[i]), if i == 0 then |ops| - 1 else 0);
  }

  lemma WithinUnits(total: nat, fee: nat, part: nat, exact: int, units: nat)
    requires total * part <= exact < total * part + total && part <= fee <= part + units
    ensures exact < total * fee + total && total * fee <= exact + total * units
  {
    MulMonotone(total, part, fee);
    MulMonotone(total, fee, part + units);
    Distribute3(total, part, units);
  }

  lemma MulMonotone(a: nat, b: int, c: int)
    requires b <= c
    ensures a * b <= a * c
  {
    if b < c && a > 0 { MulPositive(a, c - b); }
    Distribute3(a, b, c - b);
  }

  function Apply(a: Account, e: Event): Account {
    match e
    case Collect(total, params) =>
      var fee := IndexerFee(params, total);
      a.(envelopes := a.envelopes + [Envelope(total, fee, total - fee)], collected := a.collected + total,
         pending := a.pending + (total - fee))
    case Calculate(ops) =>
      (match Divided(a.pending, ops) case None => a case Some(shares) => a.(shares := shares))
    case Distribute =>
      var paid := SumFees(a.shares);
      a.(distributed := a.distributed + paid, pending := if paid > a.pending then 0 else a.pending - paid)
  }

  function IndexerTotal(envelopes: seq<Envelope>): nat {
    if envelopes == [] then 0 else IndexerTotal(envelopes[..|envelopes| - 1]) + envelopes[|envelopes| - 1].indexerFee
  }

  /** Everything collected went to the indexer, is pending, or was distributed. */
  predicate Balanced(a: Account) {
    a.collected == IndexerTotal(a.envelopes) + a.pending + a.distributed
  }

  /** What has been credited beyond what was collected. */
  function Surplus(a: Account): int {
    IndexerTotal(a.envelopes) + a.pending + a.distributed - a.collected
  }

  /** How much a distribution hands out beyond what is pending. */
  function Overpaid(a: Account, e: Event): nat {
    if e.Distribute? && SumFees(a.shares) > a.pending then SumFees(a.shares) - a.pending else 0
  }

  /** The surplus only ever grows, and exactly by what is overpaid. */
  lemma ApplySurplus(a: Account, e: Event)
    ensures Surplus(Apply(a, e)) == Surplus(a) + Overpaid(a, e)
  {
    hide Divided, IndexerFee;
    if e.Collect? {
      var env := Apply(a, e).envelopes;
      assert env[..|env| - 1] == a.envelopes;
    }
  }

  function Run(events: seq<Event>): Account {
    if events == [] then OPENED else Apply(Run(events[..|events| - 1]), events[|events| - 1])
  }

  /** No distribution hands out more than is pending. */
  ghost predicate Covered(events: seq<Event>) {
    forall i | 0 <= i < |events| && events[i].Distribute? ::
      SumFees(Run(events[..i]).shares) <= Run(events[..i]).pending
  }

  lemma CoveredSnoc(events: seq<Event>, e: Event)
    ensures Covered(events + [e]) <==> Covered(events) && Overpaid(Run(events), e) == 0
  {
    hide Run, SumFees;
    var longer := events + [e];
    assert longer[..|events|] == events;
    assert forall i | 0 <= i < |events| :: longer[i] == events[i] && longer[..i] == events[..i];
  }

  lemma {:induction false} RunSurplus(events: seq<Event>)
    ensures Surplus(Run(events)) >= 0 && (Surplus(Run(events)) == 0 <==> Covered(events))
  {
    hide Apply, Surplus, Overpaid, Covered;
    if events == [] {
      NothingOwed();
    } else {
      var init, last := events[..|events| - 1], events[|events| - 1];
      assert init + [last] == events;
      RunSurplus(init);
      ApplySurplus(Run(init), last);
      CoveredSnoc(init, last);
    }
  }

  lemma NothingOwed()
    ensures Surplus(OPENED) == 0 && Covered([])
  {
  }

  /** After any run the books balance exactly when no distribution handed out more than was pending. */
  lemma ConservedIff(events: seq<Event>)
    ensures Balanced(Run(events)) <==> Covered(events)
  {
    hide Run, Covered;
    RunSurplus(events);
  }

  /** Event `k` is a calculation that succeeds and the next distribution, if any, is not before `i`. */
  ghost predicate CalculatedFor(events: seq<Event>, k: nat, i: nat) {
    && k < i <= |events| && events[k].Calculate? && Divided(Run(events[..k]).pending, events[k].ops).Some?
    && forall m | k < m < i :: !events[m].Distribute?
  }

  /** Each distribution has a successful calculation of its own; fees and further calculations may come between. */
  ghost predicate Orderly(events: seq<Event>) {
    forall i | 0 <= i < |events| && events[i].Distribute? :: exists k: nat :: CalculatedFor(events, k, i)
  }

  lemma CalculatedCovers(a: Account, ops: seq<Share>)
    requires Divided(a.pending, ops).Some?
    ensures SumFees(Apply(a, Calculate(ops)).shares) <= Apply(a, Calculate(ops)).pending
  {
    hide Divided;
    DividedExactly(a.pending, ops);
  }

  lemma StepCovers(a: Account, e: Event)
    requires SumFees(a.shares) <= a.pending && !e.Distribute?
    ensures SumFees(Apply(a, e).shares) <= Apply(a, e).pending
  {
    hide Divided, IndexerFee, SumFees;
    if e.Calculate? && Divided(a.pending, e.ops).Some? { CalculatedCovers(a, e.ops); }
  }

  /** From a successful calculation to the next distribution the shares stay within what is pending. */
  lemma {:induction false} ShareWithinPending(events: seq<Event>, k: nat, i: nat)
    requires CalculatedFor(events, k, i)
    ensures SumFees(Run(events[..i]).shares) <= Run(events[..i]).pending
    decreases i
  {
    hide Divided, Apply, SumFees;
    assert events[..i][..i - 1] == events[..i - 1];
    if i == k + 1 {
      CalculatedCovers(Run(events[..k]), events[k].ops);
    } else {
      ShareWithinPending(events, k, i - 1);
      StepCovers(Run(events[..i - 1]), events[i - 1]);
    }
  }

  /** With a successful calculation before each distribution nothing is lost or made. */
  lemma FeesConserved(events: seq<Event>)
    requires Orderly(events)
    ensures Balanced(Run(events))
  {
    hide Run, CalculatedFor, Balanced;
    forall i | 0 <= i < |events| && events[i].Distribute?
      ensures SumFees(Run(events[..i]).shares) <= Run(events[..i]).pending
    {
      var k: nat :| CalculatedFor(events, k, i);
      ShareWithinPending(events, k, i);
    }
    ConservedIff(events);
  }

  /** Distributing twice on one calculation pays the operator pool out twice. */
  lemma PaidTwice(total: nat, params: Params, ops: seq<Share>)
    requires IndexerFee(params, total) < total && ops != [] && TotalEffective(ops) > 0
    ensures var end := Run([Collect(total, params), Calculate(ops), Distribute, Distribute]);
            !Balanced(end) && end.distributed == 2 * (total - IndexerFee(params, total)) && end.pending == 0
  {
    hide IndexerFee, Divided, TotalEffective, Run, Apply, SumFees;
    var pool := total - IndexerFee(params, total);
    var one := [Collect(total, params)];
    var two := one + [Calculate(ops)];
    var three := two + [Distribute];
    assert [Collect(total, params), Calculate(ops), Distribute, Distribute] == three + [Distribute];
    RunSnoc([], Collect(total, params));
    assert [] + one == one;
    RunSnoc(one, Calculate(ops));
    RunSnoc(two, Distribute);
    RunSnoc(three, Distribute);
    DividedWhen(pool, ops);
    DividedExactly(pool, ops);
    CollectedOnce(total, params);
    PaidInFull(Run(one), ops, pool);
  }

  lemma RunSnoc(events: seq<Event>, e: Event)
    ensures Run(events + [e]) == Apply(Run(events), e) && Run([]) == OPENED
  {
    assert (events + [e])[..|events|] == events;
  }

  lemma CollectedOnce(total: nat, params: Params)
    ensures var a := Apply(OPENED, Collect(total, params));
            Balanced(a) && a.pending == total - IndexerFee(params, total) && a.distributed == 0
  {
    hide IndexerFee;
    ApplySurplus(OPENED, Collect(total, params));
  }

  /** One calculation, two distributions. */
  lemma PaidInFull(a: Account, ops: seq<Share>, pool: nat)
    requires a.pending == pool > 0 && a.distributed == 0 && Balanced(a)
    requires Divided(pool, ops).Some? && SumFees(Divided(pool, ops).value) == pool
    ensures var end := Apply(Apply(Apply(a, Calculate(ops)), Distribute), Distribute);
            !Balanced(end) && end.distributed == 2 * pool && end.pending == 0
  {
    hide Divided, SumFees, IndexerFee, TotalEffective;
    ApplySurplus(a, Calculate(ops));
  }

  lemma DividedWhen(pool: nat, ops: seq<Share>)
    ensures Divided(pool, ops).Some? <==> ops != [] && TotalEffective(ops) > 0
  {
  }

  class FeeDistribution {
    var envelopes: seq<Envelope>
    var operatorShares: seq<Share>
    var collected: nat
    var distributed: nat
    var pending: nat

    ghost function Abstract(): Account
      reads this
    {
      Account(envelopes, operatorShares, collected, distributed, pending)
    }

    constructor ()
      ensures Abstract() == OPENED
    {
      envelopes, operatorShares := [], [];
      collected, distributed, pending := 0, 0, 0;
    }

    method CreateFeeEnvelope(total: nat, params: Params) returns (env: Envelope)
      modifies this
      ensures Abstract() == Apply(old(Abstract()), Collect(total, params))
      ensures env.indexerFee + env.operatorPool == env.totalFee == total
    {
      var fee := IndexerFee(params, total);
      env := Envelope(total, fee, total - fee);
      envelopes := envelopes + [env];
      collected := collected + total;
      pending := pending + env.operatorPool;
    }

    method CalculateOperatorShares(ops: seq<Share>) returns (result: Option<seq<Share>>)
      modifies this
      ensures Abstract() == Apply(old(Abstract()), Calculate(ops))
      ensures result == Divided(old(pending), ops)
      ensures result.Some? ==> SumFees(result.value) == pending
    {
      DividedExactly(pending, ops);
      if ops == [] { return None; }
      var total := 0;
      for i := 0 to |ops|
        invariant total == TotalEffective(ops[..i])
      {
        assert ops[..i + 1][..i] == ops[..i];
        total := total + Effective(ops[i]);
      }
      assert ops[..|ops|] == ops;
      if total == 0 { return None; }
      var shares, paid := DivideUp(ops, total);
      Leftover(pending, ops);
      if paid < pending {
        shares := shares[0 := shares[0].(fee := shares[0].fee + (pending - paid))];
      }
      operatorShares := shares;
      return Some(shares);
    }

    method DivideUp(ops: seq<Share>, total: nat) returns (shares: seq<Share>, paid: nat)
      requires total > 0
      ensures shares == Shares(pending, ops, total) && paid == Parts(pending, ops, total)
    {
      hide Part, Effective;
      shares, paid := [], 0;
      for i := 0 to |ops|
        invariant |shares| == i && paid == Parts(pending, ops[..i], total)
        invariant forall j | 0 <= j < i :: shares[j] == Shares(pending, ops, total)[j]
      {
        assert ops[..i + 1][..i] == ops[..i];
        var share := Part(pending, Effective(ops[i]), total);
        shares := shares + [ops[i].(fee := share)];
        paid := paid + share;
      }
      assert ops[..|ops|] == ops;
    }

    method DistributeFees()
      modifies this
      ensures Abstract() == Apply(old(Abstract()), Distribute)
    {
      var paid := 0;
      for i := 0 to |operatorShares|
        invariant paid == SumFees(operatorShares[..i])
      {
        assert operatorShares[..i + 1][..i] == operatorShares[..i];
        paid := paid + operatorShares[i].fee;
      }
      assert operatorShares[..|operatorShares|] == operatorShares;
      distributed := distributed + paid;
      pending := if paid > pending then 0 else pending - paid;
    }
  }
}
