/**
 What a claim pays, by what the amounts have to satisfy, and what is never paid: the part of a pool
 that is held in reserve.
 */
module RewardTerms {
  import opened Options
  import opened Sums
  import opened RewardLedger
  import opened RewardClaims

  /** The largest amount that leaves the reserve in the pool. */
  predicate IsDistributable(l: Ledger, token: Address, pid: string, d: int) {
    d * 10000 <= Pool(l, token, pid) * (10000 - l.reserveBps) < (d + 1) * 10000
  }

  /** The largest amount that is at most the account's part of `d` by score. */
  predicate IsShare(l: Ledger, pid: string, a: Address, d: int, e: int) {
    e * Get(l.totals, pid) <= d * Score(l, pid, a) < (e + 1) * Get(l.totals, pid)
  }

  lemma OnlyDistributable(l: Ledger, token: Address, pid: string, d: int)
    ensures IsDistributable(l, token, pid, d) <==> d == Distributable(Pool(l, token, pid), l.reserveBps)
  {
    FloorIsLargest(Pool(l, token, pid) * (10000 - l.reserveBps), 10000, d);
    FloorIsLargest(Pool(l, token, pid) * (10000 - l.reserveBps), 10000, d + 1);
  }

  lemma OnlyShare(l: Ledger, pid: string, a: Address, d: int, e: int)
    requires Get(l.totals, pid) > 0
    ensures IsShare(l, pid, a, d, e) <==> e == d * Score(l, pid, a) / Get(l.totals, pid)
  {
    FloorIsLargest(d * Score(l, pid, a), Get(l.totals, pid), e);
    FloorIsLargest(d * Score(l, pid, a), Get(l.totals, pid), e + 1);
  }

  /** The account may claim at all, and nothing that is computed for it exceeds 256 bits. */
  predicate Entitled(l: Ledger, token: Address, pid: string, a: Address, d: int) {
    (l.threshold <= 0 || Get(l.reputation, a) >= l.threshold)
    && Score(l, pid, a) > 0 && Pool(l, token, pid) > 0 && Get(l.totals, pid) > 0
    && Pool(l, token, pid) * (10000 - l.reserveBps) < TWO_256 && d * Score(l, pid, a) < TWO_256
  }

  /** `l'` is `l` after `a` was paid: its claims are up and the balance is down by that, nothing else differs. */
  ghost predicate PaidOut(l: Ledger, l': Ledger, token: Address, pid: string, a: Address, paid: int) {
    l' == l.(claimed := l'.claimed, balance := l'.balance)
    && (forall t, q, b :: Claimed(l', t, q, b)
                          == Claimed(l, t, q, b) + if t == token && q == pid && b == a then paid else 0)
    && forall t :: Get(l'.balance, t) == Get(l.balance, t) - if t == token then paid else 0
  }

  /**
   When a claim goes through, and what it pays: what is left of the account's share, of which no more
   than a tenth of the pool at a time.
   */
  lemma ClaimsOnTheseTerms(l: Ledger, token: Address, pid: string, a: Address, d: int, e: int, paid: int)
    requires IsDistributable(l, token, pid, d) && (Get(l.totals, pid) > 0 ==> IsShare(l, pid, a, d, e))
    requires paid <= e - Claimed(l, token, pid, a) && paid * 10 <= Pool(l, token, pid)
    requires paid == e - Claimed(l, token, pid, a) || (paid + 1) * 10 > Pool(l, token, pid)
    ensures var c := Claim(l, token, pid, a);
            (c.Some? <==>
               Entitled(l, token, pid, a, d) && e > Claimed(l, token, pid, a) && Get(l.balance, token) >= paid)
            && (c.Some? ==> c.value.1 == paid && PaidOut(l, c.value.0, token, pid, a, paid))
  {
    OnlyDistributable(l, token, pid, d);
    if Get(l.totals, pid) > 0 {
      OnlyShare(l, pid, a, d, e);
    }
    if Payout(l, token, pid, a).Some? {
      assert Payout(l, token, pid, a).value == paid;
      PaymentMoves(l, token, pid, a, paid);
    }
  }

  lemma PaymentMoves(l: Ledger, token: Address, pid: string, a: Address, paid: int)
    ensures PaidOut(l, Pay(l, token, pid, a, paid), token, pid, a, paid)
  {
    var l' := Pay(l, token, pid, a, paid);
    forall t, q, b
      ensures Claimed(l', t, q, b) == Claimed(l, t, q, b) + if t == token && q == pid && b == a then paid else 0
    {
      PayClaims(l, token, pid, a, paid, t, q);
    }
  }

  /** Claiming until nothing is left leaves the account with exactly its share of what may be distributed. */
  lemma FinishedAccountHoldsItsShare(l: Ledger, token: Address, pid: string, a: Address) returns (n: nat, d: int)
    requires CanClaim(l, token, pid, a) && Claimed(l, token, pid, a) == 0 && Pool(l, token, pid) >= 10
    ensures n <= 19 && ClaimTimes(l, token, pid, a, n).Some? && ClaimTimes(l, token, pid, a, n + 1).None?
    ensures IsDistributable(l, token, pid, d)
    ensures IsShare(l, pid, a, d, Claimed(ClaimTimes(l, token, pid, a, n).value, token, pid, a))
  {
    d := Distributable(Pool(l, token, pid), l.reserveBps);
    OnlyDistributable(l, token, pid, d);
    var e := Entitlement(l, token, pid, a).value;
    OnlyShare(l, pid, a, d, e);
    CappedClaimingFinishes(l, token, pid, a);
    n := CeilDiv(e, Pool(l, token, pid) / 10);
  }

  /** The preview shows what is left of the share, reputation and balance apart; nothing without a score or a pool. */
  lemma PreviewOnTheseTerms(l: Ledger, token: Address, pid: string, a: Address, d: int, e: int)
    requires IsDistributable(l, token, pid, d) && (Get(l.totals, pid) > 0 ==> IsShare(l, pid, a, d, e))
    requires Score(l, pid, a) >= 0 && Pool(l, token, pid) >= 0 && Get(l.totals, pid) >= 0
    ensures Claimable(l, token, pid, a)
            == if Score(l, pid, a) == 0 || Pool(l, token, pid) == 0 then Some(0)
               else if Pool(l, token, pid) * (10000 - l.reserveBps) >= TWO_256 then None
               else if Get(l.totals, pid) == 0 then Some(0)
               else if d * Score(l, pid, a) >= TWO_256 || e < Claimed(l, token, pid, a) then None
               else Some(e - Claimed(l, token, pid, a))
  {
    OnlyDistributable(l, token, pid, d);
    if Get(l.totals, pid) > 0 {
      OnlyShare(l, pid, a, d, e);
    }
  }

  // ----- scores and pools -----

  /** A new score replaces the account's old one and moves the period's total by the difference; nothing else. */
  lemma ScoredOnTheseTerms(l: Ledger, pid: string, a: Address, score: nat)
    requires TotalsExact(l)
    ensures var s := SetScore(l, pid, a, score);
            (s.Some? <==> Get(l.totals, pid) - Score(l, pid, a) + score < TWO_256)
            && (s.Some? ==>
                  s.value == l.(scores := s.value.scores, totals := s.value.totals)
                  && (forall q, b :: Score(s.value, q, b) == if q == pid && b == a then score else Score(l, q, b))
                  && forall q :: Get(s.value.totals, q)
                                 == if q == pid then Get(l.totals, q) - Score(l, pid, a) + score else Get(l.totals, q))
  {
    SetScoreSucceeds(l, pid, a, score);
    ScoreNonNegative(l, pid, a);
  }

  /** Funding raises the pool and the balance by the amount that arrived; nothing else. */
  lemma FundedOnTheseTerms(l: Ledger, token: Address, pid: string, amount: nat, funded: bool)
    ensures var f := Fund(l, token, pid, amount, funded);
            (f.Some? <==> token != "" && amount > 0 && funded && Pool(l, token, pid) + amount < TWO_256)
            && (f.Some? ==>
                  f.value == l.(pools := f.value.pools, balance := f.value.balance)
                  && (forall t, q :: Pool(f.value, t, q)
                                     == Pool(l, t, q) + if t == token && q == pid then amount else 0)
                  && forall t :: Get(f.value.balance, t) == Get(l.balance, t) + if t == token then amount else 0)
  {
  }

  // ----- the reserve -----

  /** Every account's claims stay within its part of the pool less a reserve of `r` basis points. */
  ghost predicate SharesLeaveReserve(l: Ledger, token: Address, pid: string, r: int) {
    forall a :: a in Claims(l, token, pid) ==>
      Claims(l, token, pid)[a] * (Get(l.totals, pid) * 10000) <= Pool(l, token, pid) * (10000 - r) * Score(l, pid, a)
  }

  ghost predicate LeavesReserve(l: Ledger, r: int) {
    Inv(l) && 0 <= r <= l.reserveBps && forall token, pid :: SharesLeaveReserve(l, token, pid, r)
  }

  lemma ReserveIsNotPaid(l: Ledger, token: Address, pid: string, r: int)
    requires LeavesReserve(l, r)
    ensures Sum(Claims(l, token, pid)) * 10000 <= Pool(l, token, pid) * (10000 - r)
  {
    var c, total, pool := Claims(l, token, pid), Get(l.totals, pid), Pool(l, token, pid);
    assert ClaimsBounded(l, token, pid) && SharesLeaveReserve(l, token, pid, r);
    assert total == Sum(GetMap(l.scores, pid));
    Product(pool, 10000 - r);
    ProRataSum(c, GetMap(l.scores, pid), total * 10000, pool * (10000 - r));
    if total > 0 {
      Rearrange(Sum(c), total, 10000);
      ScaleLess(Sum(c) * 10000, pool * (10000 - r), total);
    } else {
      SumMonotone(c, map[]);
    }
  }

  lemma Rearrange(a: int, b: int, c: int)
    ensures a * (b * c) == a * c * b
  {
  }

  /** A payment leaves the reserve in force, and so any smaller one. */
  lemma PayoutLeavesReserve(l: Ledger, token: Address, pid: string, a: Address, r: int)
    requires Payout(l, token, pid, a).Some? && 0 <= r <= l.reserveBps && Pool(l, token, pid) >= 0
    ensures var c := Claimed(l, token, pid, a) + Payout(l, token, pid, a).value;
            c * (Get(l.totals, pid) * 10000) <= Pool(l, token, pid) * (10000 - r) * Score(l, pid, a)
  {
    var pool, score, total := Pool(l, token, pid), Score(l, pid, a), Get(l.totals, pid);
    var d, e := Distributable(pool, l.reserveBps), Entitlement(l, token, pid, a).value;
    var c := Claimed(l, token, pid, a) + Payout(l, token, pid, a).value;
    FloorBounds(d * score, total);
    FloorBounds(pool * (BPS - l.reserveBps), BPS);
    TimesLess(c, e, total);
    Rearrange(c, total, 10000);
    ScaledChain(c, total, d, score, pool * (10000 - r)) by {
      TimesLess(10000 - l.reserveBps, 10000 - r, pool);
      assert pool * (10000 - l.reserveBps) == (10000 - l.reserveBps) * pool && pool * (10000 - r) == (10000 - r) * pool;
    }
  }

  lemma ScaledChain(c: int, total: int, d: int, score: int, most: int)
    requires c * total <= d * score && d * 10000 <= most && score >= 0
    ensures c * 10000 * total <= most * score
  {
    TimesLess(d * 10000, most, score);
    assert c * 10000 * total == c * total * 10000 && d * 10000 * score == d * score * 10000;
  }

  lemma ClaimLeavesReserve(l: Ledger, token: Address, pid: string, a: Address, r: int, t: Address, q: string)
    requires LeavesReserve(l, r) && Claim(l, token, pid, a).Some?
    ensures SharesLeaveReserve(Claim(l, token, pid, a).value.0, t, q, r)
  {
    var p := Payout(l, token, pid, a).value;
    assert ClaimsBounded(l, token, pid) && SharesLeaveReserve(l, t, q, r);
    PayoutLeavesReserve(l, token, pid, a, r);
    PayClaims(l, token, pid, a, p, t, q);
  }

  /** A pool only grows, which leaves more in reserve. */
  lemma GrowthLeavesReserve(l: Ledger, l': Ledger, t: Address, q: string, r: int)
    requires LeavesReserve(l, r) && r <= 10000 && Pool(l, t, q) <= Pool(l', t, q)
    requires l'.scores == l.scores && l'.totals == l.totals && Claims(l', t, q) == Claims(l, t, q)
    ensures SharesLeaveReserve(l', t, q, r)
  {
    assert SharesLeaveReserve(l, t, q, r);
    TimesLess(Pool(l, t, q), Pool(l', t, q), 10000 - r);
    forall a | a in Claims(l', t, q)
      ensures Claims(l', t, q)[a] * (Get(l'.totals, q) * 10000) <= Pool(l', t, q) * (10000 - r) * Score(l', q, a)
    {
      ScoreNonNegative(l, q, a);
      TimesLess(Pool(l, t, q) * (10000 - r), Pool(l', t, q) * (10000 - r), Score(l, q, a));
    }
  }

  lemma ScoringLeavesReserve(l: Ledger, pid: string, a: Address, score: int, t: Address, q: string, r: int)
    requires LeavesReserve(l, r) && SetScore(l, pid, a, score).Some? && Unclaimed(l, pid)
    requires Inv(SetScore(l, pid, a, score).value)
    ensures SharesLeaveReserve(SetScore(l, pid, a, score).value, t, q, r)
  {
    var l' := SetScore(l, pid, a, score).value;
    assert SharesLeaveReserve(l, t, q, r) && ClaimsBounded(l', t, q);
    if q == pid {
      forall b | b in Claims(l', t, q)
        ensures Claims(l', t, q)[b] * (Get(l'.totals, q) * 10000) <= Pool(l', t, q) * (10000 - r) * Score(l', q, b)
      {
        assert Claims(l, t, q)[b] == 0;
        ScoreNonNegative(l', q, b);
        Product(Pool(l', t, q), 10000 - r);
        Product(Pool(l', t, q) * (10000 - r), Score(l', q, b));
      }
    } else {
      assert forall b :: Score(l', q, b) == Score(l, q, b);
    }
  }

  lemma FundingGrows(l: Ledger, token: Address, pid: string, amount: int, funded: bool, t: Address, q: string)
    requires Fund(l, token, pid, amount, funded).Some?
    ensures var l' := Fund(l, token, pid, amount, funded).value;
            Pool(l', t, q) >= Pool(l, t, q) && l'.scores == l.scores && l'.totals == l.totals && l'.claimed == l.claimed
  {
  }

  /** Calls other than successful claims and score changes leave scores and claims alone, and lower no pool. */
  lemma OtherCalls(l: Ledger, op: Op, t: Address, q: string)
    requires op.ClaimOp? ==> Claim(l, op.token, op.pid, op.account).None?
    requires op.SetScoreOp? ==> SetScore(l, op.pid, op.account, op.score).None?
    ensures var l' := Apply(l, op);
            Pool(l, t, q) <= Pool(l', t, q) && l'.scores == l.scores && l'.totals == l.totals
            && Claims(l', t, q) == Claims(l, t, q)
  {
    if op.FundOp? && Fund(l, op.token, op.pid, op.amount, op.funded).Some? {
      FundingGrows(l, op.token, op.pid, op.amount, op.funded, t, q);
    }
  }

  lemma ReserveStaysAtLeast(l: Ledger, op: Op, r: int)
    requires r <= l.reserveBps && (op.SetReserveOp? ==> op.bps >= r)
    ensures r <= Apply(l, op).reserveBps
  {
  }

  lemma StepLeavesPeriod(l: Ledger, op: Op, r: int, t: Address, q: string)
    requires LeavesReserve(l, r) && Allowed(l, op) && Inv(Apply(l, op))
    ensures SharesLeaveReserve(Apply(l, op), t, q, r)
  {
    if op.ClaimOp? && Claim(l, op.token, op.pid, op.account).Some? {
      ClaimLeavesReserve(l, op.token, op.pid, op.account, r, t, q);
    } else if op.SetScoreOp? && SetScore(l, op.pid, op.account, op.score).Some? {
      ScoringLeavesReserve(l, op.pid, op.account, op.score, t, q, r);
    } else {
      OtherCalls(l, op, t, q);
      GrowthLeavesReserve(l, Apply(l, op), t, q, r);
    }
  }

  /** No call touches the reserve of `r`, unless it sets a smaller one. */
  lemma StepLeavesReserve(l: Ledger, op: Op, r: int)
    requires LeavesReserve(l, r) && Allowed(l, op) && (op.SetReserveOp? ==> op.bps >= r)
    ensures LeavesReserve(Apply(l, op), r)
  {
    ApplyKeepsInv(l, op);
    ReserveStaysAtLeast(l, op, r);
    forall t, q
      ensures SharesLeaveReserve(Apply(l, op), t, q, r)
    {
      StepLeavesPeriod(l, op, r, t, q);
    }
  }

  lemma {:induction false} RunsLeaveReserve(ops: seq<Op>, r: nat)
    requires forall i :: 0 <= i < |ops| ==> Allowed(ApplyAll(ops[..i]), ops[i])
    requires r <= 1500 && forall op :: op in ops && op.SetReserveOp? ==> op.bps >= r
    ensures LeavesReserve(ApplyAll(ops), r)
  {
    if ops == [] {
      EmptyInv();
    } else {
      var init := ops[..|ops| - 1];
      forall i | 0 <= i < |init|
        ensures Allowed(ApplyAll(init[..i]), init[i])
      {
        assert init[..i] == ops[..i] && Allowed(ApplyAll(ops[..i]), ops[i]);
      }
      RunsLeaveReserve(init, r);
      assert Allowed(ApplyAll(ops[..|ops| - 1]), ops[|ops| - 1]);
      StepLeavesReserve(ApplyAll(init), ops[|ops| - 1], r);
    }
  }

  /**
   In every run that never sets the reserve below `r` basis points, all claims of a period together
   leave that part of its pool unpaid.
   */
  lemma ReserveIsKept(ops: seq<Op>, r: nat, token: Address, pid: string)
    requires forall i :: 0 <= i < |ops| ==> Allowed(ApplyAll(ops[..i]), ops[i])
    requires r <= 1500 && forall op :: op in ops && op.SetReserveOp? ==> op.bps >= r
    ensures var l := ApplyAll(ops); Sum(Claims(l, token, pid)) * 10000 <= Pool(l, token, pid) * (10000 - r)
  {
    RunsLeaveReserve(ops, r);
    ReserveIsNotPaid(ApplyAll(ops), token, pid, r);
  }
}
