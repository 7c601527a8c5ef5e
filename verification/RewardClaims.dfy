/** Repeated capped claims: how many it takes to be paid in full, and when that never happens. */
module RewardClaims {
  import opened Options
  import opened Sums
  import opened RewardLedger

  /** `n` successful claims in a row by one account, nothing else happening. */
  function ClaimTimes(l: Ledger, token: Address, pid: string, a: Address, n: nat): Option<Ledger> {
    if n == 0 then Some(l)
    else
      var before := ClaimTimes(l, token, pid, a, n - 1);
      if before.None? then None
      else
        var c := Claim(before.value, token, pid, a);
        if c.None? then None else Some(c.value.0)
  }

  function CeilDiv(x: int, d: int): int
    requires d > 0
  {
    (x + d - 1) / d
  }

  lemma CeilDivBounds(x: int, d: int, n: int)
    requires d > 0 && x >= 0
    ensures n * d < x <==> n < CeilDiv(x, d)
  {
    var q := CeilDiv(x, d);
    FloorBounds(x + d - 1, d);
    if n < q {
      TimesLess(n, q - 1, d);
      assert (q - 1) * d == q * d - d;
    } else {
      TimesLess(q, n, d);
    }
  }

  /** The account may claim and its share can be computed. */
  ghost predicate CanClaim(l: Ledger, token: Address, pid: string, a: Address) {
    Inv(l) && (l.threshold == 0 || Get(l.reputation, a) >= l.threshold) && l.threshold >= 0
    && Score(l, pid, a) > 0 && Pool(l, token, pid) > 0 && Entitlement(l, token, pid, a).Some?
  }

  lemma PayKeepsEntitlement(l: Ledger, token: Address, pid: string, a: Address, amount: int)
    ensures var l' := Pay(l, token, pid, a, amount);
            Entitlement(l', token, pid, a) == Entitlement(l, token, pid, a)
            && Claimed(l', token, pid, a) == Claimed(l, token, pid, a) + amount
  {
  }

  lemma EntitlementWithinPool(l: Ledger, token: Address, pid: string, a: Address)
    requires CanClaim(l, token, pid, a)
    ensures 0 <= Entitlement(l, token, pid, a).value <= Pool(l, token, pid)
  {
    var pool, score, total := Pool(l, token, pid), Score(l, pid, a), Get(l.totals, pid);
    var d := Distributable(pool, l.reserveBps);
    var e := d * score / total;
    DistributableWithinPool(pool, l.reserveBps);
    assert total == Sum(GetMap(l.scores, pid));
    EntryAtMostSum(GetMap(l.scores, pid), a);
    Product(d, score);
    FloorBounds(d * score, total);
    assert d * score == score * d && d * total == total * d;
    TimesLess(score, total, d);
    TimesLess(d, pool, total);
    ScaleLess(e, pool, total);
  }

  /** One more claim adds the cap, or what is left if that is less. */
  lemma NextClaim(l: Ledger, token: Address, pid: string, a: Address)
    requires CanClaim(l, token, pid, a)
    ensures var e, c, cap := Entitlement(l, token, pid, a).value, Claimed(l, token, pid, a), Pool(l, token, pid) / 10;
            if c < e then
              Claim(l, token, pid, a).Some?
              && CanClaim(Claim(l, token, pid, a).value.0, token, pid, a)
              && Claimed(Claim(l, token, pid, a).value.0, token, pid, a) == Min(c + cap, e)
            else Claim(l, token, pid, a).None?
  {
    var e, c := Entitlement(l, token, pid, a).value, Claimed(l, token, pid, a);
    if c < e {
      TransferNeverFails(l, token, pid, a);
      ClaimKeepsInv(l, token, pid, a);
      PayKeepsEntitlement(l, token, pid, a, Payout(l, token, pid, a).value);
    }
  }

  /** `r` is what `l` becomes when n caps, or everything if that is less, have been paid. */
  ghost predicate PaidCaps(l: Ledger, r: Ledger, token: Address, pid: string, a: Address, n: nat)
    requires CanClaim(l, token, pid, a)
  {
    var e := Entitlement(l, token, pid, a);
    CanClaim(r, token, pid, a) && Entitlement(r, token, pid, a) == e && Pool(r, token, pid) == Pool(l, token, pid)
    && Claimed(r, token, pid, a) == Min(n * (Pool(l, token, pid) / 10), e.value)
  }

  lemma PaidOneMore(l: Ledger, r: Ledger, token: Address, pid: string, a: Address, n: nat)
    requires CanClaim(l, token, pid, a) && Pool(l, token, pid) >= 10 && PaidCaps(l, r, token, pid, a, n)
    requires n * (Pool(l, token, pid) / 10) < Entitlement(l, token, pid, a).value
    ensures Claim(r, token, pid, a).Some? && PaidCaps(l, Claim(r, token, pid, a).value.0, token, pid, a, n + 1)
  {
    NextClaim(r, token, pid, a);
    PayKeepsEntitlement(r, token, pid, a, Payout(r, token, pid, a).value);
    Distribute(n, 1, Pool(l, token, pid) / 10);
  }

  /** n claims that each find something to pay leave n caps paid, or everything. */
  lemma {:induction false} ClaimedAfter(l: Ledger, token: Address, pid: string, a: Address, n: nat)
    requires CanClaim(l, token, pid, a) && Claimed(l, token, pid, a) == 0 && Pool(l, token, pid) >= 10
    requires n > 0 ==> (n - 1) * (Pool(l, token, pid) / 10) < Entitlement(l, token, pid, a).value
    ensures var r := ClaimTimes(l, token, pid, a, n); r.Some? && PaidCaps(l, r.value, token, pid, a, n)
  {
    var e, cap := Entitlement(l, token, pid, a).value, Pool(l, token, pid) / 10;
    if n == 0 {
      EntitlementWithinPool(l, token, pid, a);
    } else {
      TimesLess(n - 2, n - 1, cap);
      ClaimedAfter(l, token, pid, a, n - 1);
      var before := ClaimTimes(l, token, pid, a, n - 1).value;
      PaidOneMore(l, before, token, pid, a, n - 1);
    }
  }

  /**
   From nothing claimed, ceil(entitlement / (pool/10)) successful claims pay out exactly the
   entitlement and the next one reverts; it never takes more than nineteen.
   */
  lemma CappedClaimingFinishes(l: Ledger, token: Address, pid: string, a: Address)
    requires CanClaim(l, token, pid, a) && Claimed(l, token, pid, a) == 0 && Pool(l, token, pid) >= 10
    ensures var e := Entitlement(l, token, pid, a).value;
            var n := CeilDiv(e, Pool(l, token, pid) / 10);
            0 <= n <= 19
            && ClaimTimes(l, token, pid, a, n).Some?
            && Claimed(ClaimTimes(l, token, pid, a, n).value, token, pid, a) == e
            && ClaimTimes(l, token, pid, a, n + 1).None?
  {
    var e, pool := Entitlement(l, token, pid, a).value, Pool(l, token, pid);
    var cap := pool / 10;
    EntitlementWithinPool(l, token, pid, a);
    CeilDivBounds(e, cap, 19);
    CeilDivBounds(e, cap, -1);
    var n := CeilDiv(e, cap);
    CeilDivBounds(e, cap, n);
    CeilDivBounds(e, cap, n - 1);
    ClaimedAfter(l, token, pid, a, n);
    NextClaim(ClaimTimes(l, token, pid, a, n).value, token, pid, a);
  }

  /** From a pool below ten units no claim ever pays anything: calls succeed and transfer zero. */
  lemma {:induction false} SmallPoolPaysNothing(l: Ledger, token: Address, pid: string, a: Address, n: nat)
    requires CanClaim(l, token, pid, a) && Claimed(l, token, pid, a) == 0
    requires Pool(l, token, pid) < 10 && Entitlement(l, token, pid, a).value > 0
    ensures var r := ClaimTimes(l, token, pid, a, n); r.Some? && PaidCaps(l, r.value, token, pid, a, 0)
  {
    if n > 0 {
      SmallPoolPaysNothing(l, token, pid, a, n - 1);
      var before := ClaimTimes(l, token, pid, a, n - 1).value;
      NextClaim(before, token, pid, a);
      PayKeepsEntitlement(before, token, pid, a, Payout(before, token, pid, a).value);
    }
  }

  /** The account has been paid its whole share after n claims. */
  predicate PaidInFull(l: Ledger, token: Address, pid: string, a: Address, n: nat) {
    var r, e := ClaimTimes(l, token, pid, a, n), Entitlement(l, token, pid, a);
    r.Some? && e.Some? && Claimed(r.value, token, pid, a) == e.value
  }

  /** Claiming ever finishes if and only if the pool is at least ten, or nothing is due at all. */
  lemma ClaimingFinishesIff(l: Ledger, token: Address, pid: string, a: Address)
    requires CanClaim(l, token, pid, a) && Claimed(l, token, pid, a) == 0
    ensures (exists n: nat :: PaidInFull(l, token, pid, a, n))
            <==> Pool(l, token, pid) >= 10 || Entitlement(l, token, pid, a).value == 0
  {
    var e, pool := Entitlement(l, token, pid, a).value, Pool(l, token, pid);
    EntitlementWithinPool(l, token, pid, a);
    if pool >= 10 {
      CappedClaimingFinishes(l, token, pid, a);
      assert PaidInFull(l, token, pid, a, CeilDiv(e, pool / 10));
    } else if e == 0 {
      assert PaidInFull(l, token, pid, a, 0);
    } else {
      forall n: nat
        ensures !PaidInFull(l, token, pid, a, n)
      {
        SmallPoolPaysNothing(l, token, pid, a, n);
      }
    }
  }

  /** A claim pays what `claimable` shows, up to a tenth of the pool. */
  lemma ClaimFollowsPreview(l: Ledger, token: Address, pid: string, a: Address)
    requires Claim(l, token, pid, a).Some? && Get(l.totals, pid) > 0
    ensures Claimable(l, token, pid, a).Some?
            && Claim(l, token, pid, a).value.1 == Min(Claimable(l, token, pid, a).value, Pool(l, token, pid) / 10)
  {
  }
}
