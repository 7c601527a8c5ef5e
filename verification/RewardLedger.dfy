/**
 The contributor reward ledger as a value, its operations, and the laws of a whole run: totals are
 the sums of scores, and payouts never exceed the pools they come from.

 Amounts are uint256; `None` is a revert, whether by a failed `require` or by checked arithmetic.
 Periods are named by the strings whose hash the contract uses as a key.  Tokens are standard
 EIP-20 tokens: a transfer out of the contract succeeds when its balance covers it.
 */
module RewardLedger {
  import opened Options
  import opened Sums

  type Address = string

  datatype Ledger = Ledger(
    scores: map<string, map<Address, int>>,
    totals: map<string, int>,
    pools: map<Address, map<string, int>>,
    claimed: map<Address, map<string, map<Address, int>>>,
    reserveBps: int,
    threshold: int,
    reputation: map<Address, int>,
    balance: map<Address, int>)

  const ZERO_ADDRESS: Address := ""
  const BPS: int := 10000
  const DEFAULT_RESERVE_BPS: int := 1500
  const MAX_RESERVE_BPS: int := 5000

  const EMPTY_LEDGER := Ledger(map[], map[], map[], map[], DEFAULT_RESERVE_BPS, 0, map[], map[])

  function Score(l: Ledger, pid: string, a: Address): int {
    Get(GetMap(l.scores, pid), a)
  }

  function Pool(l: Ledger, token: Address, pid: string): int {
    Get(GetMap(l.pools, token), pid)
  }

  function ClaimsOf(l: Ledger, token: Address): map<string, map<Address, int>> {
    if token in l.claimed then l.claimed[token] else map[]
  }

  function Claims(l: Ledger, token: Address, pid: string): map<Address, int> {
    GetMap(ClaimsOf(l, token), pid)
  }

  function Claimed(l: Ledger, token: Address, pid: string, a: Address): int {
    Get(Claims(l, token, pid), a)
  }

  // ----- operations -----

  /** The score update shared by proofs, liquidity proofs and the owner. */
  function SetScore(l: Ledger, pid: string, a: Address, score: int): Option<Ledger> {
    var previous := Score(l, pid, a);
    var rest := Get(l.totals, pid) - (if previous > 0 then previous else 0);
    if rest < 0 || rest + score >= TWO_256 then None
    else
      Some(l.(totals := l.totals[pid := rest + score],
              scores := l.scores[pid := GetMap(l.scores, pid)[a := score]]))
  }

  /** setPeriodReward; `funded` says whether the owner's tokens arrived. */
  function Fund(l: Ledger, token: Address, pid: string, amount: int, funded: bool): Option<Ledger> {
    if token == ZERO_ADDRESS || amount <= 0 || !funded || Pool(l, token, pid) + amount >= TWO_256 then None
    else
      Some(l.(pools := l.pools[token := GetMap(l.pools, token)[pid := Pool(l, token, pid) + amount]],
              balance := l.balance[token := Get(l.balance, token) + amount]))
  }

  function SetReserve(l: Ledger, bps: int): Option<Ledger> {
    if bps > MAX_RESERVE_BPS then None else Some(l.(reserveBps := bps))
  }

  function Distributable(pool: int, reserveBps: int): int {
    pool * (BPS - reserveBps) / BPS
  }

  /** An account's whole share of a period, before what it has claimed; products may overflow. */
  function Entitlement(l: Ledger, token: Address, pid: string, a: Address): Option<int> {
    var pool, score, total := Pool(l, token, pid), Score(l, pid, a), Get(l.totals, pid);
    var d := Distributable(pool, l.reserveBps);
    if pool * (BPS - l.reserveBps) >= TWO_256 || total <= 0 || d * score >= TWO_256 then None
    else Some(d * score / total)
  }

  /** `claimable`: zero without a score, a pool or a total; a revert if more was claimed already. */
  function Claimable(l: Ledger, token: Address, pid: string, a: Address): Option<int> {
    if Score(l, pid, a) == 0 || Pool(l, token, pid) == 0 then Some(0)
    else if Pool(l, token, pid) * (BPS - l.reserveBps) >= TWO_256 then None
    else if Get(l.totals, pid) == 0 then Some(0)
    else
      var e := Entitlement(l, token, pid, a);
      if e.None? || e.value < Claimed(l, token, pid, a) then None else Some(e.value - Claimed(l, token, pid, a))
  }

  /** What claimReward would pay, before the transfer is attempted. */
  function Payout(l: Ledger, token: Address, pid: string, a: Address): Option<int> {
    if l.threshold > 0 && Get(l.reputation, a) < l.threshold then None
    else if Score(l, pid, a) <= 0 || Pool(l, token, pid) <= 0 then None
    else
      var e := Entitlement(l, token, pid, a);
      if e.None? || e.value <= Claimed(l, token, pid, a) then None
      else Some(Min(e.value - Claimed(l, token, pid, a), Pool(l, token, pid) / 10))
  }

  function Pay(l: Ledger, token: Address, pid: string, a: Address, amount: int): Ledger {
    var claims := Claims(l, token, pid)[a := Claimed(l, token, pid, a) + amount];
    l.(claimed := l.claimed[token := ClaimsOf(l, token)[pid := claims]],
       balance := l.balance[token := Get(l.balance, token) - amount])
  }

  /** claimReward. */
  function Claim(l: Ledger, token: Address, pid: string, a: Address): Option<(Ledger, int)> {
    var p := Payout(l, token, pid, a);
    if p.None? || Get(l.balance, token) < p.value then None
    else Some((Pay(l, token, pid, a, p.value), p.value))
  }

  // ----- the invariants -----

  /** A period's total is the sum of its scores. */
  ghost predicate TotalsExact(l: Ledger) {
    forall pid :: Get(l.totals, pid) == Sum(GetMap(l.scores, pid))
                  && forall a :: a in GetMap(l.scores, pid) ==> GetMap(l.scores, pid)[a] >= 0
  }

  /** Each account's claims stay within its pro-rata part of the pool. */
  ghost predicate ClaimsBounded(l: Ledger, token: Address, pid: string) {
    Pool(l, token, pid) >= 0
    && forall a :: a in Claims(l, token, pid) ==>
         var c := Claims(l, token, pid)[a];
         c >= 0
         && c * Get(l.totals, pid) <= Pool(l, token, pid) * Score(l, pid, a)
         && (c > 0 ==> Get(l.totals, pid) > 0)
  }

  ghost function SumsByPeriod(claims: map<string, map<Address, int>>): map<string, int> {
    map pid | pid in claims :: Sum(claims[pid])
  }

  ghost function TotalClaimed(l: Ledger, token: Address): int {
    Sum(SumsByPeriod(ClaimsOf(l, token)))
  }

  ghost function TotalPooled(l: Ledger, token: Address): int {
    Sum(GetMap(l.pools, token))
  }

  /** The contract holds at least what was paid in and not yet paid out. */
  ghost predicate BalanceCovers(l: Ledger, token: Address) {
    Get(l.balance, token) >= TotalPooled(l, token) - TotalClaimed(l, token)
  }

  ghost predicate Inv(l: Ledger) {
    TotalsExact(l) && 0 <= l.reserveBps <= MAX_RESERVE_BPS
    && (forall token, pid :: ClaimsBounded(l, token, pid))
    && forall token :: BalanceCovers(l, token)
  }

  // ----- the score invariant -----

  /** Every score change keeps the total exact, with no assumption about claims. */
  lemma SetScoreKeepsTotals(l: Ledger, pid: string, a: Address, score: int)
    requires TotalsExact(l) && score >= 0 && SetScore(l, pid, a, score).Some?
    ensures TotalsExact(SetScore(l, pid, a, score).value)
  {
    var l' := SetScore(l, pid, a, score).value;
    var m := GetMap(l.scores, pid);
    SumUpdate(m, a, score);
    EntryAtMostSum(m, a);
    assert Get(l.totals, pid) == Sum(m) && (a in m ==> m[a] >= 0);
    forall q
      ensures Get(l'.totals, q) == Sum(GetMap(l'.scores, q))
              && forall b :: b in GetMap(l'.scores, q) ==> GetMap(l'.scores, q)[b] >= 0
    {
      assert Get(l.totals, q) == Sum(GetMap(l.scores, q));
    }
  }

  /** With exact totals a score update can only fail by exceeding 256 bits. */
  lemma SetScoreSucceeds(l: Ledger, pid: string, a: Address, score: int)
    requires TotalsExact(l) && score >= 0
    ensures SetScore(l, pid, a, score).None? <==> Get(l.totals, pid) - Score(l, pid, a) + score >= TWO_256
  {
    EntryAtMostSum(GetMap(l.scores, pid), a);
    assert Get(l.totals, pid) == Sum(GetMap(l.scores, pid));
  }

  // ----- solvency -----

  /** What is claimed of a period is at most its pool. */
  lemma PeriodSolvent(l: Ledger, token: Address, pid: string)
    requires TotalsExact(l) && ClaimsBounded(l, token, pid)
    ensures Sum(Claims(l, token, pid)) <= Pool(l, token, pid)
  {
    var c, total, pool := Claims(l, token, pid), Get(l.totals, pid), Pool(l, token, pid);
    assert total == Sum(GetMap(l.scores, pid));
    ProRataSum(c, GetMap(l.scores, pid), total, pool);
    if total > 0 {
      ScaleLess(Sum(c), pool, total);
    } else {
      SumMonotone(c, map[]);
    }
  }

  /** Over all periods of a token: what was claimed is at most what was paid in. */
  lemma TokenSolvent(l: Ledger, token: Address)
    requires TotalsExact(l) && forall pid :: ClaimsBounded(l, token, pid)
    ensures TotalClaimed(l, token) <= TotalPooled(l, token)
  {
    var sums, pools := SumsByPeriod(ClaimsOf(l, token)), GetMap(l.pools, token);
    forall pid | pid in sums
      ensures sums[pid] <= Get(pools, pid)
    {
      PeriodSolvent(l, token, pid);
    }
    forall pid | pid in pools
      ensures pools[pid] >= 0
    {
      assert ClaimsBounded(l, token, pid);
    }
    SumMonotone(sums, pools);
  }

  /** A payout stays within the account's pro-rata part of the pool. */
  lemma PayoutWithinShare(l: Ledger, token: Address, pid: string, a: Address)
    requires Payout(l, token, pid, a).Some? && 0 <= l.reserveBps <= MAX_RESERVE_BPS
    ensures var p := Payout(l, token, pid, a).value;
            p >= 0 && Get(l.totals, pid) > 0
            && (Claimed(l, token, pid, a) + p) * Get(l.totals, pid) <= Pool(l, token, pid) * Score(l, pid, a)
  {
    var pool, score, total := Pool(l, token, pid), Score(l, pid, a), Get(l.totals, pid);
    var d, e := Distributable(pool, l.reserveBps), Entitlement(l, token, pid, a).value;
    var c := Claimed(l, token, pid, a) + Payout(l, token, pid, a).value;
    DistributableWithinPool(pool, l.reserveBps);
    FloorBounds(d * score, total);
    TimesLess(c, e, total);
    TimesLess(d, pool, score);
  }

  lemma DistributableWithinPool(pool: int, reserveBps: int)
    requires pool >= 0 && 0 <= reserveBps <= MAX_RESERVE_BPS
    ensures 0 <= Distributable(pool, reserveBps) <= pool
  {
    assert 0 <= pool * (BPS - reserveBps) <= pool * BPS by {
      TimesLess(0, pool, BPS - reserveBps);
      TimesLess(BPS - reserveBps, BPS, pool);
    }
  }

  lemma PayKeepsClaims(l: Ledger, token: Address, pid: string, a: Address, t: Address, q: string)
    requires Inv(l) && Payout(l, token, pid, a).Some?
    ensures ClaimsBounded(Pay(l, token, pid, a, Payout(l, token, pid, a).value), t, q)
  {
    var p := Payout(l, token, pid, a).value;
    var l' := Pay(l, token, pid, a, p);
    PayoutWithinShare(l, token, pid, a);
    assert ClaimsBounded(l, t, q) && ClaimsBounded(l, token, pid);
    PayClaims(l, token, pid, a, p, t, q);
  }

  lemma PayClaims(l: Ledger, token: Address, pid: string, a: Address, p: int, t: Address, q: string)
    ensures Claims(Pay(l, token, pid, a, p), t, q) ==
            if t == token && q == pid then Claims(l, t, q)[a := Claimed(l, token, pid, a) + p] else Claims(l, t, q)
  {
  }

  lemma PayAddsUp(l: Ledger, token: Address, pid: string, a: Address, amount: int)
    ensures TotalClaimed(Pay(l, token, pid, a, amount), token) == TotalClaimed(l, token) + amount
  {
    var claims := ClaimsOf(l, token);
    assert ClaimsOf(Pay(l, token, pid, a, amount), token)
        == claims[pid := GetMap(claims, pid)[a := Get(GetMap(claims, pid), a) + amount]];
    ClaimMore(claims, pid, a, amount);
  }

  lemma ClaimMore(claims: map<string, map<Address, int>>, pid: string, a: Address, amount: int)
    ensures var c := GetMap(claims, pid);
            Sum(SumsByPeriod(claims[pid := c[a := Get(c, a) + amount]])) == Sum(SumsByPeriod(claims)) + amount
  {
    var c := GetMap(claims, pid);
    ReplacePeriod(claims, pid, c[a := Get(c, a) + amount]);
    SumUpdate(c, a, Get(c, a) + amount);
  }

  lemma ReplacePeriod(claims: map<string, map<Address, int>>, pid: string, c: map<Address, int>)
    ensures Sum(SumsByPeriod(claims[pid := c])) == Sum(SumsByPeriod(claims)) - Sum(GetMap(claims, pid)) + Sum(c)
  {
    assert SumsByPeriod(claims[pid := c]) == SumsByPeriod(claims)[pid := Sum(c)];
    SumUpdate(SumsByPeriod(claims), pid, Sum(c));
  }

  /** The shared balance always covers a payout: claims never fail at the transfer. */
  lemma TransferNeverFails(l: Ledger, token: Address, pid: string, a: Address)
    requires Inv(l) && Payout(l, token, pid, a).Some?
    ensures Claim(l, token, pid, a).Some?
  {
    var p := Payout(l, token, pid, a).value;
    var l' := Pay(l, token, pid, a, p);
    forall q
      ensures ClaimsBounded(l', token, q)
    {
      PayKeepsClaims(l, token, pid, a, token, q);
    }
    assert TotalsExact(l');
    TokenSolvent(l', token);
    PayAddsUp(l, token, pid, a, p);
    assert BalanceCovers(l, token);
  }

  lemma ClaimKeepsInv(l: Ledger, token: Address, pid: string, a: Address)
    requires Inv(l) && Claim(l, token, pid, a).Some?
    ensures Inv(Claim(l, token, pid, a).value.0)
  {
    var (l', p) := Claim(l, token, pid, a).value;
    forall t, q
      ensures ClaimsBounded(l', t, q)
    {
      PayKeepsClaims(l, token, pid, a, t, q);
    }
    forall t
      ensures BalanceCovers(l', t)
    {
      assert BalanceCovers(l, t);
      PayAddsUp(l, token, pid, a, p);
      assert t != token ==> ClaimsOf(l', t) == ClaimsOf(l, t);
    }
    assert TotalsExact(l');
  }

  lemma FundKeepsClaims(l: Ledger, l': Ledger, t: Address, q: string)
    requires TotalsExact(l) && ClaimsBounded(l, t, q)
    requires l'.scores == l.scores && l'.totals == l.totals && Claims(l', t, q) == Claims(l, t, q)
    requires Pool(l, t, q) <= Pool(l', t, q)
    ensures ClaimsBounded(l', t, q)
  {
    forall a | a in Claims(l', t, q)
      ensures Claims(l, t, q)[a] * Get(l.totals, q) <= Pool(l', t, q) * Score(l, q, a)
    {
      ScoreNonNegative(l, q, a);
      TimesLess(Pool(l, t, q), Pool(l', t, q), Score(l, q, a));
    }
  }

  lemma FundKeepsInv(l: Ledger, token: Address, pid: string, amount: int, funded: bool)
    requires Inv(l) && Fund(l, token, pid, amount, funded).Some?
    ensures Inv(Fund(l, token, pid, amount, funded).value)
  {
    var l' := Fund(l, token, pid, amount, funded).value;
    forall t, q
      ensures ClaimsBounded(l', t, q)
    {
      assert ClaimsBounded(l, t, q);
      FundKeepsClaims(l, l', t, q);
    }
    forall t
      ensures BalanceCovers(l', t)
    {
      FundKeepsBalance(l, token, pid, amount, funded, t);
    }
    assert TotalsExact(l');
  }

  lemma FundKeepsBalance(l: Ledger, token: Address, pid: string, amount: int, funded: bool, t: Address)
    requires BalanceCovers(l, t) && Fund(l, token, pid, amount, funded).Some?
    ensures BalanceCovers(Fund(l, token, pid, amount, funded).value, t)
  {
    SumUpdate(GetMap(l.pools, token), pid, Pool(l, token, pid) + amount);
    assert TotalClaimed(Fund(l, token, pid, amount, funded).value, t) == TotalClaimed(l, t);
  }

  lemma ScoreNonNegative(l: Ledger, pid: string, a: Address)
    requires TotalsExact(l)
    ensures Score(l, pid, a) >= 0
  {
    assert Get(l.totals, pid) == Sum(GetMap(l.scores, pid));
  }

  /** Nothing has been claimed of a period, in any token. */
  ghost predicate Unclaimed(l: Ledger, pid: string) {
    forall token, a :: a in Claims(l, token, pid) ==> Claims(l, token, pid)[a] == 0
  }

  lemma ZeroClaimsBounded(l: Ledger, t: Address, q: string)
    requires TotalsExact(l) && Pool(l, t, q) >= 0
    requires forall a :: a in Claims(l, t, q) ==> Claims(l, t, q)[a] == 0
    ensures ClaimsBounded(l, t, q)
  {
    forall a | a in Claims(l, t, q)
      ensures Pool(l, t, q) * Score(l, q, a) >= 0
    {
      ScoreNonNegative(l, q, a);
      Product(Pool(l, t, q), Score(l, q, a));
    }
  }

  lemma SamePeriodBounded(l: Ledger, l': Ledger, t: Address, q: string)
    requires ClaimsBounded(l, t, q)
    requires Claims(l', t, q) == Claims(l, t, q) && Pool(l', t, q) == Pool(l, t, q)
    requires GetMap(l'.scores, q) == GetMap(l.scores, q) && Get(l'.totals, q) == Get(l.totals, q)
    ensures ClaimsBounded(l', t, q)
  {
    assert forall a :: Score(l', q, a) == Score(l, q, a);
  }

  lemma SetScoreKeepsClaims(l: Ledger, pid: string, a: Address, score: int, t: Address, q: string)
    requires Inv(l) && SetScore(l, pid, a, score).Some? && Unclaimed(l, pid)
    requires TotalsExact(SetScore(l, pid, a, score).value)
    ensures ClaimsBounded(SetScore(l, pid, a, score).value, t, q)
  {
    assert ClaimsBounded(l, t, q);
    if q == pid {
      ZeroClaimsBounded(SetScore(l, pid, a, score).value, t, q);
    } else {
      SamePeriodBounded(l, SetScore(l, pid, a, score).value, t, q);
    }
  }

  lemma SetScoreKeepsInv(l: Ledger, pid: string, a: Address, score: int)
    requires Inv(l) && score >= 0 && SetScore(l, pid, a, score).Some? && Unclaimed(l, pid)
    ensures Inv(SetScore(l, pid, a, score).value)
  {
    var l' := SetScore(l, pid, a, score).value;
    SetScoreKeepsTotals(l, pid, a, score);
    forall t, q
      ensures ClaimsBounded(l', t, q)
    {
      SetScoreKeepsClaims(l, pid, a, score, t, q);
    }
    forall t
      ensures BalanceCovers(l', t)
    {
      assert BalanceCovers(l, t);
    }
  }

  // ----- runs -----

  datatype Op =
    | SetScoreOp(pid: string, account: Address, score: int)
    | FundOp(token: Address, pid: string, amount: int, funded: bool)
    | SetReserveOp(bps: int)
    | ReputationOp(threshold: int, reputation: map<Address, int>)
    | ClaimOp(token: Address, pid: string, account: Address)
    | DepositOp(token: Address, deposit: nat)

  /** A reverted call leaves the ledger as it was; anyone may send tokens to the contract. */
  function Apply(l: Ledger, op: Op): Ledger {
    match op
    case SetScoreOp(pid, a, score) => SetScore(l, pid, a, score).GetOr(l)
    case FundOp(token, pid, amount, funded) => Fund(l, token, pid, amount, funded).GetOr(l)
    case SetReserveOp(bps) => SetReserve(l, bps).GetOr(l)
    case ReputationOp(threshold, reputation) => l.(threshold := threshold, reputation := reputation)
    case ClaimOp(token, pid, a) => Claim(l, token, pid, a).GetOr((l, 0)).0
    case DepositOp(token, amount) => l.(balance := l.balance[token := Get(l.balance, token) + amount])
  }

  function ApplyAll(ops: seq<Op>): Ledger {
    if ops == [] then EMPTY_LEDGER else Apply(ApplyAll(ops[..|ops| - 1]), ops[|ops| - 1])
  }

  /** Arguments are uint256, and scores of a period stay fixed from its first claim on. */
  ghost predicate Allowed(l: Ledger, op: Op) {
    (op.SetScoreOp? ==> op.score >= 0 && Unclaimed(l, op.pid)) && (op.SetReserveOp? ==> op.bps >= 0)
  }

  lemma ApplyKeepsInv(l: Ledger, op: Op)
    requires Inv(l) && Allowed(l, op)
    ensures Inv(Apply(l, op))
  {
    match op
    case SetScoreOp(pid, a, score) =>
      if SetScore(l, pid, a, score).Some? {
        SetScoreKeepsInv(l, pid, a, score);
      }
    case FundOp(token, pid, amount, funded) =>
      if Fund(l, token, pid, amount, funded).Some? {
        FundKeepsInv(l, token, pid, amount, funded);
      }
    case ClaimOp(token, pid, a) =>
      if Claim(l, token, pid, a).Some? {
        ClaimKeepsInv(l, token, pid, a);
      }
    case SetReserveOp(bps) => QuietKeepsInv(l, Apply(l, op));
    case ReputationOp(threshold, reputation) => QuietKeepsInv(l, Apply(l, op));
    case DepositOp(token, amount) => QuietKeepsInv(l, Apply(l, op));
  }

  /** Calls that touch neither scores nor pools nor claims, and lower no balance. */
  lemma QuietKeepsInv(l: Ledger, l': Ledger)
    requires Inv(l) && 0 <= l'.reserveBps <= MAX_RESERVE_BPS
    requires l'.scores == l.scores && l'.totals == l.totals && l'.pools == l.pools && l'.claimed == l.claimed
    requires forall t :: Get(l.balance, t) <= Get(l'.balance, t)
    ensures Inv(l')
  {
    forall t, q
      ensures ClaimsBounded(l', t, q)
    {
      assert ClaimsBounded(l, t, q);
      assert Claims(l', t, q) == Claims(l, t, q);
    }
    forall t
      ensures BalanceCovers(l', t)
    {
      assert BalanceCovers(l, t);
    }
    assert TotalsExact(l');
  }

  lemma EmptyInv()
    ensures Inv(EMPTY_LEDGER)
  {
    assert SumsByPeriod(map[]) == map[];
  }

  /**
   In every run in which scores stay fixed once claimed on: totals are exact, no period pays out
   more than its pool, and no claim that passes its checks fails for lack of tokens.
   */
  lemma {:induction false} RunsAreSolvent(ops: seq<Op>)
    requires forall i :: 0 <= i < |ops| ==> Allowed(ApplyAll(ops[..i]), ops[i])
    ensures Inv(ApplyAll(ops))
  {
    if ops == [] {
      EmptyInv();
    } else {
      var init := ops[..|ops| - 1];
      forall i | 0 <= i < |init|
        ensures Allowed(ApplyAll(init[..i]), init[i])
      {
        assert init[..i] == ops[..i] && Allowed(ApplyAll(ops[..i]), ops[i]);
      }
      RunsAreSolvent(init);
      assert Allowed(ApplyAll(ops[..|ops| - 1]), ops[|ops| - 1]);
      ApplyKeepsInv(ApplyAll(init), ops[|ops| - 1]);
    }
  }

  lemma RunsPayWithinPools(ops: seq<Op>, token: Address, pid: string, a: Address)
    requires forall i :: 0 <= i < |ops| ==> Allowed(ApplyAll(ops[..i]), ops[i])
    ensures var l := ApplyAll(ops);
            Get(l.totals, pid) == Sum(GetMap(l.scores, pid))
            && Sum(Claims(l, token, pid)) <= Pool(l, token, pid)
            && TotalClaimed(l, token) <= TotalPooled(l, token)
            && (Payout(l, token, pid, a).Some? ==> Claim(l, token, pid, a).Some?)
  {
    RunsAreSolvent(ops);
    var l := ApplyAll(ops);
    assert ClaimsBounded(l, token, pid);
    PeriodSolvent(l, token, pid);
    TokenSolvent(l, token);
    if Payout(l, token, pid, a).Some? {
      TransferNeverFails(l, token, pid, a);
    }
  }
}
