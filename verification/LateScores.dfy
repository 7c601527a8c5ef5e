/**
 Scores set after a period's first claim: a run that overdraws its period, and exactly when a
 period can still be overdrawn.
 */
module LateScores {
  import opened Options
  import opened Sums
  import opened RewardLedger

  // ----- a period that is overdrawn -----

  const SETUP: seq<Op> := [
    SetReserveOp(0), SetScoreOp("p", "A", 1), FundOp("t", "p", 100, true), FundOp("t", "q", 100, true)]

  /** Periods p and q with pools of 100 tokens; account A, alone in p, has claimed n times. */
  function Drawn(n: nat): Ledger {
    Ledger(
      map["p" := map["A" := 1]], map["p" := 1],
      map["t" := map["p" := 100, "q" := 100]],
      if n == 0 then map[] else map["t" := map["p" := map["A" := 10 * n]]],
      0, 0, map[], map["t" := 200 - 10 * n])
  }

  function DrawingOps(n: nat): seq<Op> {
    if n == 0 then SETUP else DrawingOps(n - 1) + [ClaimOp("t", "p", "A")]
  }

  lemma ApplySnoc(ops: seq<Op>, op: Op)
    ensures ApplyAll(ops + [op]) == Apply(ApplyAll(ops), op)
  {
    assert (ops + [op])[..|ops|] == ops;
  }

  /** The ledger once A has its score and the reserve is zero, with these pools. */
  function Scored(pools: map<Address, map<string, int>>, balance: map<Address, int>): Ledger {
    Ledger(map["p" := map["A" := 1]], map["p" := 1], pools, map[], 0, 0, map[], balance)
  }

  lemma ScoreStep()
    ensures Apply(Apply(EMPTY_LEDGER, SETUP[0]), SETUP[1]) == Scored(map[], map[])
  {
    var l := EMPTY_LEDGER.(reserveBps := 0);
    assert Apply(EMPTY_LEDGER, SETUP[0]) == l;
    assert SetScore(l, "p", "A", 1) == Some(Scored(map[], map[]));
  }

  lemma FundSteps()
    ensures Apply(Apply(Scored(map[], map[]), SETUP[2]), SETUP[3]) == Drawn(0)
  {
    var l := Scored(map["t" := map["p" := 100]], map["t" := 100]);
    assert Fund(Scored(map[], map[]), "t", "p", 100, true) == Some(l);
    assert map["t" := map["p" := 100]]["t" := map["p" := 100]["q" := 100]] == map["t" := map["p" := 100, "q" := 100]];
    assert map["t" := 100]["t" := 200] == map["t" := 200];
    assert Fund(l, "t", "q", 100, true) == Some(Drawn(0));
  }

  lemma SetupReachesDrawn()
    ensures ApplyAll(SETUP) == Drawn(0)
  {
    var a, b, c, d := SETUP[0], SETUP[1], SETUP[2], SETUP[3];
    assert SETUP == [] + [a] + [b] + [c] + [d];
    ApplySnoc([], a);
    ApplySnoc([] + [a], b);
    ApplySnoc([] + [a] + [b], c);
    ApplySnoc([] + [a] + [b] + [c], d);
    ScoreStep();
    FundSteps();
  }

  lemma DrawPays(n: nat)
    requires n < 10
    ensures Pay(Drawn(n), "t", "p", "A", 10) == Drawn(n + 1)
  {
    var l := Drawn(n);
    assert Claimed(l, "t", "p", "A") == 10 * n;
    if n > 0 {
      assert map["A" := 10 * n]["A" := 10 * n + 10] == map["A" := 10 * (n + 1)];
      assert map["p" := map["A" := 10 * n]]["p" := map["A" := 10 * (n + 1)]] == map["p" := map["A" := 10 * (n + 1)]];
    }
    assert Pay(l, "t", "p", "A", 10).claimed == map["t" := map["p" := map["A" := 10 * (n + 1)]]];
    assert Pay(l, "t", "p", "A", 10).balance == map["t" := 200 - 10 * (n + 1)];
  }

  lemma DrawOnce(n: nat)
    requires n < 10
    ensures Claim(Drawn(n), "t", "p", "A") == Some((Drawn(n + 1), 10))
  {
    var l := Drawn(n);
    assert Claimed(l, "t", "p", "A") == 10 * n;
    assert Entitlement(l, "t", "p", "A") == Some(100);
    assert Payout(l, "t", "p", "A") == Some(10);
    DrawPays(n);
  }

  /** The drawn ledger is what four calls and n claims make of an empty one. */
  lemma {:induction false} DrawnIsReachable(n: nat)
    requires n <= 10
    ensures ApplyAll(DrawingOps(n)) == Drawn(n)
  {
    if n == 0 {
      SetupReachesDrawn();
    } else {
      DrawnIsReachable(n - 1);
      DrawOnce(n - 1);
      ApplySnoc(DrawingOps(n - 1), ClaimOp("t", "p", "A"));
    }
  }

  lemma SumOne<K>(k: K, v: int)
    ensures Sum(map[k := v]) == v
  {
    SumTakeOut(map[k := v], k);
    assert map[k := v] - {k} == map[];
  }

  /**
   Why scores must stay fixed once claimed on: after A has drawn the whole of period p, a score for
   B lets B draw as well, from the tokens of period q, and p has paid more than its pool.
   */
  lemma LateScoreOverdraws()
    ensures var ops := DrawingOps(10) + [SetScoreOp("p", "B", 9)] + [ClaimOp("t", "p", "B")];
            var l := ApplyAll(ops);
            Sum(Claims(l, "t", "p")) == 110 && Pool(l, "t", "p") == 100
  {
    var late, claim := SetScoreOp("p", "B", 9), ClaimOp("t", "p", "B");
    DrawnIsReachable(10);
    ApplySnoc(DrawingOps(10), late);
    ApplySnoc(DrawingOps(10) + [late], claim);
    LateClaim();
  }

  /** B's score after A's ten claims. */
  function Late(): Ledger {
    Drawn(10).(scores := map["p" := map["A" := 1]["B" := 9]], totals := map["p" := 10])
  }

  lemma LateScoreIsSet()
    ensures SetScore(Drawn(10), "p", "B", 9) == Some(Late())
  {
    assert map["p" := 1]["p" := 10] == map["p" := 10];
    assert map["p" := map["A" := 1]]["p" := map["A" := 1]["B" := 9]] == map["p" := map["A" := 1]["B" := 9]];
  }

  lemma LateClaim()
    ensures var l := Apply(Apply(Drawn(10), SetScoreOp("p", "B", 9)), ClaimOp("t", "p", "B"));
            Sum(Claims(l, "t", "p")) == 110 && Pool(l, "t", "p") == 100
  {
    LateScoreIsSet();
    var l := Late();
    assert Score(l, "p", "B") == 9 && Get(l.totals, "p") == 10 && Pool(l, "t", "p") == 100;
    assert Claimed(l, "t", "p", "B") == 0;
    assert Entitlement(l, "t", "p", "B") == Some(90);
    assert Payout(l, "t", "p", "B") == Some(10);
    assert Claim(l, "t", "p", "B") == Some((Pay(l, "t", "p", "B", 10), 10));
    assert Claims(Pay(l, "t", "p", "B", 10), "t", "p") == map["A" := 100]["B" := 10];
    SumOne("A", 100);
    SumUpdate(map["A" := 100], "B", 10);
  }

  // ----- when a period can be overdrawn -----

  /** The account passes every check of claimReward but the last. */
  predicate Eligible(l: Ledger, token: Address, pid: string, a: Address) {
    !(l.threshold > 0 && Get(l.reputation, a) < l.threshold)
    && Score(l, pid, a) > 0 && Pool(l, token, pid) > 0 && Entitlement(l, token, pid, a).Some?
  }

  /** The most the account can ever have claimed while pool, scores and reserve stay as they are. */
  function Ceiling(l: Ledger, token: Address, pid: string, a: Address): int {
    var c := Claimed(l, token, pid, a);
    if Eligible(l, token, pid, a) && Entitlement(l, token, pid, a).value > c then Entitlement(l, token, pid, a).value
    else c
  }

  function Accounts(l: Ledger, token: Address, pid: string): set<Address> {
    GetMap(l.scores, pid).Keys + Claims(l, token, pid).Keys
  }

  function Ceilings(l: Ledger, token: Address, pid: string): map<Address, int> {
    map a | a in Accounts(l, token, pid) :: Ceiling(l, token, pid, a)
  }

  /** Claims by these accounts one after the other; those that revert change nothing. */
  function ClaimSeq(l: Ledger, token: Address, pid: string, accounts: seq<Address>): Ledger {
    if accounts == [] then l
    else
      Apply(ClaimSeq(l, token, pid, accounts[..|accounts| - 1]), ClaimOp(token, pid, accounts[|accounts| - 1]))
  }

  /** `r` is `l` after some claims on the period. */
  ghost predicate Drawing(l: Ledger, r: Ledger, token: Address, pid: string) {
    r.scores == l.scores && r.totals == l.totals && r.pools == l.pools && r.reserveBps == l.reserveBps
    && r.threshold == l.threshold && r.reputation == l.reputation
    && Claims(r, token, pid).Keys <= Accounts(l, token, pid)
    && (forall a :: 0 <= Claimed(l, token, pid, a) <= Claimed(r, token, pid, a) <= Ceiling(l, token, pid, a))
    && Get(r.balance, token) + Sum(Claims(r, token, pid)) == Get(l.balance, token) + Sum(Claims(l, token, pid))
  }

  ghost predicate NoNegativeClaims(l: Ledger, token: Address, pid: string) {
    forall a :: Claimed(l, token, pid, a) >= 0
  }

  lemma PayoutBounds(l: Ledger, r: Ledger, token: Address, pid: string, a: Address)
    requires Drawing(l, r, token, pid)
    ensures Payout(r, token, pid, a).Some? <==> Claimed(r, token, pid, a) < Ceiling(l, token, pid, a)
    ensures Payout(r, token, pid, a).Some? ==>
              a in Accounts(l, token, pid)
              && Payout(r, token, pid, a).value
                 == Min(Ceiling(l, token, pid, a) - Claimed(r, token, pid, a), Pool(l, token, pid) / 10)
  {
    assert Eligible(r, token, pid, a) <==> Eligible(l, token, pid, a);
    assert Entitlement(r, token, pid, a) == Entitlement(l, token, pid, a);
    assert Claimed(l, token, pid, a) <= Claimed(r, token, pid, a) <= Ceiling(l, token, pid, a);
  }

  /** A payment moves tokens from the balance to the claims. */
  lemma PayKeepsBalance(r: Ledger, token: Address, pid: string, a: Address, p: int)
    ensures var r' := Pay(r, token, pid, a, p);
            Get(r'.balance, token) + Sum(Claims(r', token, pid)) == Get(r.balance, token) + Sum(Claims(r, token, pid))
  {
    PayClaims(r, token, pid, a, p, token, pid);
    SumUpdate(Claims(r, token, pid), a, Claimed(r, token, pid, a) + p);
  }

  lemma PayKeepsDrawing(l: Ledger, r: Ledger, token: Address, pid: string, a: Address, p: int)
    requires Drawing(l, r, token, pid) && p >= 0 && a in Accounts(l, token, pid)
    requires Claimed(r, token, pid, a) + p <= Ceiling(l, token, pid, a)
    ensures Drawing(l, Pay(r, token, pid, a, p), token, pid)
  {
    var r' := Pay(r, token, pid, a, p);
    PayClaims(r, token, pid, a, p, token, pid);
    PayKeepsBalance(r, token, pid, a, p);
    forall b
      ensures 0 <= Claimed(l, token, pid, b) <= Claimed(r', token, pid, b) <= Ceiling(l, token, pid, b)
    {
      assert 0 <= Claimed(l, token, pid, b) <= Claimed(r, token, pid, b) <= Ceiling(l, token, pid, b);
    }
  }

  lemma ClaimKeepsDrawing(l: Ledger, r: Ledger, token: Address, pid: string, a: Address)
    requires Drawing(l, r, token, pid)
    ensures Drawing(l, Apply(r, ClaimOp(token, pid, a)), token, pid)
  {
    PayoutBounds(l, r, token, pid, a);
    if Claim(r, token, pid, a).Some? {
      PayKeepsDrawing(l, r, token, pid, a, Payout(r, token, pid, a).value);
    }
  }

  lemma {:induction false} ClaimsKeepDrawing(l: Ledger, token: Address, pid: string, accounts: seq<Address>)
    requires NoNegativeClaims(l, token, pid)
    ensures Drawing(l, ClaimSeq(l, token, pid, accounts), token, pid)
  {
    if accounts == [] {
      forall a
        ensures 0 <= Claimed(l, token, pid, a) <= Ceiling(l, token, pid, a)
      {
      }
    } else {
      var init := accounts[..|accounts| - 1];
      ClaimsKeepDrawing(l, token, pid, init);
      ClaimKeepsDrawing(l, ClaimSeq(l, token, pid, init), token, pid, accounts[|accounts| - 1]);
    }
  }

  lemma DrawnWithinCeilings(l: Ledger, r: Ledger, token: Address, pid: string)
    requires Drawing(l, r, token, pid)
    ensures Sum(Claims(r, token, pid)) <= Sum(Ceilings(l, token, pid))
  {
    var c, m := Claims(r, token, pid), Ceilings(l, token, pid);
    forall a | a in c
      ensures c[a] <= Get(m, a)
    {
      assert Claimed(r, token, pid, a) <= Ceiling(l, token, pid, a);
    }
    forall a | a in m
      ensures m[a] >= 0
    {
      assert 0 <= Claimed(l, token, pid, a) <= Ceiling(l, token, pid, a);
    }
    SumMonotone(c, m);
  }

  /** What one account still has to draw is part of what all have. */
  lemma RoomForOne(l: Ledger, r: Ledger, token: Address, pid: string, a: Address)
    requires Drawing(l, r, token, pid) && a in Accounts(l, token, pid)
    ensures Ceiling(l, token, pid, a) - Claimed(r, token, pid, a)
            <= Sum(Ceilings(l, token, pid)) - Sum(Claims(r, token, pid))
  {
    var c, m := Claims(r, token, pid), Ceilings(l, token, pid);
    SumTakeOut(c, a);
    SumTakeOut(m, a);
    forall b | b in c - {a}
      ensures (c - {a})[b] <= Get(m - {a}, b)
    {
      assert Claimed(r, token, pid, b) <= Ceiling(l, token, pid, b);
    }
    forall b | b in m - {a}
      ensures (m - {a})[b] >= 0
    {
      assert 0 <= Claimed(l, token, pid, b) <= Ceiling(l, token, pid, b);
    }
    SumMonotone(c - {a}, m - {a});
  }

  /** The balance covers everything anyone may still draw from the period. */
  ghost predicate Covered(l: Ledger, token: Address, pid: string) {
    Get(l.balance, token) >= Sum(Ceilings(l, token, pid)) - Sum(Claims(l, token, pid))
  }

  lemma PayRaises(r: Ledger, token: Address, pid: string, a: Address, p: int)
    requires p > 0
    ensures Claimed(Pay(r, token, pid, a, p), token, pid, a) > Claimed(r, token, pid, a)
    ensures forall b :: Claimed(Pay(r, token, pid, a, p), token, pid, b) >= Claimed(r, token, pid, b)
  {
    assert Claims(Pay(r, token, pid, a, p), token, pid) == Claims(r, token, pid)[a := Claimed(r, token, pid, a) + p];
  }

  /** An account below its ceiling gets something. */
  lemma ClaimAdvances(l: Ledger, r: Ledger, token: Address, pid: string, a: Address)
    requires Drawing(l, r, token, pid) && Covered(l, token, pid) && Pool(l, token, pid) >= 10
    requires Claimed(r, token, pid, a) < Ceiling(l, token, pid, a)
    ensures Claimed(Apply(r, ClaimOp(token, pid, a)), token, pid, a) > Claimed(r, token, pid, a)
    ensures forall b :: Claimed(Apply(r, ClaimOp(token, pid, a)), token, pid, b) >= Claimed(r, token, pid, b)
  {
    PayoutBounds(l, r, token, pid, a);
    RoomForOne(l, r, token, pid, a);
    PayRaises(r, token, pid, a, Payout(r, token, pid, a).value);
  }

  lemma ClaimSeqSnoc(l: Ledger, token: Address, pid: string, accounts: seq<Address>, a: Address)
    ensures ClaimSeq(l, token, pid, accounts + [a]) == Apply(ClaimSeq(l, token, pid, accounts), ClaimOp(token, pid, a))
  {
    assert (accounts + [a])[..|accounts|] == accounts;
  }

  /** Claiming on, one account reaches its ceiling and no other falls back. */
  lemma DrawOneOut(l: Ledger, token: Address, pid: string, before: seq<Address>, a: Address)
    returns (accounts: seq<Address>)
    requires NoNegativeClaims(l, token, pid) && Covered(l, token, pid) && Pool(l, token, pid) >= 10
    ensures var r, r' := ClaimSeq(l, token, pid, before), ClaimSeq(l, token, pid, accounts);
            Claimed(r', token, pid, a) == Ceiling(l, token, pid, a)
            && forall b :: Claimed(r', token, pid, b) >= Claimed(r, token, pid, b)
  {
    accounts := before;
    var r := ClaimSeq(l, token, pid, before);
    ClaimsKeepDrawing(l, token, pid, accounts);
    while Claimed(ClaimSeq(l, token, pid, accounts), token, pid, a) < Ceiling(l, token, pid, a)
      invariant Drawing(l, ClaimSeq(l, token, pid, accounts), token, pid)
      invariant forall b :: Claimed(ClaimSeq(l, token, pid, accounts), token, pid, b) >= Claimed(r, token, pid, b)
      decreases Ceiling(l, token, pid, a) - Claimed(ClaimSeq(l, token, pid, accounts), token, pid, a)
    {
      ClaimAdvances(l, ClaimSeq(l, token, pid, accounts), token, pid, a);
      ClaimSeqSnoc(l, token, pid, accounts, a);
      ClaimsKeepDrawing(l, token, pid, accounts + [a]);
      accounts := accounts + [a];
    }
  }

  /** There are claims after which every account has drawn all it can. */
  lemma DrawAllOut(l: Ledger, token: Address, pid: string) returns (accounts: seq<Address>)
    requires NoNegativeClaims(l, token, pid) && Covered(l, token, pid) && Pool(l, token, pid) >= 10
    ensures Sum(Claims(ClaimSeq(l, token, pid, accounts), token, pid)) == Sum(Ceilings(l, token, pid))
  {
    accounts := [];
    var all := Accounts(l, token, pid);
    var todo := all;
    while todo != {}
      invariant todo <= all
      invariant forall a :: a in all - todo ==>
                  Claimed(ClaimSeq(l, token, pid, accounts), token, pid, a) >= Ceiling(l, token, pid, a)
      decreases |todo|
    {
      var a :| a in todo;
      accounts := DrawOneOut(l, token, pid, accounts, a);
      todo := todo - {a};
    }
    var r := ClaimSeq(l, token, pid, accounts);
    ClaimsKeepDrawing(l, token, pid, accounts);
    DrawnWithinCeilings(l, r, token, pid);
    forall a | a in Claims(r, token, pid)
      ensures Claims(r, token, pid)[a] >= 0
    {
      assert 0 <= Claimed(l, token, pid, a) <= Claimed(r, token, pid, a);
    }
    SumMonotone(Ceilings(l, token, pid), Claims(r, token, pid));
  }

  /** From a pool below ten no claim moves anything. */
  lemma {:induction false} SmallPoolClaimsNothing(l: Ledger, token: Address, pid: string, accounts: seq<Address>)
    requires NoNegativeClaims(l, token, pid) && Pool(l, token, pid) < 10
    ensures Sum(Claims(ClaimSeq(l, token, pid, accounts), token, pid)) == Sum(Claims(l, token, pid))
  {
    if accounts != [] {
      var init, a := accounts[..|accounts| - 1], accounts[|accounts| - 1];
      var r := ClaimSeq(l, token, pid, init);
      SmallPoolClaimsNothing(l, token, pid, init);
      ClaimsKeepDrawing(l, token, pid, init);
      SmallPoolClaim(l, r, token, pid, a);
    }
  }

  lemma SmallPoolClaim(l: Ledger, r: Ledger, token: Address, pid: string, a: Address)
    requires Drawing(l, r, token, pid) && Pool(l, token, pid) < 10
    ensures Sum(Claims(Apply(r, ClaimOp(token, pid, a)), token, pid)) == Sum(Claims(r, token, pid))
  {
    if Claim(r, token, pid, a).Some? {
      SmallPoolPaysZero(l, r, token, pid, a);
      PayClaims(r, token, pid, a, 0, token, pid);
      SumUpdate(Claims(r, token, pid), a, Claimed(r, token, pid, a));
    }
  }

  lemma SmallPoolPaysZero(l: Ledger, r: Ledger, token: Address, pid: string, a: Address)
    requires Drawing(l, r, token, pid) && Pool(l, token, pid) < 10 && Payout(r, token, pid, a).Some?
    ensures Payout(r, token, pid, a) == Some(0)
  {
    PayoutBounds(l, r, token, pid, a);
    assert Pool(r, token, pid) == Pool(l, token, pid) > 0;
  }

  /** The most all accounts together can have claimed of the period, while nothing else changes. */
  ghost function Reachable(l: Ledger, token: Address, pid: string): int {
    if Pool(l, token, pid) >= 10 then Sum(Ceilings(l, token, pid)) else Sum(Claims(l, token, pid))
  }

  ghost predicate NeverOverdrawn(l: Ledger, token: Address, pid: string) {
    forall accounts :: Sum(Claims(ClaimSeq(l, token, pid, accounts), token, pid)) <= Pool(l, token, pid)
  }

  /**
   Whatever scores were set and whenever: with pool, scores and reserve fixed from now on and, where
   the pool is large enough to pay at all, a balance that covers what may still be drawn, no sequence
   of claims overdraws the period if and only if what can be reached is at most the pool.
   */
  lemma StaysWithinPoolIff(l: Ledger, token: Address, pid: string)
    requires NoNegativeClaims(l, token, pid) && (Pool(l, token, pid) >= 10 ==> Covered(l, token, pid))
    ensures NeverOverdrawn(l, token, pid) <==> Reachable(l, token, pid) <= Pool(l, token, pid)
  {
    var pool := Pool(l, token, pid);
    if Reachable(l, token, pid) <= pool {
      forall accounts
        ensures Sum(Claims(ClaimSeq(l, token, pid, accounts), token, pid)) <= pool
      {
        if pool >= 10 {
          ClaimsKeepDrawing(l, token, pid, accounts);
          DrawnWithinCeilings(l, ClaimSeq(l, token, pid, accounts), token, pid);
        } else {
          SmallPoolClaimsNothing(l, token, pid, accounts);
        }
      }
    } else {
      var accounts := [];
      if pool >= 10 {
        accounts := DrawAllOut(l, token, pid);
      }
      assert Sum(Claims(ClaimSeq(l, token, pid, accounts), token, pid)) > pool;
    }
  }
}
