/** What each kind of node earns, by what its score has to satisfy. */
module ScoreTerms {
  import opened Options
  import opened Sums
  import opened RewardScores

  const ONE: int := 1_000_000_000_000_000_000

  /** `p` is `x` out of `most`, in units of 10^-18 rounded down, and never more than one. */
  predicate IsFraction(x: nat, most: int, p: int) {
    if x >= most then p == ONE else p * most <= x * ONE < (p + 1) * most
  }

  lemma PartIsFraction(x: nat, most: int, p: int)
    requires most > 0 && IsFraction(x, most, p)
    ensures Part(x, most) == if x * ONE < TWO_256 then Some(p) else None
  {
    FloorIsLargest(x * ONE, most, p);
    FloorIsLargest(x * ONE, most, p + 1);
    FloorIsLargest(x * ONE, most, ONE);
    if x >= most {
      TimesLess(most, x, ONE);
    } else {
      TimesLess(x, most, ONE);
      ScaleLess(p, ONE, most);
    }
    assert ONE * most == most * ONE;
  }

  /**
   Matching nodes earn 40 times uptime plus half of each of their two fractions, storage nodes 25 times
   and relays 15 times uptime plus their one fraction, liquidity nodes 20 times uptime.
   */
  lemma ScoresOnTheseTerms(m: Metrics, nodeType: nat, p: int, q: int)
    requires nodeType == 2 ==> IsFraction(m.tradesMatched, 1_000_000, p)
                               && IsFraction(m.volumeMatched, 1_000_000_000_000_000_000_000_000, q)
    requires nodeType == 1 ==> IsFraction(m.storageUsedGB, 1000, p)
    requires nodeType != 1 && nodeType != 2 && nodeType != 3 ==> IsFraction(m.bytesRelayed, 1_000_000_000_000, p)
    ensures ComputeScore(m, nodeType)
            == if nodeType == 2 then
                 if m.tradesMatched * ONE < TWO_256 && m.volumeMatched * ONE < TWO_256
                 then Some((m.uptime + p / 2 + q / 2) * 40) else None
               else if nodeType == 1 then
                 if m.storageUsedGB * ONE < TWO_256 then Some((m.uptime + p) * 25) else None
               else if nodeType == 3 then Some(m.uptime * 20)
               else if m.bytesRelayed * ONE < TWO_256 then Some((m.uptime + p) * 15)
               else None
  {
    if nodeType == 2 {
      PartIsFraction(m.tradesMatched, 1_000_000, p);
      PartIsFraction(m.volumeMatched, 1_000_000_000_000_000_000_000_000, q);
      FractionAtMostOne(m.tradesMatched, 1_000_000, p);
      FractionAtMostOne(m.volumeMatched, 1_000_000_000_000_000_000_000_000, q);
    } else if nodeType == 1 {
      PartIsFraction(m.storageUsedGB, 1000, p);
    } else if nodeType != 3 {
      PartIsFraction(m.bytesRelayed, 1_000_000_000_000, p);
    }
  }

  lemma FractionAtMostOne(x: nat, most: int, p: int)
    requires most > 0 && IsFraction(x, most, p)
    ensures 0 <= p <= ONE
  {
    if x < most {
      TimesLess(x, most, ONE);
      ScaleLess(p, ONE, most);
      assert ONE * most == most * ONE;
      ScaleLess(p + 1, 0, most);
    }
  }

  /** A fifth of one plus the fraction of 100000 units with 18 decimals. */
  lemma LiquidityScoredOnTheseTerms(liquidity: nat, p: int)
    requires IsFraction(liquidity, 100_000 * ONE, p)
    ensures ComputeLiquidityScore(liquidity) == if liquidity * ONE < TWO_256 then Some((ONE + p) / 5) else None
  {
    PartIsFraction(liquidity, 100_000 * ONE, p);
  }

  /** Full marks: 80 for matching, 50 for storage, 30 for relaying and 20 for liquidity nodes. */
  lemma FullScores(m: Metrics, nodeType: nat)
    requires m.uptime == ONE && m.tradesMatched == 1_000_000 && m.volumeMatched == 1_000_000_000_000_000_000_000_000
    requires m.storageUsedGB == 1000 && m.bytesRelayed == 1_000_000_000_000
    ensures ComputeScore(m, nodeType)
            == Some(ONE * if nodeType == 2 then 80 else if nodeType == 1 then 50 else if nodeType == 3 then 20 else 30)
  {
    ScoresOnTheseTerms(m, nodeType, ONE, ONE);
  }
}
