/** When deposits and withdrawals go through, and exactly what they change. */
module LiquidityTerms {
  import opened Options
  import opened Sums
  import opened ConstantProduct

  /** The record of a provider, empty for one who never put anything in. */
  function RecordOf(p: Pool, a: Address): Provider {
    if a in p.providers then p.providers[a] else Provider(0, 0, 0, 0, 0)
  }

  /**
   A deposit needs something of both tokens, and 1000 of each if the pool is empty.  It goes on the
   provider's record, both on the total and on what is in.
   */
  lemma DepositsOnTheseTerms(p: Pool, sender: Address, amount0: nat, amount1: nat, now: int, settled: bool)
    requires p.reserve0 >= 0 && p.reserve1 >= 0
    ensures var r, d := RecordOf(p, sender), AddLiquidity(p, sender, amount0, amount1, now, settled);
            var fits := p.reserve0 + amount0 < TWO_256 && p.reserve1 + amount1 < TWO_256 && amount0 + amount1 < TWO_256
                        && r.total0 + amount0 < TWO_256 && r.total1 + amount1 < TWO_256
                        && r.current0 + amount0 < TWO_256 && r.current1 + amount1 < TWO_256;
            (d.Some? <==>
               amount0 > 0 && amount1 > 0 && settled && fits
               && (p.reserve0 > 0 || p.reserve1 > 0 || (amount0 >= 1000 && amount1 >= 1000)))
            && (d.Some? ==>
                  d.value.reserve0 - p.reserve0 == amount0 && d.value.reserve1 - p.reserve1 == amount1
                  && d.value == p.(reserve0 := d.value.reserve0, reserve1 := d.value.reserve1,
                                   providers := p.providers[sender := RecordOf(d.value, sender)])
                  && RecordOf(d.value, sender)
                     == Provider(r.total0 + amount0, r.total1 + amount1,
                                 r.current0 + amount0, r.current1 + amount1, now))
  {
  }

  /**
   A withdrawal is the owner's, or at most what the provider still has in; it leaves at least 1000 of
   each token it touches.  The owner's is on no record, anyone else's lowers what they have in.
   */
  lemma WithdrawalsOnTheseTerms(p: Pool, sender: Address, amount0: nat, amount1: nat, now: int, settled: bool)
    requires p.reserve0 >= 0 && p.reserve1 >= 0
    ensures var r, w := RecordOf(p, sender), RemoveLiquidity(p, sender, amount0, amount1, now, settled);
            (w.Some? <==>
               settled && amount0 + amount1 < TWO_256
               && (sender == p.owner || (amount0 <= r.current0 && amount1 <= r.current1))
               && (amount0 == 0 || p.reserve0 - amount0 >= 1000) && (amount1 == 0 || p.reserve1 - amount1 >= 1000))
            && (w.Some? ==>
                  p.reserve0 - w.value.reserve0 == amount0 && p.reserve1 - w.value.reserve1 == amount1
                  && w.value == p.(reserve0 := w.value.reserve0, reserve1 := w.value.reserve1,
                                   providers := w.value.providers)
                  && w.value.providers
                     == if sender == p.owner then p.providers
                        else
                          p.providers[sender := Provider(r.total0, r.total1, r.current0 - amount0, r.current1 - amount1,
                                                         now)])
  {
  }
}
