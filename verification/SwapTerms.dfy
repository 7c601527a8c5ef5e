/**
 What a swap charges, pays and leaves, by what each amount has to satisfy: the fee is the largest
 its rate and its cap allow, the payment the largest that keeps the product of the reserves.
 */
module SwapTerms {
  import opened Options
  import opened Sums
  import opened ConstantProduct

  /** The fee may be this high: within the rate, and within the token's cap if it has one. */
  predicate FeeAllowed(p: Pool, tokenIn: Address, amountIn: int, fee: int) {
    fee * 10000 <= amountIn * p.feeBps
    && (tokenIn in p.feeCaps && p.feeCaps[tokenIn] > 0 ==> fee <= p.feeCaps[tokenIn])
  }

  /** It is this, and no higher. */
  predicate IsFee(p: Pool, tokenIn: Address, amountIn: int, fee: int) {
    FeeAllowed(p, tokenIn, amountIn, fee) && !FeeAllowed(p, tokenIn, amountIn, fee + 1)
  }

  lemma FeeIsLargest(p: Pool, tokenIn: Address, amountIn: int, fee: int)
    ensures FeeAllowed(p, tokenIn, amountIn, fee) <==> fee <= Fee(p, tokenIn, amountIn)
  {
    FloorIsLargest(amountIn * p.feeBps, 10000, fee);
  }

  lemma OnlyFee(p: Pool, tokenIn: Address, amountIn: int, fee: int)
    ensures IsFee(p, tokenIn, amountIn, fee) <==> fee == Fee(p, tokenIn, amountIn)
  {
    FeeIsLargest(p, tokenIn, amountIn, fee);
    FeeIsLargest(p, tokenIn, amountIn, fee + 1);
  }

  /** With `added` put in and `out` taken out the product of the reserves has not fallen. */
  predicate KeepsProduct(rIn: int, rOut: int, added: int, out: int) {
    (rIn + added) * (rOut - out) >= rIn * rOut
  }

  predicate IsPayment(rIn: int, rOut: int, added: int, out: int) {
    KeepsProduct(rIn, rOut, added, out) && !KeepsProduct(rIn, rOut, added, out + 1)
  }

  lemma OnlyPayment(rIn: int, rOut: int, added: int, out: int)
    requires rIn + added > 0
    ensures IsPayment(rIn, rOut, added, out) <==> out == Out(rIn, rOut, added)
  {
    OutIsLargest(rIn, rOut, added, out);
    OutIsLargest(rIn, rOut, added, out + 1);
  }

  /** `bps` is the share of the spot price that is paid, in basis points rounded down. */
  predicate IsSpotShare(rIn: int, rOut: int, amountIn: int, out: int, bps: int) {
    bps * (amountIn * rOut) <= out * rIn * 10000 < (bps + 1) * (amountIn * rOut)
  }

  lemma ImpactIsRestOfSpot(rIn: int, rOut: int, amountIn: int, x: int, bps: int)
    requires rIn > 0 && rOut > 0 && 0 <= x <= amountIn && amountIn > 0
    requires IsSpotShare(rIn, rOut, amountIn, Out(rIn, rOut, x), bps)
    ensures var out := Out(rIn, rOut, x);
            PriceImpact(rIn, rOut, amountIn, out)
            == if out * rIn * 10000 < TWO_256 && amountIn * rOut < TWO_256 then Some(10000 - bps) else None
  {
    var out := Out(rIn, rOut, x);
    RatioAtMostSpot(rIn, rOut, amountIn, x);
    FloorIsLargest(out * rIn * 10000, amountIn * rOut, bps);
    FloorIsLargest(out * rIn * 10000, amountIn * rOut, bps + 1);
    assert Ratio(rIn, rOut, amountIn, out) == bps;
  }

  /** Nothing a swap computes exceeds 256 bits. */
  predicate Computable(p: Pool, rIn: int, rOut: int, amountIn: int, fee: int, out: int) {
    amountIn * p.feeBps < TWO_256 && rOut * (amountIn - fee) < TWO_256 && rIn + amountIn < TWO_256
    && out * rIn * 10000 < TWO_256 && amountIn * rOut < TWO_256
  }

  predicate OneOfTheTokens(p: Pool, tokenIn: Address) {
    tokenIn == p.token0 || tokenIn == p.token1
  }

  lemma NetInputIsPositive(p: Pool, tokenIn: Address, amountIn: int, fee: int)
    requires Valid(p) && amountIn > 0 && IsFee(p, tokenIn, amountIn, fee)
    ensures 0 <= fee < amountIn
  {
    OnlyFee(p, tokenIn, amountIn, fee);
    FeeBounds(p, tokenIn, amountIn);
  }

  /**
   When a swap goes through, and what it then does.  Both reserves must hold 1000, something must be
   paid, at no less of the spot price than the impact limit leaves, and the transfers must succeed.
   The pool gains the input without the fee if that is sent on, and all of it otherwise.
   */
  lemma SwapsOnTheseTerms(
    p: Pool, tokenIn: Address, amountIn: int, settled: bool, fee: int, out: int, bps: int)
    requires Valid(p) && amountIn > 0 && OneOfTheTokens(p, tokenIn) && p.reserve0 >= 1000 && p.reserve1 >= 1000
    requires IsFee(p, tokenIn, amountIn, fee)
    requires var rIn, rOut := if tokenIn == p.token0 then p.reserve0 else p.reserve1,
                              if tokenIn == p.token0 then p.reserve1 else p.reserve0;
             IsPayment(rIn, rOut, amountIn - fee, out) && IsSpotShare(rIn, rOut, amountIn, out, bps)
    ensures var rIn, rOut := if tokenIn == p.token0 then p.reserve0 else p.reserve1,
                             if tokenIn == p.token0 then p.reserve1 else p.reserve0;
            var added := if p.feeDistributor != "" then amountIn - fee else amountIn;
            Swap(p, tokenIn, amountIn, settled)
            == if settled && out > 0 && 10000 - bps <= p.maxImpactBps && Computable(p, rIn, rOut, amountIn, fee, out)
               then Some(Outcome(if tokenIn == p.token0 then p.(reserve0 := rIn + added, reserve1 := rOut - out)
                                 else p.(reserve1 := rIn + added, reserve0 := rOut - out),
                                 out, fee, 10000 - bps))
               else None
  {
    var rIn, rOut := ReserveIn(p, tokenIn), ReserveOut(p, tokenIn);
    OnlyFee(p, tokenIn, amountIn, fee);
    NetInputIsPositive(p, tokenIn, amountIn, fee);
    OnlyPayment(rIn, rOut, amountIn - fee, out);
    OutLeavesReserve(rIn, rOut, amountIn - fee);
    ImpactIsRestOfSpot(rIn, rOut, amountIn, amountIn - fee, bps);
  }

  /** Otherwise it does not go through. */
  lemma NoSwap(p: Pool, tokenIn: Address, amountIn: int, settled: bool)
    requires amountIn <= 0 || !OneOfTheTokens(p, tokenIn) || p.reserve0 < 1000 || p.reserve1 < 1000
    ensures Swap(p, tokenIn, amountIn, settled) == None
  {
  }

  /** The previews show the same payment and impact, whenever they can compute them. */
  lemma PreviewsOnTheseTerms(p: Pool, tokenIn: Address, amountIn: int, fee: int, out: int, bps: int)
    requires Valid(p) && amountIn > 0 && OneOfTheTokens(p, tokenIn) && p.reserve0 >= 1000 && p.reserve1 >= 1000
    requires IsFee(p, tokenIn, amountIn, fee)
    requires var rIn, rOut := if tokenIn == p.token0 then p.reserve0 else p.reserve1,
                              if tokenIn == p.token0 then p.reserve1 else p.reserve0;
             IsPayment(rIn, rOut, amountIn - fee, out) && IsSpotShare(rIn, rOut, amountIn, out, bps)
    ensures var rIn, rOut := if tokenIn == p.token0 then p.reserve0 else p.reserve1,
                             if tokenIn == p.token0 then p.reserve1 else p.reserve0;
            var fits := amountIn * p.feeBps < TWO_256 && rIn + (amountIn - fee) < TWO_256
                        && rOut * (amountIn - fee) < TWO_256;
            GetAmountOut(p, tokenIn, amountIn) == (if fits then Some(out) else None)
            && GetPriceImpact(p, tokenIn, amountIn)
               == if fits && out * rIn * 10000 < TWO_256 && amountIn * rOut < TWO_256 then Some(10000 - bps) else None
  {
    var rIn, rOut := ReserveIn(p, tokenIn), ReserveOut(p, tokenIn);
    OnlyFee(p, tokenIn, amountIn, fee);
    NetInputIsPositive(p, tokenIn, amountIn, fee);
    OnlyPayment(rIn, rOut, amountIn - fee, out);
    ImpactIsRestOfSpot(rIn, rOut, amountIn, amountIn - fee, bps);
  }

  /** Without input, token or liquidity they show no payment, and the largest impact for lack of liquidity. */
  lemma NoPreview(p: Pool, tokenIn: Address, amountIn: int)
    requires amountIn == 0 || !OneOfTheTokens(p, tokenIn) || p.reserve0 < 1000 || p.reserve1 < 1000
    ensures GetAmountOut(p, tokenIn, amountIn) == Some(0)
    ensures GetPriceImpact(p, tokenIn, amountIn)
            == Some(if amountIn == 0 || !OneOfTheTokens(p, tokenIn) then 0 else TWO_256 - 1)
  {
  }

  /** There are always such amounts, and only one of each. */
  lemma TermsExist(p: Pool, tokenIn: Address, amountIn: int) returns (fee: int, out: int, bps: int)
    requires Valid(p) && amountIn > 0 && p.reserve0 > 0 && p.reserve1 > 0
    ensures IsFee(p, tokenIn, amountIn, fee) && 0 <= fee < amountIn
    ensures var rIn, rOut := if tokenIn == p.token0 then p.reserve0 else p.reserve1,
                             if tokenIn == p.token0 then p.reserve1 else p.reserve0;
            IsPayment(rIn, rOut, amountIn - fee, out) && IsSpotShare(rIn, rOut, amountIn, out, bps)
            && 0 <= out < rOut && 0 <= bps <= 10000
  {
    var rIn, rOut := ReserveIn(p, tokenIn), ReserveOut(p, tokenIn);
    fee := Fee(p, tokenIn, amountIn);
    OnlyFee(p, tokenIn, amountIn, fee);
    NetInputIsPositive(p, tokenIn, amountIn, fee);
    out := Out(rIn, rOut, amountIn - fee);
    OnlyPayment(rIn, rOut, amountIn - fee, out);
    OutLeavesReserve(rIn, rOut, amountIn - fee);
    RatioAtMostSpot(rIn, rOut, amountIn, amountIn - fee);
    bps := Ratio(rIn, rOut, amountIn, out);
    FloorIsLargest(out * rIn * 10000, amountIn * rOut, bps);
    FloorIsLargest(out * rIn * 10000, amountIn * rOut, bps + 1);
  }
}
