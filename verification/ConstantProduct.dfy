/**
 The pool as a value: what a swap pays, what it leaves behind, and what no sequence of swaps can
 do.  Amounts are uint256; checked arithmetic that would overflow reverts, which is `None` here.
 */
module ConstantProduct {
  import opened Options
  import opened Sums

  type Address = string

  const ZERO_ADDRESS: Address := ""
  const BPS: int := 10000
  const MAX_FEE_BPS: int := 1000
  const MIN_LIQUIDITY: int := 1000

  /** What a provider has ever put in, what is still counted as in, and when that last changed. */
  datatype Provider = Provider(total0: int, total1: int, current0: int, current1: int, lastUpdate: int)

  const NO_PROVIDER := Provider(0, 0, 0, 0, 0)

  /** `reserve0` and `reserve1` are the pool's balances in its two tokens. */
  datatype Pool = Pool(
    owner: Address,
    token0: Address,
    token1: Address,
    feeDistributor: Address,
    feeBps: int,
    feeCaps: map<Address, int>,
    maxImpactBps: int,
    reserve0: int,
    reserve1: int,
    providers: map<Address, Provider>)

  ghost predicate Valid(p: Pool) {
    p.token0 != p.token1 && 0 <= p.feeBps <= MAX_FEE_BPS && 0 <= p.maxImpactBps <= BPS
    && p.reserve0 >= 0 && p.reserve1 >= 0
    && forall t :: t in p.feeCaps ==> p.feeCaps[t] >= 0
  }

  function ReserveIn(p: Pool, tokenIn: Address): int {
    if tokenIn == p.token0 then p.reserve0 else p.reserve1
  }

  function ReserveOut(p: Pool, tokenIn: Address): int {
    if tokenIn == p.token0 then p.reserve1 else p.reserve0
  }

  function Fee(p: Pool, tokenIn: Address, amountIn: int): int {
    var fee, cap := amountIn * p.feeBps / BPS, Get(p.feeCaps, tokenIn);
    if cap > 0 && fee > cap then cap else fee
  }

  /** The constant-product formula, rounded down. */
  function Out(rIn: int, rOut: int, x: int): int
    requires rIn + x > 0
  {
    rOut * x / (rIn + x)
  }

  /** Whether the formula is computed without overflow. */
  predicate OutFits(rIn: int, rOut: int, x: int) {
    rOut * x < TWO_256 && rIn + x < TWO_256
  }

  function Ratio(rIn: int, rOut: int, amountIn: int, amountOut: int): int
    requires amountIn * rOut > 0
  {
    amountOut * rIn * BPS / (amountIn * rOut)
  }

  function PriceImpact(rIn: int, rOut: int, amountIn: int, amountOut: int): Option<int> {
    if rIn == 0 || rOut == 0 then Some(0)
    else if amountOut * rIn * BPS >= TWO_256 || amountIn * rOut >= TWO_256 || amountIn * rOut <= 0 then None
    else
      var ratio := Ratio(rIn, rOut, amountIn, amountOut);
      Some(if ratio >= BPS then ratio - BPS else BPS - ratio)
  }

  predicate Trades(p: Pool, tokenIn: Address) {
    tokenIn == p.token0 || tokenIn == p.token1
  }

  predicate Liquid(p: Pool) {
    p.reserve0 >= MIN_LIQUIDITY && p.reserve1 >= MIN_LIQUIDITY
  }

  function GetAmountOut(p: Pool, tokenIn: Address, amountIn: int): Option<int> {
    if amountIn == 0 || !Trades(p, tokenIn) || !Liquid(p) then Some(0)
    else if amountIn * p.feeBps >= TWO_256 then None
    else
      var rIn, rOut, x := ReserveIn(p, tokenIn), ReserveOut(p, tokenIn), amountIn - Fee(p, tokenIn, amountIn);
      if rIn + x >= TWO_256 then None
      else if x <= 0 then Some(0)
      else if rOut * x >= TWO_256 then None
      else Some(Out(rIn, rOut, x))
  }

  function GetPriceImpact(p: Pool, tokenIn: Address, amountIn: int): Option<int> {
    if amountIn == 0 || !Trades(p, tokenIn) then Some(0)
    else if !Liquid(p) then Some(TWO_256 - 1)
    else if amountIn * p.feeBps >= TWO_256 then None
    else
      var rIn, rOut, x := ReserveIn(p, tokenIn), ReserveOut(p, tokenIn), amountIn - Fee(p, tokenIn, amountIn);
      if !OutFits(rIn, rOut, x) || rIn + x <= 0 then None
      else PriceImpact(rIn, rOut, amountIn, Out(rIn, rOut, x))
  }

  // ----- the swap -----

  datatype Outcome = Outcome(pool: Pool, amountOut: int, fee: int, impactBps: int)

  /** The part of the fee that leaves the pool. */
  function FeeSent(p: Pool, fee: int): int {
    if fee > 0 && p.feeDistributor != ZERO_ADDRESS then fee else 0
  }

  function Move(p: Pool, tokenIn: Address, added: int, removed: int): Pool {
    if tokenIn == p.token0 then p.(reserve0 := p.reserve0 + added, reserve1 := p.reserve1 - removed)
    else p.(reserve1 := p.reserve1 + added, reserve0 := p.reserve0 - removed)
  }

  /** `settled` says whether every token transfer and the fee distributor's own call went through. */
  function Swap(p: Pool, tokenIn: Address, amountIn: int, settled: bool): Option<Outcome> {
    if amountIn <= 0 || !Trades(p, tokenIn) || !Liquid(p) || amountIn * p.feeBps >= TWO_256 then None
    else
      var rIn, rOut, fee := ReserveIn(p, tokenIn), ReserveOut(p, tokenIn), Fee(p, tokenIn, amountIn);
      var x := amountIn - fee;
      if !OutFits(rIn, rOut, x) || x <= 0 then None
      else
        var amountOut := Out(rIn, rOut, x);
        var impact := PriceImpact(rIn, rOut, amountIn, amountOut);
        if amountOut <= 0 || amountOut >= rOut || impact.None? || impact.value > p.maxImpactBps then None
        else if !settled || rIn + amountIn >= TWO_256 then None
        else Some(Outcome(Move(p, tokenIn, amountIn - FeeSent(p, fee), amountOut), amountOut, fee, impact.value))
  }

  // ----- liquidity -----

  function ProviderOf(p: Pool, a: Address): Provider {
    if a in p.providers then p.providers[a] else NO_PROVIDER
  }

  predicate RecordFits(r: Provider, amount0: int, amount1: int) {
    r.total0 + amount0 < TWO_256 && r.total1 + amount1 < TWO_256
    && r.current0 + amount0 < TWO_256 && r.current1 + amount1 < TWO_256
  }

  function AddLiquidity(p: Pool, sender: Address, amount0: int, amount1: int, now: int, settled: bool): Option<Pool> {
    var r := ProviderOf(p, sender);
    if amount0 <= 0 || amount1 <= 0 then None
    else if p.reserve0 == 0 && p.reserve1 == 0 && (amount0 < MIN_LIQUIDITY || amount1 < MIN_LIQUIDITY) then None
    else if !settled || p.reserve0 + amount0 >= TWO_256 || p.reserve1 + amount1 >= TWO_256 then None
    else if !RecordFits(r, amount0, amount1) || amount0 + amount1 >= TWO_256 then None
    else
      Some(p.(reserve0 := p.reserve0 + amount0, reserve1 := p.reserve1 + amount1,
              providers := p.providers[sender := Provider(r.total0 + amount0, r.total1 + amount1,
                                                          r.current0 + amount0, r.current1 + amount1, now)]))
  }

  /** The owner may take any amount and has no record changed; others take what they put in. */
  function RemoveLiquidity(
    p: Pool, sender: Address, amount0: int, amount1: int, now: int, settled: bool): Option<Pool>
  {
    var r := ProviderOf(p, sender);
    if sender != p.owner && (amount0 > r.current0 || amount1 > r.current1) then None
    else if amount0 > p.reserve0 || amount1 > p.reserve1 then None
    else if p.reserve0 - amount0 < MIN_LIQUIDITY && amount0 != 0 then None
    else if p.reserve1 - amount1 < MIN_LIQUIDITY && amount1 != 0 then None
    else if !settled || amount0 + amount1 >= TWO_256 then None
    else
      var left := p.(reserve0 := p.reserve0 - amount0, reserve1 := p.reserve1 - amount1);
      if sender == p.owner then Some(left)
      else
        Some(left.(providers := p.providers[sender := r.(current0 := r.current0 - amount0,
                                                         current1 := r.current1 - amount1, lastUpdate := now)]))
  }

  // ----- the curve -----

  /** The formula pays the most that does not lower the product of the reserves. */
  lemma OutIsLargest(rIn: int, rOut: int, x: int, o: int)
    requires rIn + x > 0
    ensures (rIn + x) * (rOut - o) >= rIn * rOut <==> o <= Out(rIn, rOut, x)
  {
    Distribute(rIn, x, rOut);
    Distribute(rOut, -o, rIn + x);
    assert (rIn + x) * (rOut - o) == (rOut - o) * (rIn + x) && rOut * x == x * rOut;
    assert -o * (rIn + x) == -(o * (rIn + x));
    FloorIsLargest(rOut * x, rIn + x, o);
  }

  /** It never pays out a whole reserve, so that guard of a swap is never the one that fails. */
  lemma OutLeavesReserve(rIn: int, rOut: int, x: int)
    requires rIn > 0 && rOut > 0 && x >= 0
    ensures 0 <= Out(rIn, rOut, x) < rOut
  {
    OutIsLargest(rIn, rOut, x, rOut);
    Product(rIn, rOut);
    assert rIn * rOut > 0;
    OutIsLargest(rIn, rOut, x, 0);
    TimesLess(rIn, rIn + x, rOut);
  }

  lemma OutIsMonotone(rIn: int, rOut: int, x: int, y: int)
    requires rIn > 0 && rOut > 0 && 0 <= x <= y
    ensures Out(rIn, rOut, x) <= Out(rIn, rOut, y)
  {
    var o := Out(rIn, rOut, x);
    OutLeavesReserve(rIn, rOut, x);
    OutIsLargest(rIn, rOut, x, o);
    TimesLess(rIn + x, rIn + y, rOut - o);
    OutIsLargest(rIn, rOut, y, o);
  }

  /** Two trades in a row pay no more than one trade of their net inputs, whatever else stays in. */
  lemma SplittingNeverPays(rIn: int, rOut: int, x: int, y: int, stays: int)
    requires rIn > 0 && rOut > 0 && x >= 0 && y >= 0 && stays >= 0
    ensures var o := Out(rIn, rOut, x);
            o + Out(rIn + x + stays, rOut - o, y) <= Out(rIn, rOut, x + y)
  {
    var o := Out(rIn, rOut, x);
    var r := rIn + x + stays;
    OutLeavesReserve(rIn, rOut, x);
    var o' := Out(r, rOut - o, y);
    OutLeavesReserve(r, rOut - o, y);
    OutIsLargest(rIn, rOut, x, o);
    OutIsLargest(r, rOut - o, y, o');
    FewerIn(rIn + x, r, y, rOut - o, o');
    OutIsLargest(rIn, rOut, x + y, o + o');
  }

  lemma FewerIn(a: int, b: int, y: int, s: int, o: int)
    requires 0 < a <= b && y >= 0 && 0 <= o <= s
    requires (b + y) * (s - o) >= b * s
    ensures (a + y) * (s - o) >= a * s
  {
    Distribute(a, b - a, s - o);
    Distribute(a + y, b - a, s - o);
    Distribute(a, b - a, s);
    assert (a + y + (b - a)) == b + y;
    TimesLess(s - o, s, b - a);
    assert (s - o) * (b - a) == (b - a) * (s - o) && s * (b - a) == (b - a) * s;
  }

  lemma FeeBounds(p: Pool, tokenIn: Address, amountIn: int)
    requires Valid(p) && amountIn >= 0
    ensures 0 <= Fee(p, tokenIn, amountIn) && Fee(p, tokenIn, amountIn) * BPS <= amountIn * p.feeBps
    ensures Fee(p, tokenIn, amountIn) <= amountIn && (amountIn > 0 ==> Fee(p, tokenIn, amountIn) < amountIn)
    ensures Get(p.feeCaps, tokenIn) > 0 ==> Fee(p, tokenIn, amountIn) <= Get(p.feeCaps, tokenIn)
  {
    var raw := amountIn * p.feeBps / BPS;
    Product(amountIn, p.feeBps);
    FloorBounds(amountIn * p.feeBps, BPS);
    TimesLess(p.feeBps, MAX_FEE_BPS, amountIn);
    assert amountIn * p.feeBps == p.feeBps * amountIn;
  }

  /** A larger input is never charged so much more that less of it is traded. */
  lemma NetIsMonotone(p: Pool, tokenIn: Address, a: int, b: int)
    requires Valid(p) && 0 <= a <= b
    ensures a - Fee(p, tokenIn, a) <= b - Fee(p, tokenIn, b)
  {
    var fa, fb := a * p.feeBps / BPS, b * p.feeBps / BPS;
    Distribute(a, b - a, p.feeBps);
    TimesLess(p.feeBps, MAX_FEE_BPS, b - a);
    assert (b - a) * p.feeBps == p.feeBps * (b - a);
    Product(b - a, p.feeBps);
    FloorBounds(a * p.feeBps, BPS);
    FloorBounds(b * p.feeBps, BPS);
    assert 0 <= fb - fa <= b - a;
  }

  /** Offering more never previews less. */
  lemma PreviewIsMonotone(p: Pool, tokenIn: Address, a: int, b: int)
    requires Valid(p) && 0 <= a <= b
    requires GetAmountOut(p, tokenIn, a).Some? && GetAmountOut(p, tokenIn, b).Some?
    ensures GetAmountOut(p, tokenIn, a).value <= GetAmountOut(p, tokenIn, b).value
  {
    if b > 0 && Trades(p, tokenIn) && Liquid(p) {
      var rIn, rOut := ReserveIn(p, tokenIn), ReserveOut(p, tokenIn);
      var x, y := a - Fee(p, tokenIn, a), b - Fee(p, tokenIn, b);
      FeeBounds(p, tokenIn, a);
      FeeBounds(p, tokenIn, b);
      NetIsMonotone(p, tokenIn, a, b);
      OutLeavesReserve(rIn, rOut, y);
      OutIsMonotone(rIn, rOut, x, y);
    }
  }

  // ----- price impact -----

  /** The price paid is never better than spot, so the first branch of the impact only ever yields zero. */
  lemma RatioAtMostSpot(rIn: int, rOut: int, amountIn: int, x: int)
    requires rIn > 0 && rOut > 0 && 0 <= x <= amountIn && amountIn > 0
    ensures Out(rIn, rOut, x) * rIn <= amountIn * rOut && amountIn * rOut > 0
    ensures 0 <= Ratio(rIn, rOut, amountIn, Out(rIn, rOut, x)) <= BPS
  {
    var o := Out(rIn, rOut, x);
    OutLeavesReserve(rIn, rOut, x);
    FloorBounds(rOut * x, rIn + x);
    Distribute(rIn, x, o);
    Product(o, x);
    TimesLess(x, amountIn, rOut);
    assert o * (rIn + x) == (rIn + x) * o && rOut * x == x * rOut && o * rIn == rIn * o && x * o == o * x;
    Product(o, rIn);
    TimesLess(o * rIn, amountIn * rOut, BPS);
    Positive(amountIn, rOut);
    var q := Ratio(rIn, rOut, amountIn, o);
    FloorIsLargest(o * rIn * BPS, amountIn * rOut, q);
    FloorIsLargest(o * rIn * BPS, amountIn * rOut, 0);
    assert q * (amountIn * rOut) <= BPS * (amountIn * rOut);
    ScaleLess(q, BPS, amountIn * rOut);
  }

  lemma Positive(a: int, b: int)
    requires a > 0 && b > 0
    ensures a * b > 0
  {
  }

  /** The impact guard passes exactly when the payment is at least that share of the spot price. */
  lemma ImpactIsSpotShortfall(rIn: int, rOut: int, amountIn: int, x: int, limit: int)
    requires rIn > 0 && rOut > 0 && 0 <= x <= amountIn && amountIn > 0
    requires PriceImpact(rIn, rOut, amountIn, Out(rIn, rOut, x)).Some?
    ensures PriceImpact(rIn, rOut, amountIn, Out(rIn, rOut, x)).value <= limit
            <==> Out(rIn, rOut, x) * rIn * BPS >= (BPS - limit) * (amountIn * rOut)
  {
    RatioAtMostSpot(rIn, rOut, amountIn, x);
    FloorIsLargest(Out(rIn, rOut, x) * rIn * BPS, amountIn * rOut, BPS - limit);
  }

  // ----- what a swap does -----

  /** A swap goes through exactly when its previews say so, and pays and reports what they showed. */
  lemma SwapIsItsPreview(p: Pool, tokenIn: Address, amountIn: int, settled: bool)
    requires Valid(p) && amountIn >= 0
    ensures var s, out, impact := Swap(p, tokenIn, amountIn, settled), GetAmountOut(p, tokenIn, amountIn),
                                  GetPriceImpact(p, tokenIn, amountIn);
            (s.Some? <==> settled && ReserveIn(p, tokenIn) + amountIn < TWO_256
                          && out.Some? && out.value > 0 && impact.Some? && impact.value <= p.maxImpactBps)
            && (s.Some? ==> s.value.amountOut == out.value && s.value.impactBps == impact.value)
  {
    if amountIn > 0 && Trades(p, tokenIn) && Liquid(p) {
      var x := amountIn - Fee(p, tokenIn, amountIn);
      FeeBounds(p, tokenIn, amountIn);
      OutLeavesReserve(ReserveIn(p, tokenIn), ReserveOut(p, tokenIn), x);
    }
  }

  /** The product of the reserves does not fall, both stay positive, and the price is within the limit of spot. */
  lemma SwapKeepsProduct(p: Pool, tokenIn: Address, amountIn: int, settled: bool)
    requires Valid(p) && Swap(p, tokenIn, amountIn, settled).Some?
    ensures var s := Swap(p, tokenIn, amountIn, settled).value;
            Valid(s.pool) && s.pool.reserve0 > 0 && s.pool.reserve1 > 0
            && s.pool.reserve0 * s.pool.reserve1 >= p.reserve0 * p.reserve1
            && s.amountOut * ReserveIn(p, tokenIn) * BPS
               >= (BPS - p.maxImpactBps) * (amountIn * ReserveOut(p, tokenIn))
  {
    var rIn, rOut, fee := ReserveIn(p, tokenIn), ReserveOut(p, tokenIn), Fee(p, tokenIn, amountIn);
    var x := amountIn - fee;
    FeeBounds(p, tokenIn, amountIn);
    var out := Out(rIn, rOut, x);
    OutIsLargest(rIn, rOut, x, out);
    TimesLess(rIn + x, rIn + amountIn - FeeSent(p, fee), rOut - out);
    ImpactIsSpotShortfall(rIn, rOut, amountIn, x, p.maxImpactBps);
    Commute(p.reserve0, p.reserve1);
    Commute(rIn + amountIn - FeeSent(p, fee), rOut - out);
  }

  lemma Commute(a: int, b: int)
    ensures a * b == b * a
  {
  }
}
