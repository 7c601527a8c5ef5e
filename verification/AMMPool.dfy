/**
 The pool as an object.  A result of `false` or `None` means the call reverted and left the state
 as before; `settled` says whether the token contracts and the fee distributor went along.
 */
module AMMPool {
  import opened Options
  import opened Sums
  import opened ConstantProduct

  class AMMPool {
    const token0: Address
    const token1: Address
    const owner: Address
    var governance: Address
    var feeDistributor: Address
    var feeBps: int
    var feeCapPerToken: map<Address, int>
    var maxPriceImpactBps: int
    var liquidityProviders: map<Address, Provider>
    /** What the two token contracts record for the pool. */
    var balance0: int
    var balance1: int

    ghost function Abs(): Pool
      reads this
    {
      Pool(owner, token0, token1, feeDistributor, feeBps, feeCapPerToken, maxPriceImpactBps,
           balance0, balance1, liquidityProviders)
    }

    ghost predicate Ok()
      reads this
    {
      Valid(Abs())
    }

    constructor (sender: Address, t0: Address, t1: Address, distributor: Address)
      requires t0 != t1 && t0 != ZERO_ADDRESS && t1 != ZERO_ADDRESS
      ensures Ok() && Abs() == Pool(sender, t0, t1, distributor, 1, map[], 1000, 0, 0, map[])
      ensures governance == ZERO_ADDRESS
    {
      owner, token0, token1, feeDistributor, governance := sender, t0, t1, distributor, ZERO_ADDRESS;
      feeBps, feeCapPerToken, maxPriceImpactBps := 1, map[], 1000;
      liquidityProviders, balance0, balance1 := map[], 0, 0;
    }

    predicate Authorised(sender: Address)
      reads this`governance
    {
      sender == owner || (governance != ZERO_ADDRESS && sender == governance)
    }

    method SetFeeDistributor(sender: Address, distributor: Address) returns (ok: bool)
      requires Ok()
      modifies this`feeDistributor
      ensures Ok() && ok == (sender == owner)
      ensures Abs() == if ok then old(Abs()).(feeDistributor := distributor) else old(Abs())
    {
      if sender != owner {
        return false;
      }
      feeDistributor := distributor;
      return true;
    }

    method SetFeeBps(sender: Address, bps: nat) returns (ok: bool)
      requires Ok()
      modifies this`feeBps
      ensures Ok() && ok == ((sender == owner || (governance != "" && sender == governance)) && bps <= 1000)
      ensures Abs() == if ok then old(Abs()).(feeBps := bps) else old(Abs())
    {
      if !Authorised(sender) || bps > MAX_FEE_BPS {
        return false;
      }
      feeBps := bps;
      return true;
    }

    method SetFeeCap(sender: Address, token: Address, cap: nat) returns (ok: bool)
      requires Ok()
      modifies this`feeCapPerToken
      ensures Ok() && ok == (sender == owner || (governance != "" && sender == governance))
      ensures Abs() == if ok then old(Abs()).(feeCaps := old(feeCapPerToken)[token := cap]) else old(Abs())
    {
      if !Authorised(sender) {
        return false;
      }
      feeCapPerToken := feeCapPerToken[token := cap];
      return true;
    }

    method SetMaxPriceImpactBps(sender: Address, bps: nat) returns (ok: bool)
      requires Ok()
      modifies this`maxPriceImpactBps
      ensures Ok() && ok == ((sender == owner || (governance != "" && sender == governance)) && bps <= 10000)
      ensures Abs() == if ok then old(Abs()).(maxImpactBps := bps) else old(Abs())
    {
      if !Authorised(sender) || bps > BPS {
        return false;
      }
      maxPriceImpactBps := bps;
      return true;
    }

    method AddLiquidity(sender: Address, amount0: nat, amount1: nat, now: int, settled: bool) returns (ok: bool)
      requires Ok()
      modifies this`balance0, this`balance1, this`liquidityProviders
      ensures ok == ConstantProduct.AddLiquidity(old(Abs()), sender, amount0, amount1, now, settled).Some?
      ensures Abs()
              == ConstantProduct.AddLiquidity(old(Abs()), sender, amount0, amount1, now, settled).GetOr(old(Abs()))
      ensures Ok()
    {
      if amount0 == 0 || amount1 == 0 {
        return false;
      }
      if balance0 == 0 && balance1 == 0 && (amount0 < MIN_LIQUIDITY || amount1 < MIN_LIQUIDITY) {
        return false;
      }
      if !settled || balance0 + amount0 >= TWO_256 || balance1 + amount1 >= TWO_256 {
        return false;
      }
      var r := if sender in liquidityProviders then liquidityProviders[sender] else NO_PROVIDER;
      if !RecordFits(r, amount0, amount1) || amount0 + amount1 >= TWO_256 {
        return false;
      }
      balance0, balance1 := balance0 + amount0, balance1 + amount1;
      r := r.(total0 := r.total0 + amount0, total1 := r.total1 + amount1);
      r := r.(current0 := r.current0 + amount0, current1 := r.current1 + amount1, lastUpdate := now);
      liquidityProviders := liquidityProviders[sender := r];
      return true;
    }

    method RemoveLiquidity(sender: Address, amount0: nat, amount1: nat, now: int, settled: bool) returns (ok: bool)
      requires Ok()
      modifies this`balance0, this`balance1, this`liquidityProviders
      ensures ok == ConstantProduct.RemoveLiquidity(old(Abs()), sender, amount0, amount1, now, settled).Some?
      ensures Abs()
              == ConstantProduct.RemoveLiquidity(old(Abs()), sender, amount0, amount1, now, settled).GetOr(old(Abs()))
      ensures Ok()
    {
      var r := if sender in liquidityProviders then liquidityProviders[sender] else NO_PROVIDER;
      if sender != owner && (amount0 > r.current0 || amount1 > r.current1) {
        return false;
      }
      if amount0 > balance0 || amount1 > balance1 {
        return false;
      }
      if balance0 - amount0 < MIN_LIQUIDITY && amount0 != 0 {
        return false;
      }
      if balance1 - amount1 < MIN_LIQUIDITY && amount1 != 0 {
        return false;
      }
      if !settled || amount0 + amount1 >= TWO_256 {
        return false;
      }
      balance0, balance1 := balance0 - amount0, balance1 - amount1;
      if sender != owner {
        r := r.(current0 := r.current0 - amount0, current1 := r.current1 - amount1, lastUpdate := now);
        liquidityProviders := liquidityProviders[sender := r];
      }
      return true;
    }

    /** Returns the amount paid out. */
    method Swap(sender: Address, tokenIn: Address, amountIn: nat, settled: bool) returns (paid: Option<int>)
      requires Ok()
      modifies this`balance0, this`balance1
      ensures var s := ConstantProduct.Swap(old(Abs()), tokenIn, amountIn, settled);
              if s.Some? then paid == Some(s.value.amountOut) && Abs() == s.value.pool
              else paid == None && Abs() == old(Abs())
      ensures Ok() && balance0 * balance1 >= old(balance0 * balance1)
      ensures paid.Some? ==> Some(paid.value) == old(ConstantProduct.GetAmountOut(Abs(), tokenIn, amountIn))
    {
      ghost var before := Abs();
      SwapIsItsPreview(before, tokenIn, amountIn, settled);
      if ConstantProduct.Swap(before, tokenIn, amountIn, settled).Some? {
        SwapKeepsProduct(before, tokenIn, amountIn, settled);
      }
      if amountIn == 0 || (tokenIn != token0 && tokenIn != token1) {
        return None;
      }
      var rIn := if tokenIn == token0 then balance0 else balance1;
      var rOut := if tokenIn == token0 then balance1 else balance0;
      if rIn < MIN_LIQUIDITY || rOut < MIN_LIQUIDITY || amountIn * feeBps >= TWO_256 {
        return None;
      }
      var feeAmount := amountIn * feeBps / BPS;
      var cap := Get(feeCapPerToken, tokenIn);
      if cap > 0 && feeAmount > cap {
        feeAmount := cap;
      }
      FeeBounds(before, tokenIn, amountIn);
      var amountInWithFee := amountIn - feeAmount;
      if !OutFits(rIn, rOut, amountInWithFee) || rIn + amountInWithFee <= rIn {
        return None;
      }
      var amountOut := Out(rIn, rOut, amountInWithFee);
      if amountOut <= 0 || amountOut >= rOut {
        return None;
      }
      var impact := PriceImpact(rIn, rOut, amountIn, amountOut);
      if impact.None? || impact.value > maxPriceImpactBps {
        return None;
      }
      if !settled || rIn + amountIn >= TWO_256 {
        return None;
      }
      var kept := if feeAmount > 0 && feeDistributor != ZERO_ADDRESS then amountIn - feeAmount else amountIn;
      if tokenIn == token0 {
        balance0, balance1 := balance0 + kept, balance1 - amountOut;
      } else {
        balance1, balance0 := balance1 + kept, balance0 - amountOut;
      }
      return Some(amountOut);
    }
  }
}
