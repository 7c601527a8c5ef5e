/**
 Whole runs of the pool, with a history of what left it and to whom.  The pool's reserves are its
 token balances, so anyone may raise them by sending tokens.
 */
module PoolRuns {
  import opened Options
  import opened Sums
  import opened ConstantProduct

  datatype Op =
    | AddOp(sender: Address, amount0: nat, amount1: nat, now: int, settled: bool)
    | RemoveOp(sender: Address, amount0: nat, amount1: nat, now: int, settled: bool)
    | SwapOp(tokenIn: Address, amountIn: nat, settled: bool)
    | FeeBpsOp(bps: nat)
    | FeeCapOp(token: Address, cap: nat)
    | ImpactOp(bps: nat)
    | DistributorOp(distributor: Address)
    | DonateOp(amount0: nat, amount1: nat)

  /**
   A pool with its history: what traders have gained of each token on balance, the fees sent on,
   the tokens sent in with no call, and what each provider has taken out.
   */
  datatype World = World(
    pool: Pool,
    gain0: int,
    gain1: int,
    fees0: int,
    fees1: int,
    donated0: int,
    donated1: int,
    taken0: map<Address, int>,
    taken1: map<Address, int>)

  function Fresh(pool: Pool): World {
    World(pool, 0, 0, 0, 0, 0, 0, map[], map[])
  }

  function AfterSwap(w: World, tokenIn: Address, amountIn: nat, s: Outcome): World {
    var sent := FeeSent(w.pool, s.fee);
    if tokenIn == w.pool.token0 then
      w.(pool := s.pool, gain0 := w.gain0 - amountIn, gain1 := w.gain1 + s.amountOut, fees0 := w.fees0 + sent)
    else
      w.(pool := s.pool, gain1 := w.gain1 - amountIn, gain0 := w.gain0 + s.amountOut, fees1 := w.fees1 + sent)
  }

  /** A call that reverts leaves the world as it was. */
  function Step(w: World, op: Op): World {
    match op
    case AddOp(sender, a0, a1, now, settled) =>
      w.(pool := AddLiquidity(w.pool, sender, a0, a1, now, settled).GetOr(w.pool))
    case RemoveOp(sender, a0, a1, now, settled) =>
      var r := RemoveLiquidity(w.pool, sender, a0, a1, now, settled);
      if r.None? then w
      else
        w.(pool := r.value,
           taken0 := w.taken0[sender := Get(w.taken0, sender) + a0],
           taken1 := w.taken1[sender := Get(w.taken1, sender) + a1])
    case SwapOp(tokenIn, amountIn, settled) =>
      var s := Swap(w.pool, tokenIn, amountIn, settled);
      if s.None? then w else AfterSwap(w, tokenIn, amountIn, s.value)
    case FeeBpsOp(bps) => if bps <= MAX_FEE_BPS then w.(pool := w.pool.(feeBps := bps)) else w
    case FeeCapOp(token, cap) => w.(pool := w.pool.(feeCaps := w.pool.feeCaps[token := cap]))
    case ImpactOp(bps) => if bps <= BPS then w.(pool := w.pool.(maxImpactBps := bps)) else w
    case DistributorOp(d) => w.(pool := w.pool.(feeDistributor := d))
    case DonateOp(a0, a1) =>
      if w.pool.reserve0 + a0 >= TWO_256 || w.pool.reserve1 + a1 >= TWO_256 then w
      else
        w.(pool := w.pool.(reserve0 := w.pool.reserve0 + a0, reserve1 := w.pool.reserve1 + a1),
           donated0 := w.donated0 + a0, donated1 := w.donated1 + a1)
  }

  function Run(w: World, ops: seq<Op>): World {
    if ops == [] then w else Step(Run(w, ops[..|ops| - 1]), ops[|ops| - 1])
  }

  predicate MovesLiquidity(op: Op) {
    op.AddOp? || op.RemoveOp?
  }

  // ----- traders -----

  /** What a run without liquidity changes keeps, compared with the pool it started from. */
  ghost predicate TradedFrom(w: World, start: Pool) {
    Valid(w.pool) && w.fees0 >= 0 && w.fees1 >= 0 && w.donated0 >= 0 && w.donated1 >= 0
    && w.pool.reserve0 + w.gain0 + w.fees0 == start.reserve0 + w.donated0
    && w.pool.reserve1 + w.gain1 + w.fees1 == start.reserve1 + w.donated1
    && w.pool.reserve0 * w.pool.reserve1 >= start.reserve0 * start.reserve1
    && (start.reserve0 > 0 && start.reserve1 > 0 ==> w.pool.reserve0 > 0 && w.pool.reserve1 > 0)
    && ((w.pool.reserve0 >= start.reserve0 && w.pool.reserve1 >= start.reserve1)
        || (w.pool.reserve0 > 0 && w.pool.reserve1 > 0))
  }

  lemma StepKeepsTraded(w: World, op: Op, start: Pool)
    requires TradedFrom(w, start) && !MovesLiquidity(op)
    ensures TradedFrom(Step(w, op), start)
  {
    if op.SwapOp? && Swap(w.pool, op.tokenIn, op.amountIn, op.settled).Some? {
      SwapKeepsProduct(w.pool, op.tokenIn, op.amountIn, op.settled);
      FeeBounds(w.pool, op.tokenIn, op.amountIn);
    } else if op.DonateOp? {
      MoreOfBoth(w.pool.reserve0, w.pool.reserve1, op.amount0, op.amount1);
    }
  }

  lemma MoreOfBoth(a: int, b: int, x: nat, y: nat)
    requires a >= 0 && b >= 0
    ensures (a + x) * (b + y) >= a * b
  {
    TimesLess(a, a + x, b + y);
    TimesLess(b, b + y, a);
    Commute(a, b);
    Commute(a, b + y);
  }

  /** Every token is accounted for and the product of the reserves never falls, whatever is traded. */
  lemma {:induction false} ProductNeverFalls(start: Pool, ops: seq<Op>)
    requires Valid(start)
    requires forall i :: 0 <= i < |ops| ==> !MovesLiquidity(ops[i])
    ensures TradedFrom(Run(Fresh(start), ops), start)
  {
    if ops != [] {
      ProductNeverFalls(start, ops[..|ops| - 1]);
      StepKeepsTraded(Run(Fresh(start), ops[..|ops| - 1]), ops[|ops| - 1], start);
    }
  }

  /**
   All traders of a run together, so also a trader who made all of its swaps, cannot end ahead in one
   token without being behind in the other, beyond what was given to the pool.
   */
  lemma NobodyTradesForFree(start: Pool, ops: seq<Op>)
    requires Valid(start)
    requires forall i :: 0 <= i < |ops| ==> !MovesLiquidity(ops[i])
    ensures var w := Run(Fresh(start), ops);
            (w.gain0 > w.donated0 ==> w.gain1 < w.donated1) && (w.gain1 > w.donated1 ==> w.gain0 < w.donated0)
  {
    ProductNeverFalls(start, ops);
    var end := Run(Fresh(start), ops).pool;
    if end.reserve0 < start.reserve0 || end.reserve1 < start.reserve1 {
      BothLower(end.reserve0, end.reserve1, start.reserve0, start.reserve1);
    }
  }

  lemma LowerProduct(a: int, b: int, c: int, d: int)
    requires 0 < a < c && 0 < b <= d
    ensures a * b < c * d && b * a < d * c
  {
    Distribute(a, c - a, d);
    Positive(c - a, d);
    TimesLess(b, d, a);
    Commute(a, b);
    Commute(a, d);
    Commute(c, d);
  }

  lemma BothLower(a: int, b: int, c: int, d: int)
    requires a > 0 && b > 0 && a * b >= c * d
    ensures a < c ==> b > d
    ensures b < d ==> a > c
  {
    if a < c && b <= d {
      LowerProduct(a, b, c, d);
      assert false;
    }
    if b < d && a <= c {
      LowerProduct(b, a, d, c);
      assert false;
    }
  }

  // ----- providers -----

  function Totals0(p: Pool): map<Address, int> {
    map a | a in p.providers :: p.providers[a].total0
  }

  function Totals1(p: Pool): map<Address, int> {
    map a | a in p.providers :: p.providers[a].total1
  }

  /** An account's record agrees with what it took; the owner's record only ever grows. */
  ghost predicate RecordExact(w: World, a: Address) {
    var r := ProviderOf(w.pool, a);
    if a == w.pool.owner then r.current0 == r.total0 && r.current1 == r.total1
    else
      r.current0 == r.total0 - Get(w.taken0, a) && r.current1 == r.total1 - Get(w.taken1, a)
      && r.current0 >= 0 && r.current1 >= 0
  }

  ghost predicate SumsExact(w: World) {
    w.pool.reserve0 + w.gain0 + w.fees0 + Sum(w.taken0) == Sum(Totals0(w.pool)) + w.donated0
    && w.pool.reserve1 + w.gain1 + w.fees1 + Sum(w.taken1) == Sum(Totals1(w.pool)) + w.donated1
  }

  lemma StepKeepsRecord(w: World, op: Op, a: Address)
    requires RecordExact(w, a)
    ensures RecordExact(Step(w, op), a)
  {
    match op
    case AddOp(_, _, _, _, _) => AddKeepsRecord(w, op, a);
    case RemoveOp(_, _, _, _, _) => RemoveKeepsRecord(w, op, a);
    case _ =>
  }

  lemma AddKeepsRecord(w: World, op: Op, a: Address)
    requires RecordExact(w, a) && op.AddOp?
    ensures RecordExact(Step(w, op), a)
  {
  }

  lemma RemoveKeepsRecord(w: World, op: Op, a: Address)
    requires RecordExact(w, a) && op.RemoveOp?
    ensures RecordExact(Step(w, op), a)
  {
  }

  lemma AddKeepsSums(w: World, op: Op)
    requires SumsExact(w) && op.AddOp?
    ensures SumsExact(Step(w, op))
  {
    var p := AddLiquidity(w.pool, op.sender, op.amount0, op.amount1, op.now, op.settled);
    if p.Some? {
      RecordTotals(w.pool, p.value, op.sender, p.value.providers[op.sender]);
    }
  }

  /** Writing one record moves the sums of totals by the change in that record. */
  lemma RecordTotals(p: Pool, p': Pool, a: Address, r: Provider)
    requires p'.providers == p.providers[a := r]
    ensures Sum(Totals0(p')) == Sum(Totals0(p)) - ProviderOf(p, a).total0 + r.total0
    ensures Sum(Totals1(p')) == Sum(Totals1(p)) - ProviderOf(p, a).total1 + r.total1
  {
    SumUpdate(Totals0(p), a, r.total0);
    SumUpdate(Totals1(p), a, r.total1);
    assert Totals0(p') == Totals0(p)[a := r.total0];
    assert Totals1(p') == Totals1(p)[a := r.total1];
  }

  lemma RemoveKeepsTotals(p: Pool, op: Op)
    requires op.RemoveOp? && RemoveLiquidity(p, op.sender, op.amount0, op.amount1, op.now, op.settled).Some?
    ensures var p' := RemoveLiquidity(p, op.sender, op.amount0, op.amount1, op.now, op.settled).value;
            Sum(Totals0(p')) == Sum(Totals0(p)) && Sum(Totals1(p')) == Sum(Totals1(p))
  {
    var p' := RemoveLiquidity(p, op.sender, op.amount0, op.amount1, op.now, op.settled).value;
    if op.sender == p.owner {
      assert Totals0(p') == Totals0(p) && Totals1(p') == Totals1(p);
    } else {
      RecordTotals(p, p', op.sender, p'.providers[op.sender]);
    }
  }

  lemma RemoveKeepsSums(w: World, op: Op)
    requires SumsExact(w) && op.RemoveOp?
    ensures SumsExact(Step(w, op))
  {
    if RemoveLiquidity(w.pool, op.sender, op.amount0, op.amount1, op.now, op.settled).Some? {
      RemoveKeepsTotals(w.pool, op);
      SumUpdate(w.taken0, op.sender, Get(w.taken0, op.sender) + op.amount0);
      SumUpdate(w.taken1, op.sender, Get(w.taken1, op.sender) + op.amount1);
    }
  }

  lemma SwapKeepsSums(w: World, tokenIn: Address, amountIn: nat, s: Outcome)
    requires SumsExact(w) && s.pool == Move(w.pool, tokenIn, amountIn - FeeSent(w.pool, s.fee), s.amountOut)
    ensures SumsExact(AfterSwap(w, tokenIn, amountIn, s))
  {
    assert Totals0(s.pool) == Totals0(w.pool) && Totals1(s.pool) == Totals1(w.pool);
  }

  lemma OthersKeepSums(w: World, op: Op)
    requires SumsExact(w) && !MovesLiquidity(op)
    ensures SumsExact(Step(w, op))
  {
    if op.SwapOp? {
      var s := Swap(w.pool, op.tokenIn, op.amountIn, op.settled);
      if s.Some? {
        SwapKeepsSums(w, op.tokenIn, op.amountIn, s.value);
      }
    } else {
      SettingsKeepSums(w, op);
    }
  }

  lemma SettingsKeepSums(w: World, op: Op)
    requires SumsExact(w) && !MovesLiquidity(op) && !op.SwapOp?
    ensures SumsExact(Step(w, op))
  {
    var w' := Step(w, op);
    assert w'.pool.providers == w.pool.providers;
    assert Totals0(w'.pool) == Totals0(w.pool) && Totals1(w'.pool) == Totals1(w.pool);
  }

  /** Every run from an empty pool accounts for all tokens, and records are exact for every provider. */
  lemma {:induction false} RunsAreAccounted(start: Pool, ops: seq<Op>)
    requires start.reserve0 == 0 && start.reserve1 == 0 && start.providers == map[]
    ensures SumsExact(Run(Fresh(start), ops))
    ensures forall a :: RecordExact(Run(Fresh(start), ops), a)
  {
    if ops == [] {
      assert Totals0(start) == map[] && Totals1(start) == map[];
    } else {
      var w, op := Run(Fresh(start), ops[..|ops| - 1]), ops[|ops| - 1];
      RunsAreAccounted(start, ops[..|ops| - 1]);
      if op.AddOp? {
        AddKeepsSums(w, op);
      } else if op.RemoveOp? {
        RemoveKeepsSums(w, op);
      } else {
        OthersKeepSums(w, op);
      }
      forall a
        ensures RecordExact(Step(w, op), a)
      {
        StepKeepsRecord(w, op, a);
      }
    }
  }

  /** Apart from the owner, nobody ever takes out more of either token than they put in. */
  lemma ProvidersTakeOnlyTheirOwn(start: Pool, ops: seq<Op>, a: Address)
    requires start.reserve0 == 0 && start.reserve1 == 0 && start.providers == map[]
    requires a != Run(Fresh(start), ops).pool.owner
    ensures var w := Run(Fresh(start), ops);
            Get(w.taken0, a) <= ProviderOf(w.pool, a).total0 && Get(w.taken1, a) <= ProviderOf(w.pool, a).total1
  {
    RunsAreAccounted(start, ops);
    assert RecordExact(Run(Fresh(start), ops), a);
  }

  ghost predicate Funded(p: Pool) {
    Valid(p) && p.reserve0 > 0 && p.reserve1 > 0
  }

  lemma StepKeepsFunded(w: World, op: Op)
    requires Funded(w.pool)
    ensures Funded(Step(w, op).pool)
  {
    if op.SwapOp? {
      if Swap(w.pool, op.tokenIn, op.amountIn, op.settled).Some? {
        SwapKeepsProduct(w.pool, op.tokenIn, op.amountIn, op.settled);
      }
    } else if op.RemoveOp? {
      RemovalLeavesFunded(w.pool, op);
    }
  }

  lemma RemovalLeavesFunded(p: Pool, op: Op)
    requires Funded(p) && op.RemoveOp?
    ensures Funded(RemoveLiquidity(p, op.sender, op.amount0, op.amount1, op.now, op.settled).GetOr(p))
  {
  }

  /** Once both reserves are positive no call of any kind empties either. */
  lemma {:induction false} ReservesStayPositive(start: Pool, ops: seq<Op>)
    requires Funded(start)
    ensures Funded(Run(Fresh(start), ops).pool)
  {
    if ops != [] {
      ReservesStayPositive(start, ops[..|ops| - 1]);
      StepKeepsFunded(Run(Fresh(start), ops[..|ops| - 1]), ops[|ops| - 1]);
    }
  }
}
