/** The contribution score formulas, with the overflow checks of 256-bit arithmetic. */
module RewardScores {
  import opened Options
  import opened Sums

  const SCALE: int := 1_000_000_000_000_000_000
  const CAP_STORAGE_GB: int := 1000
  const CAP_BYTES_RELAYED: int := 1_000_000_000_000
  const CAP_TRADES_MATCHED: int := 1_000_000
  const CAP_VOLUME_MATCHED: int := 1_000_000_000_000_000_000_000_000
  const CAP_LIQUIDITY: int := 100000 * SCALE
  const WEIGHT_MATCH: int := 40
  const WEIGHT_STORAGE: int := 25
  const WEIGHT_LIQUIDITY: int := 20
  const WEIGHT_RELAY: int := 15

  datatype Metrics = Metrics(
    uptime: nat, storageUsedGB: nat, storageTotalGB: nat, bytesRelayed: nat, tradesMatched: nat, volumeMatched: nat)

  /** A metric as a fraction of its cap, at most one; `None` when the product overflows. */
  function Part(x: nat, cap: int): Option<int>
    requires cap > 0
  {
    if x * SCALE >= TWO_256 then None else Some(Min(x * SCALE / cap, SCALE))
  }

  function Weight(nodeType: nat): int {
    if nodeType == 2 then WEIGHT_MATCH
    else if nodeType == 1 then WEIGHT_STORAGE
    else if nodeType == 3 then WEIGHT_LIQUIDITY
    else WEIGHT_RELAY
  }

  /** What a node type earns on top of its uptime. */
  function Extra(m: Metrics, nodeType: nat): Option<int> {
    if nodeType == 2 then
      var t, v := Part(m.tradesMatched, CAP_TRADES_MATCHED), Part(m.volumeMatched, CAP_VOLUME_MATCHED);
      if t.None? || v.None? then None else Some(Min(t.value / 2 + v.value / 2, SCALE))
    else if nodeType == 1 then Part(m.storageUsedGB, CAP_STORAGE_GB)
    else if nodeType == 3 then Some(0)
    else Part(m.bytesRelayed, CAP_BYTES_RELAYED)
  }

  function ComputeScore(m: Metrics, nodeType: nat): Option<int> {
    var e := Extra(m, nodeType);
    if e.None? then None else Some((m.uptime + e.value) * Weight(nodeType))
  }

  function ComputeLiquidityScore(liquidity: nat): Option<int> {
    var p := Part(liquidity, CAP_LIQUIDITY);
    if p.None? then None else Some((SCALE + p.value) * WEIGHT_LIQUIDITY / 100)
  }

  lemma PartMonotone(x: nat, y: nat, cap: int)
    requires cap > 0 && x <= y && Part(y, cap).Some?
    ensures Part(x, cap).Some? && 0 <= Part(x, cap).value <= Part(y, cap).value <= SCALE
  {
    assert x * SCALE <= y * SCALE;
    QuotientMonotone(x * SCALE, y * SCALE, cap);
  }

  lemma QuotientMonotone(a: int, b: int, d: int)
    requires d > 0 && 0 <= a <= b
    ensures 0 <= a / d <= b / d
  {
    var x, y := a / d, b / d;
    FloorBounds(a, d);
    FloorBounds(b, d);
    Distribute(y, 1, d);
    ScaleLess(y + 1, x, d);
    ScaleLess(0, x + 1, d);
    Distribute(x, 1, d);
  }

  predicate AtMost(m: Metrics, n: Metrics) {
    m.uptime <= n.uptime && m.storageUsedGB <= n.storageUsedGB && m.bytesRelayed <= n.bytesRelayed
    && m.tradesMatched <= n.tradesMatched && m.volumeMatched <= n.volumeMatched
  }

  /** Doing more never scores less, whatever total storage is claimed, and no score passes its cap. */
  lemma ScoreIsMonotone(m: Metrics, n: Metrics, nodeType: nat)
    requires AtMost(m, n) && n.uptime <= SCALE && ComputeScore(n, nodeType).Some?
    ensures ComputeScore(m, nodeType).Some?
    ensures 0 <= ComputeScore(m, nodeType).value <= ComputeScore(n, nodeType).value <= 2 * SCALE * Weight(nodeType)
  {
    if nodeType == 2 {
      PartMonotone(m.tradesMatched, n.tradesMatched, CAP_TRADES_MATCHED);
      PartMonotone(m.volumeMatched, n.volumeMatched, CAP_VOLUME_MATCHED);
    } else if nodeType == 1 {
      PartMonotone(m.storageUsedGB, n.storageUsedGB, CAP_STORAGE_GB);
    } else if nodeType != 3 {
      PartMonotone(m.bytesRelayed, n.bytesRelayed, CAP_BYTES_RELAYED);
    }
  }

  /** Liquidity scores run from a fifth of the scale, for next to nothing, to two fifths at the cap. */
  lemma LiquidityScoreRange(x: nat, y: nat)
    requires x <= y && ComputeLiquidityScore(y).Some?
    ensures ComputeLiquidityScore(x).Some?
    ensures SCALE / 5 <= ComputeLiquidityScore(x).value <= ComputeLiquidityScore(y).value <= 2 * SCALE / 5
    ensures x >= CAP_LIQUIDITY ==> ComputeLiquidityScore(x).value == 2 * SCALE / 5
  {
    PartMonotone(x, y, CAP_LIQUIDITY);
    if x >= CAP_LIQUIDITY {
      QuotientMonotone(CAP_LIQUIDITY * SCALE, x * SCALE, CAP_LIQUIDITY);
      assert CAP_LIQUIDITY * SCALE / CAP_LIQUIDITY == SCALE;
    }
  }
}
