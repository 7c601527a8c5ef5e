/**
 The reward contract as an object.  A method's result says whether the call went through; when it
 did not, the state is as before.  Signature checks are a flag, token transfers in are a flag, and
 reputation-weighted distribution is off.
 */
module ContributorReward {
  import opened Options
  import opened Sums
  import opened RewardLedger
  import opened RewardScores

  class ContributorReward {
    var owner: Address
    var governance: Address
    var contributionScore: map<string, map<Address, int>>
    var periodTotalScore: map<string, int>
    var periodReward: map<Address, map<string, int>>
    var claimed: map<Address, map<string, map<Address, int>>>
    var reserveBps: int
    var reputationThreshold: int
    var reputationScore: map<Address, int>
    /** What the token contracts record for this contract. */
    var tokenBalance: map<Address, int>

    ghost function Abs(): Ledger
      reads this
    {
      Ledger(contributionScore, periodTotalScore, periodReward, claimed,
             reserveBps, reputationThreshold, reputationScore, tokenBalance)
    }

    constructor (sender: Address)
      ensures Abs() == EMPTY_LEDGER && owner == sender && governance == ZERO_ADDRESS
    {
      owner, governance := sender, ZERO_ADDRESS;
      contributionScore, periodTotalScore, periodReward, claimed := map[], map[], map[], map[];
      reserveBps, reputationThreshold, reputationScore, tokenBalance := DEFAULT_RESERVE_BPS, 0, map[], map[];
    }

    /** Replaces one account's score and moves the period's total along. */
    method ApplyScore(pid: string, account: Address, newScore: int) returns (ok: bool)
      modifies this`contributionScore, this`periodTotalScore
      ensures ok == SetScore(old(Abs()), pid, account, newScore).Some?
      ensures Abs() == SetScore(old(Abs()), pid, account, newScore).GetOr(old(Abs()))
    {
      var scores := GetMap(contributionScore, pid);
      var oldScore := Get(scores, account);
      var total := Get(periodTotalScore, pid);
      if oldScore > 0 {
        if total < oldScore {
          return false;
        }
        total := total - oldScore;
      }
      if total < 0 || total + newScore >= TWO_256 {
        return false;
      }
      periodTotalScore := periodTotalScore[pid := total + newScore];
      contributionScore := contributionScore[pid := scores[account := newScore]];
      return true;
    }

    method SubmitProof(sender: Address, period: string, m: Metrics, nodeType: nat, signatureOk: bool) returns (ok: bool)
      modifies this`contributionScore, this`periodTotalScore
      ensures var score := ComputeScore(m, nodeType);
              var accepted := period != "" && m.uptime <= SCALE && signatureOk && score.Some?;
              ok == (accepted && SetScore(old(Abs()), period, sender, score.value).Some?)
              && Abs() == if ok then SetScore(old(Abs()), period, sender, score.value).value else old(Abs())
    {
      if period == "" || m.uptime > SCALE || !signatureOk {
        return false;
      }
      var newScore := ComputeScore(m, nodeType);
      if newScore.None? {
        return false;
      }
      ok := ApplyScore(period, sender, newScore.value);
    }

    method SubmitLiquidityProof(sender: Address, period: string, liquidity: nat, signatureOk: bool) returns (ok: bool)
      modifies this`contributionScore, this`periodTotalScore
      ensures var score := ComputeLiquidityScore(liquidity);
              var accepted := period != "" && liquidity > 0 && signatureOk && score.Some?;
              ok == (accepted && SetScore(old(Abs()), period, sender, score.value).Some?)
              && Abs() == if ok then SetScore(old(Abs()), period, sender, score.value).value else old(Abs())
    {
      if period == "" || liquidity == 0 || !signatureOk {
        return false;
      }
      var newScore := ComputeLiquidityScore(liquidity);
      if newScore.None? {
        return false;
      }
      ok := ApplyScore(period, sender, newScore.value);
    }

    method SetContributionScore(sender: Address, period: string, account: Address, score: nat) returns (ok: bool)
      modifies this`contributionScore, this`periodTotalScore
      ensures ok == (sender == owner && account != ZERO_ADDRESS && SetScore(old(Abs()), period, account, score).Some?)
      ensures Abs() == if ok then SetScore(old(Abs()), period, account, score).value else old(Abs())
    {
      if sender != owner || account == ZERO_ADDRESS {
        return false;
      }
      ok := ApplyScore(period, account, score);
    }

    method SetPeriodReward(sender: Address, period: string, token: Address, amount: nat, funded: bool)
      returns (ok: bool)
      modifies this`periodReward, this`tokenBalance
      ensures ok == (sender == owner && Fund(old(Abs()), token, period, amount, funded).Some?)
      ensures Abs() == if ok then Fund(old(Abs()), token, period, amount, funded).value else old(Abs())
    {
      if sender != owner || token == ZERO_ADDRESS || amount == 0 || !funded {
        return false;
      }
      var pool := Get(GetMap(periodReward, token), period);
      if pool + amount >= TWO_256 {
        return false;
      }
      tokenBalance := tokenBalance[token := Get(tokenBalance, token) + amount];
      periodReward := periodReward[token := GetMap(periodReward, token)[period := pool + amount]];
      return true;
    }

    method SetReserveBps(sender: Address, bps: nat) returns (ok: bool)
      modifies this`reserveBps
      ensures ok == (sender == governance && governance != "" && bps <= 5000)
      ensures Abs() == if ok then old(Abs()).(reserveBps := bps) else old(Abs())
    {
      if sender != governance || governance == ZERO_ADDRESS || bps > MAX_RESERVE_BPS {
        return false;
      }
      reserveBps := bps;
      return true;
    }

    /** Pays out and returns the amount, or `None` when the call reverts. */
    method ClaimReward(sender: Address, period: string, token: Address) returns (paid: Option<int>)
      modifies this`claimed, this`tokenBalance
      ensures var c := Claim(old(Abs()), token, period, sender);
              if c.Some? then paid == Some(c.value.1) && Abs() == c.value.0 else paid == None && Abs() == old(Abs())
    {
      if reputationThreshold > 0 && Get(reputationScore, sender) < reputationThreshold {
        return None;
      }
      var myScore := Get(GetMap(contributionScore, period), sender);
      var pool := Get(GetMap(periodReward, token), period);
      if myScore <= 0 || pool <= 0 || pool * (BPS - reserveBps) >= TWO_256 {
        return None;
      }
      var distributable := pool * (BPS - reserveBps) / BPS;
      var total := Get(periodTotalScore, period);
      if total <= 0 || distributable * myScore >= TWO_256 {
        return None;
      }
      var byPeriod := if token in claimed then claimed[token] else map[];
      var mine := Get(GetMap(byPeriod, period), sender);
      var share := distributable * myScore / total;
      if share <= mine {
        return None;
      }
      var amount := Min(share - mine, pool / 10);
      if Get(tokenBalance, token) < amount {
        return None;
      }
      claimed := claimed[token := byPeriod[period := GetMap(byPeriod, period)[sender := mine + amount]]];
      tokenBalance := tokenBalance[token := Get(tokenBalance, token) - amount];
      return Some(amount);
    }
  }
}
