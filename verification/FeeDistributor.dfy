/**
 The fee distributor as an object.  A method's result says whether the call went through; when it
 did not, the state is as before.
 */
module FeeDistributor {
  import opened Options
  import opened Sums
  import opened FeeShares

  function Listed(accounts: seq<Address>, shareBps: seq<nat>): seq<Recipient>
    requires |accounts| == |shareBps|
  {
    seq(|accounts|, i requires 0 <= i < |accounts| => Recipient(accounts[i], shareBps[i]))
  }

  class FeeDistributor {
    var owner: Address
    var governance: Address
    var developerAddress: Address
    var recipients: seq<Recipient>
    var totalShareBps: int
    var accumulated: map<Address, int>
    var claimed: map<Address, map<Address, int>>
    /** What the token contracts record for this contract. */
    var tokenBalance: map<Address, int>

    ghost function Abs(): Fees
      reads this
    {
      Fees(recipients, totalShareBps, developerAddress, accumulated, claimed, tokenBalance)
    }

    constructor (sender: Address)
      ensures Abs() == NO_FEES && owner == sender && governance == ZERO_ADDRESS
    {
      owner, governance, developerAddress := sender, ZERO_ADDRESS, ZERO_ADDRESS;
      recipients, totalShareBps := [], 0;
      accumulated, claimed, tokenBalance := map[], map[], map[];
    }

    predicate Authorised(sender: Address)
      reads this`owner, this`governance
    {
      sender == owner || (governance != ZERO_ADDRESS && sender == governance)
    }

    /** Builds the list entry by entry; a zero address or a uint16 overflow stops it. */
    method BuildRecipients(accounts: seq<Address>, shareBps: seq<nat>)
      returns (listed: seq<Recipient>, total: int, ok: bool)
      requires |accounts| == |shareBps|
      ensures ok == Buildable(Listed(accounts, shareBps))
      ensures ok ==> listed == Listed(accounts, shareBps) && total == ShareSum(listed)
    {
      ghost var rs := Listed(accounts, shareBps);
      listed, total := [], 0;
      var i := 0;
      while i < |accounts|
        invariant 0 <= i <= |accounts| && listed == rs[..i] && total == ShareSum(listed)
        invariant forall j :: 0 <= j < i ==> rs[j].account != ZERO_ADDRESS && ShareSum(rs[..j + 1]) < UINT16
      {
        assert rs[..i + 1][..i] == rs[..i];
        assert ShareSum(rs[..i + 1]) == total + shareBps[i];
        assert rs[i].account == accounts[i];
        if accounts[i] == ZERO_ADDRESS || total + shareBps[i] >= UINT16 {
          ok := false;
          return;
        }
        total := total + shareBps[i];
        listed := listed + [Recipient(accounts[i], shareBps[i])];
        i := i + 1;
      }
      assert rs[..|rs|] == rs;
      ok := true;
    }

    method SetRecipients(sender: Address, accounts: seq<Address>, shareBps: seq<nat>) returns (ok: bool)
      modifies this`recipients, this`totalShareBps
      ensures ok == ((sender == owner || (governance != "" && sender == governance))
                     && |accounts| == |shareBps|
                     && FeeShares.SetRecipients(old(Abs()), Listed(accounts, shareBps)).Some?)
      ensures Abs() == if ok then FeeShares.SetRecipients(old(Abs()), Listed(accounts, shareBps)).value else old(Abs())
    {
      if !Authorised(sender) || |accounts| != |shareBps| {
        return false;
      }
      var listed, total, built := BuildRecipients(accounts, shareBps);
      var maxBps := if developerAddress == ZERO_ADDRESS then BPS else BPS - DEVELOPER_SHARE_BPS;
      if !built || total > maxBps {
        return false;
      }
      recipients, totalShareBps := listed, total;
      return true;
    }

    method SetDeveloperAddress(sender: Address, developer: Address) returns (ok: bool)
      modifies this`developerAddress
      ensures ok == (sender == owner || (governance != "" && sender == governance))
      ensures Abs() == if ok then old(Abs()).(developer := developer) else old(Abs())
    {
      if !Authorised(sender) {
        return false;
      }
      developerAddress := developer;
      return true;
    }

    /** Returns what went to the developer at once. */
    method ReceiveFee(token: Address, amount: nat, funded: bool) returns (ok: bool, developerAmount: int)
      modifies this`accumulated, this`tokenBalance
      ensures ok == Receive(old(Abs()), token, amount, funded).Some?
      ensures Abs() == Receive(old(Abs()), token, amount, funded).GetOr(old(Abs()))
      ensures developerAmount == if ok then DeveloperCut(developerAddress, amount) else 0
    {
      if token == ZERO_ADDRESS || amount == 0 || !funded {
        return false, 0;
      }
      if developerAddress != ZERO_ADDRESS && amount * DEVELOPER_SHARE_BPS >= TWO_256 {
        return false, 0;
      }
      var cut := if developerAddress != ZERO_ADDRESS then amount * DEVELOPER_SHARE_BPS / BPS else 0;
      var toAccumulate := if cut != 0 then amount - cut else amount;
      if Get(accumulated, token) + toAccumulate >= TWO_256 {
        return false, 0;
      }
      tokenBalance := tokenBalance[token := Get(tokenBalance, token) + amount - cut];
      accumulated := accumulated[token := Get(accumulated, token) + toAccumulate];
      return true, cut;
    }

    /** The share of the first entry naming the account. */
    method FindShare(account: Address) returns (share: int)
      ensures share == FirstShare(recipients, account)
    {
      share := 0;
      var i := 0;
      while i < |recipients|
        invariant 0 <= i <= |recipients|
        invariant FirstShare(recipients, account) == FirstShare(recipients[i..], account)
      {
        if recipients[i].account == account {
          return recipients[i].shareBps;
        }
        i := i + 1;
      }
    }

    /** Pays out and returns the amount, or `None` when the call reverts. */
    method Claim(sender: Address, token: Address) returns (paid: Option<int>)
      modifies this`claimed, this`tokenBalance
      ensures var c := FeeShares.Claim(old(Abs()), token, sender);
              if c.Some? then paid == Some(c.value.1) && Abs() == c.value.0 else paid == None && Abs() == old(Abs())
    {
      var balance := Get(tokenBalance, token);
      if balance <= 0 || totalShareBps <= 0 {
        return None;
      }
      var myShareBps := FindShare(sender);
      if myShareBps <= 0 {
        return None;
      }
      var mine := Get(GetMap(claimed, token), sender);
      var amount := Unchecked(Get(accumulated, token), myShareBps, totalShareBps, mine);
      if amount <= 0 || mine + amount >= TWO_256 || balance < amount {
        return None;
      }
      claimed := claimed[token := GetMap(claimed, token)[sender := mine + amount]];
      tokenBalance := tokenBalance[token := balance - amount];
      return Some(amount);
    }

    method Claimable(token: Address, account: Address) returns (amount: int)
      ensures amount == FeeShares.Claimable(Abs(), token, account)
    {
      if totalShareBps <= 0 {
        return 0;
      }
      var share := FindShare(account);
      if share == 0 {
        return 0;
      }
      return Unchecked(Get(accumulated, token), share, totalShareBps, Get(GetMap(claimed, token), account));
    }
  }
}
