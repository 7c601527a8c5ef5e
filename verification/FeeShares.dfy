/**
 Fee distribution as a value: who is entitled to what of the fees received, in the unchecked
 256-bit arithmetic the contract uses, and the laws of a whole run.
 */
module FeeShares {
  import opened Options
  import opened Sums

  type Address = string

  const ZERO_ADDRESS: Address := ""
  const DEVELOPER_SHARE_BPS: int := 100
  const BPS: int := 10000
  const UINT16: int := 0x1_0000

  datatype Recipient = Recipient(account: Address, shareBps: int)

  datatype Fees = Fees(
    recipients: seq<Recipient>,
    totalShareBps: int,
    developer: Address,
    accumulated: map<Address, int>,
    claimed: map<Address, map<Address, int>>,
    balance: map<Address, int>)

  const NO_FEES := Fees([], 0, ZERO_ADDRESS, map[], map[], map[])

  function Claimed(f: Fees, token: Address, a: Address): int {
    Get(GetMap(f.claimed, token), a)
  }

  function ShareSum(rs: seq<Recipient>): int {
    if rs == [] then 0 else ShareSum(rs[..|rs| - 1]) + rs[|rs| - 1].shareBps
  }

  /** The share of the first entry for an account; later ones are not looked at. */
  function FirstShare(rs: seq<Recipient>, a: Address): int {
    if rs == [] then 0 else if rs[0].account == a then rs[0].shareBps else FirstShare(rs[1..], a)
  }

  // ----- operations -----

  /** No entry has a zero address, and the sum of shares stays a uint16 while the list is built. */
  predicate Buildable(rs: seq<Recipient>) {
    forall i :: 0 <= i < |rs| ==> rs[i].account != ZERO_ADDRESS && ShareSum(rs[..i + 1]) < UINT16
  }

  /** A list setRecipients accepts. */
  predicate Acceptable(rs: seq<Recipient>, developer: Address) {
    Buildable(rs)
    && ShareSum(rs) <= if developer == ZERO_ADDRESS then BPS else BPS - DEVELOPER_SHARE_BPS
  }

  function SetRecipients(f: Fees, rs: seq<Recipient>): Option<Fees> {
    if Acceptable(rs, f.developer) then Some(f.(recipients := rs, totalShareBps := ShareSum(rs))) else None
  }

  function DeveloperCut(developer: Address, amount: int): int {
    if developer == ZERO_ADDRESS then 0 else amount * DEVELOPER_SHARE_BPS / BPS
  }

  /** receiveFee; `funded` says whether the payer's tokens arrived. */
  function Receive(f: Fees, token: Address, amount: int, funded: bool): Option<Fees> {
    if token == ZERO_ADDRESS || amount <= 0 || !funded then None
    else if f.developer != ZERO_ADDRESS && amount * DEVELOPER_SHARE_BPS >= TWO_256 then None
    else
      var kept := amount - DeveloperCut(f.developer, amount);
      if Get(f.accumulated, token) + kept >= TWO_256 then None
      else
        Some(f.(accumulated := f.accumulated[token := Get(f.accumulated, token) + kept],
                balance := f.balance[token := Get(f.balance, token) + kept]))
  }

  /** What claim computes, with product and difference taken modulo 2^256. */
  function Unchecked(acc: int, share: int, total: int, claimed: int): int
    requires total > 0
  {
    (acc * share % TWO_256 / total - claimed) % TWO_256
  }

  function Pending(f: Fees, token: Address, a: Address): int
    requires f.totalShareBps > 0
  {
    Unchecked(Get(f.accumulated, token), FirstShare(f.recipients, a), f.totalShareBps, Claimed(f, token, a))
  }

  function Claimable(f: Fees, token: Address, a: Address): int {
    if f.totalShareBps <= 0 || FirstShare(f.recipients, a) == 0 then 0 else Pending(f, token, a)
  }

  function Pay(f: Fees, token: Address, a: Address, amount: int): Fees {
    f.(claimed := f.claimed[token := GetMap(f.claimed, token)[a := Claimed(f, token, a) + amount]],
       balance := f.balance[token := Get(f.balance, token) - amount])
  }

  function Claim(f: Fees, token: Address, a: Address): Option<(Fees, int)> {
    if Get(f.balance, token) <= 0 || f.totalShareBps <= 0 || FirstShare(f.recipients, a) <= 0 then None
    else
      var amount := Pending(f, token, a);
      if amount <= 0 || Claimed(f, token, a) + amount >= TWO_256 || Get(f.balance, token) < amount then None
      else Some((Pay(f, token, a, amount), amount))
  }

  // ----- shares -----

  /** The shares that count, by account. */
  function Shares(rs: seq<Recipient>): map<Address, int> {
    if rs == [] then map[] else Shares(rs[1..])[rs[0].account := rs[0].shareBps]
  }

  ghost predicate SharesOk(rs: seq<Recipient>) {
    forall i :: 0 <= i < |rs| ==> rs[i].shareBps >= 0
  }

  lemma {:induction false} ShareSumFront(rs: seq<Recipient>)
    requires rs != []
    ensures ShareSum(rs) == rs[0].shareBps + ShareSum(rs[1..])
  {
    if |rs| > 1 {
      ShareSumFront(rs[..|rs| - 1]);
      assert rs[..|rs| - 1][1..] == rs[1..][..|rs| - 2];
    } else {
      assert rs[..0] == [] && rs[1..] == [];
    }
  }

  ghost predicate DistinctAccounts(rs: seq<Recipient>) {
    forall i, j :: 0 <= i < j < |rs| ==> rs[i].account != rs[j].account
  }

  lemma {:induction false} SharesFacts(rs: seq<Recipient>, a: Address)
    requires SharesOk(rs)
    ensures Get(Shares(rs), a) == FirstShare(rs, a) && 0 <= FirstShare(rs, a) <= ShareSum(rs)
    ensures a in Shares(rs) <==> exists r :: r in rs && r.account == a
    ensures forall b :: b in Shares(rs) ==> Shares(rs)[b] >= 0
  {
    if rs != [] {
      SharesFacts(rs[1..], a);
      ShareSumFront(rs);
      assert rs == [rs[0]] + rs[1..];
    }
  }

  /** Counted shares add up to at most the total, and to all of it when no account is listed twice. */
  lemma {:induction false} SharesSum(rs: seq<Recipient>)
    requires SharesOk(rs)
    ensures Sum(Shares(rs)) <= ShareSum(rs)
    ensures DistinctAccounts(rs) ==> Sum(Shares(rs)) == ShareSum(rs)
  {
    if rs != [] {
      var rest := rs[1..];
      SharesSum(rest);
      ShareSumFront(rs);
      SharesFacts(rest, rs[0].account);
      SumUpdate(Shares(rest), rs[0].account, rs[0].shareBps);
      if DistinctAccounts(rs) {
        forall r | r in rest
          ensures r.account != rs[0].account
        {
          var i :| 0 <= i < |rest| && rest[i] == r;
          assert rs[i + 1] == r;
        }
      }
    }
  }

  // ----- the invariant -----

  ghost predicate ClaimsBounded(f: Fees, token: Address) {
    var acc := Get(f.accumulated, token);
    acc >= 0
    && forall a :: a in GetMap(f.claimed, token) ==>
         var c := GetMap(f.claimed, token)[a];
         c >= 0 && c * f.totalShareBps <= acc * FirstShare(f.recipients, a) && (c > 0 ==> f.totalShareBps > 0)
  }

  ghost predicate BalanceCovers(f: Fees, token: Address) {
    Get(f.balance, token) >= Get(f.accumulated, token) - Sum(GetMap(f.claimed, token))
  }

  ghost predicate Inv(f: Fees) {
    SharesOk(f.recipients) && f.totalShareBps == ShareSum(f.recipients) && f.totalShareBps <= BPS
    && forall token :: ClaimsBounded(f, token) && BalanceCovers(f, token)
  }

  /** The largest accumulation for which no product in claim can overflow. */
  predicate Small(acc: int) {
    0 <= acc && acc * BPS < TWO_256
  }

  /** The unchecked amount is the true difference exactly when no more has been claimed than is due. */
  lemma UncheckedIsExact(acc: int, share: int, total: int, claimed: int)
    requires Small(acc) && 0 <= share <= total <= BPS && total > 0 && 0 <= claimed < TWO_256
    ensures Unchecked(acc, share, total, claimed) == acc * share / total - claimed
            <==> claimed <= acc * share / total
  {
    TimesLess(share, BPS, acc);
    TimesLess(0, share, acc);
    assert 0 <= acc * share <= acc * BPS;
    FloorBounds(acc * share, total);
    QuotientSmall(acc * share, total);
  }

  lemma QuotientSmall(x: int, d: int)
    requires 0 <= x && d > 0
    ensures 0 <= x / d <= x
  {
    var q := x / d;
    FloorBounds(x, d);
    Distribute(q, 1, d);
    ScaleLess(q + 1, 0, d);
    TimesLess(1, d, q);
    assert d * q == q * d;
  }

  /** What an account is due never wraps, and was not over-claimed. */
  lemma PendingIsDue(f: Fees, token: Address, a: Address)
    requires Inv(f) && Small(Get(f.accumulated, token)) && f.totalShareBps > 0
    ensures var acc, share := Get(f.accumulated, token), FirstShare(f.recipients, a);
            Pending(f, token, a) == acc * share / f.totalShareBps - Claimed(f, token, a)
            && 0 <= Claimed(f, token, a) <= acc * share / f.totalShareBps <= acc
  {
    var acc, share, total, c :=
      Get(f.accumulated, token), FirstShare(f.recipients, a), f.totalShareBps, Claimed(f, token, a);
    assert ClaimsBounded(f, token);
    SharesFacts(f.recipients, a);
    TimesLess(share, total, acc);
    Product(acc, share);
    assert acc * share == share * acc && acc * total == total * acc;
    FloorBounds(acc * share, total);
    DueBounds(acc, share, total, c);
    UncheckedIsExact(acc, share, total, c);
  }

  lemma DueBounds(acc: int, share: int, total: int, c: int)
    requires total > 0 && c * total <= acc * share <= acc * total
    ensures c <= acc * share / total <= acc
  {
    var e := acc * share / total;
    FloorBounds(acc * share, total);
    Distribute(e, 1, total);
    ScaleLess(e + 1, c, total);
    ScaleLess(e, acc, total);
  }

  /** Everything claimed of a token is at most everything accumulated. */
  lemma Solvent(f: Fees, token: Address)
    requires Inv(f)
    ensures Sum(GetMap(f.claimed, token)) <= Get(f.accumulated, token)
  {
    var c, acc, total := GetMap(f.claimed, token), Get(f.accumulated, token), f.totalShareBps;
    assert ClaimsBounded(f, token);
    SharesFacts(f.recipients, ZERO_ADDRESS);
    forall a | a in c
      ensures c[a] * total <= acc * Get(Shares(f.recipients), a)
    {
      SharesFacts(f.recipients, a);
    }
    ProRataSum(c, Shares(f.recipients), total, acc);
    SharesSum(f.recipients);
    TimesLess(Sum(Shares(f.recipients)), total, acc);
    assert acc * total == total * acc && acc * Sum(Shares(f.recipients)) == Sum(Shares(f.recipients)) * acc;
    if total > 0 {
      ScaleLess(Sum(c), acc, total);
    } else {
      SumMonotone(c, map[]);
    }
  }

  lemma PayKeepsBounded(f: Fees, token: Address, a: Address, t: Address)
    requires Inv(f) && Small(Get(f.accumulated, token)) && f.totalShareBps > 0
    ensures ClaimsBounded(Pay(f, token, a, Pending(f, token, a)), t)
  {
    var acc, share, total := Get(f.accumulated, token), FirstShare(f.recipients, a), f.totalShareBps;
    assert ClaimsBounded(f, t);
    PendingIsDue(f, token, a);
    FloorBounds(acc * share, total);
    var f' := Pay(f, token, a, Pending(f, token, a));
    if t == token {
      assert GetMap(f'.claimed, t) == GetMap(f.claimed, t)[a := acc * share / total];
    } else {
      assert GetMap(f'.claimed, t) == GetMap(f.claimed, t);
    }
  }

  lemma PayKeepsInv(f: Fees, token: Address, a: Address)
    requires Inv(f) && Small(Get(f.accumulated, token)) && f.totalShareBps > 0
    ensures Inv(Pay(f, token, a, Pending(f, token, a)))
  {
    var f' := Pay(f, token, a, Pending(f, token, a));
    forall t
      ensures ClaimsBounded(f', t) && BalanceCovers(f', t)
    {
      PayKeepsBounded(f, token, a, t);
      assert BalanceCovers(f, t);
      SumUpdate(GetMap(f.claimed, token), a, Claimed(f, token, a) + Pending(f, token, a));
      assert t != token ==> GetMap(f'.claimed, t) == GetMap(f.claimed, t);
    }
  }

  /** A recipient with something due is always paid exactly that; the balance is never short. */
  lemma ClaimPaysWhatIsDue(f: Fees, token: Address, a: Address)
    requires Inv(f) && Small(Get(f.accumulated, token)) && f.totalShareBps > 0 && FirstShare(f.recipients, a) > 0
    ensures var due := Get(f.accumulated, token) * FirstShare(f.recipients, a) / f.totalShareBps - Claimed(f, token, a);
            (Claim(f, token, a).Some? <==> due > 0)
            && (due > 0 ==>
                  Claim(f, token, a).value.1 == due == Claimable(f, token, a)
                  && Inv(Claim(f, token, a).value.0)
                  && Settled(Claim(f, token, a).value.0, token, a))
  {
    var f' := Pay(f, token, a, Pending(f, token, a));
    PendingIsDue(f, token, a);
    PayKeepsInv(f, token, a);
    Solvent(f', token);
    SumUpdate(GetMap(f.claimed, token), a, Claimed(f, token, a) + Pending(f, token, a));
    assert BalanceCovers(f, token);
  }

  // ----- tightness -----

  /** An account has claimed its whole share of what has accumulated. */
  predicate Settled(f: Fees, token: Address, a: Address) {
    f.totalShareBps > 0
    && Claimed(f, token, a) == Get(f.accumulated, token) * FirstShare(f.recipients, a) / f.totalShareBps
  }

  lemma {:induction false} SharesCount(rs: seq<Recipient>)
    ensures |Shares(rs)| <= |rs|
    ensures rs != [] ==> Shares(rs) != map[]
  {
    if rs != [] {
      SharesCount(rs[1..]);
      assert Shares(rs).Keys == Shares(rs[1..]).Keys + {rs[0].account};
      assert rs[0].account in Shares(rs);
    }
  }

  /** Strict pro-rata bounds add up to a strict bound, one unit for each account. */
  lemma {:induction false} StrictSum(shares: map<Address, int>, upper: map<Address, int>, acc: int, total: int)
    requires upper.Keys == shares.Keys
    requires forall a :: a in shares ==> shares[a] * acc < upper[a] * total
    ensures Sum(shares) * acc + |shares| <= Sum(upper) * total
    decreases |shares|
  {
    if shares == map[] {
      assert upper == map[];
    } else {
      var a :| a in shares && Sum(shares) == shares[a] + Sum(shares - {a});
      SumTakeOut(upper, a);
      StrictSum(shares - {a}, upper - {a}, acc, total);
      Distribute(shares[a], Sum(shares - {a}), acc);
      Distribute(upper[a], Sum(upper - {a}), total);
    }
  }

  /** Adding one to each of some claims adds their number to the sum. */
  lemma {:induction false} OneMoreEach(claims: map<Address, int>, upper: map<Address, int>)
    requires forall a :: a in claims ==> claims[a] >= 0
    requires forall a :: a in upper ==> upper[a] == Get(claims, a) + 1
    ensures Sum(upper) <= Sum(claims) + |upper|
    decreases |upper|
  {
    if upper == map[] {
      SumNonNegative(claims);
    } else {
      var a :| a in upper && Sum(upper) == upper[a] + Sum(upper - {a});
      SumTakeOut(claims, a);
      OneMoreEach(claims - {a}, upper - {a});
    }
  }

  lemma SettledLoss(f: Fees, token: Address, a: Address)
    requires Inv(f) && a in Shares(f.recipients)
    requires forall r :: r in f.recipients ==> Settled(f, token, r.account)
    ensures Shares(f.recipients)[a] * Get(f.accumulated, token) < (Claimed(f, token, a) + 1) * f.totalShareBps
  {
    var acc, share, total := Get(f.accumulated, token), FirstShare(f.recipients, a), f.totalShareBps;
    SharesFacts(f.recipients, a);
    assert Settled(f, token, a);
    FloorLoss(acc, share, total);
  }

  lemma FloorLoss(acc: int, share: int, total: int)
    requires total > 0
    ensures share * acc < (acc * share / total + 1) * total
  {
    FloorBounds(acc * share, total);
    Distribute(acc * share / total, 1, total);
  }

  /**
   Once every recipient of a list without repetitions has claimed its share of what is there, less
   than one unit per recipient is left over.
   */
  lemma LeftoverIsSmall(f: Fees, token: Address)
    requires Inv(f) && DistinctAccounts(f.recipients) && f.recipients != []
    requires forall r :: r in f.recipients ==> Settled(f, token, r.account)
    ensures 0 <= Get(f.accumulated, token) - Sum(GetMap(f.claimed, token)) < |f.recipients|
  {
    var c, acc, total := GetMap(f.claimed, token), Get(f.accumulated, token), f.totalShareBps;
    var shares := Shares(f.recipients);
    var upper := map a | a in shares :: Get(c, a) + 1;
    assert f.recipients[0] in f.recipients;
    assert ClaimsBounded(f, token);
    Solvent(f, token);
    SharesSum(f.recipients);
    SharesCount(f.recipients);
    forall a | a in shares
      ensures shares[a] * acc < upper[a] * total
    {
      SettledLoss(f, token, a);
    }
    StrictSum(shares, upper, acc, total);
    OneMoreEach(c, upper);
    assert upper.Keys == shares.Keys;
    assert |upper| == |upper.Keys| == |shares.Keys| == |shares|;
    Squeeze(acc, total, Sum(upper), Sum(c) + |shares|, |shares|);
  }

  lemma Squeeze(acc: int, total: int, u: int, bound: int, n: int)
    requires total > 0 && n > 0 && total * acc + n <= u * total && u <= bound
    ensures acc < bound
  {
    assert total * acc == acc * total;
    ScaleLess(u, acc, total);
  }

  // ----- runs -----

  datatype Op =
    | RecipientsOp(recipients: seq<Recipient>)
    | DeveloperOp(developer: Address)
    | ReceiveOp(token: Address, amount: int, funded: bool)
    | ClaimOp(token: Address, account: Address)

  function Apply(f: Fees, op: Op): Fees {
    match op
    case RecipientsOp(rs) => SetRecipients(f, rs).GetOr(f)
    case DeveloperOp(d) => f.(developer := d)
    case ReceiveOp(token, amount, funded) => Receive(f, token, amount, funded).GetOr(f)
    case ClaimOp(token, a) => Claim(f, token, a).GetOr((f, 0)).0
  }

  function ApplyAll(ops: seq<Op>): Fees {
    if ops == [] then NO_FEES else Apply(ApplyAll(ops[..|ops| - 1]), ops[|ops| - 1])
  }

  // ----- everyone claims -----

  /** Claims by these accounts one after the other, no fee arriving in between. */
  function ClaimSeq(f: Fees, token: Address, accounts: seq<Address>): Fees {
    if accounts == [] then f
    else Apply(ClaimSeq(f, token, accounts[..|accounts| - 1]), ClaimOp(token, accounts[|accounts| - 1]))
  }

  /** A claim, whether it pays or reverts, leaves the account settled. */
  lemma ClaimSettles(f: Fees, token: Address, a: Address)
    requires Inv(f) && Small(Get(f.accumulated, token)) && f.totalShareBps > 0
    ensures var f' := Apply(f, ClaimOp(token, a)); Inv(f') && Settled(f', token, a)
  {
    PendingIsDue(f, token, a);
    SharesFacts(f.recipients, a);
    if FirstShare(f.recipients, a) > 0 {
      ClaimPaysWhatIsDue(f, token, a);
    }
  }

  /** It changes neither what has accumulated nor the shares, nor another account's claims. */
  lemma ClaimIsLocal(f: Fees, token: Address, a: Address)
    ensures var f' := Apply(f, ClaimOp(token, a));
            f'.accumulated == f.accumulated && f'.recipients == f.recipients && f'.totalShareBps == f.totalShareBps
            && forall b :: b != a ==> Claimed(f', token, b) == Claimed(f, token, b)
  {
  }

  lemma {:induction false} ClaimSeqSettles(f: Fees, token: Address, accounts: seq<Address>)
    requires Inv(f) && Small(Get(f.accumulated, token)) && f.totalShareBps > 0
    ensures var f' := ClaimSeq(f, token, accounts);
            Inv(f') && f'.accumulated == f.accumulated && f'.recipients == f.recipients
            && f'.totalShareBps == f.totalShareBps && forall a :: a in accounts ==> Settled(f', token, a)
  {
    if accounts != [] {
      var init, last := accounts[..|accounts| - 1], accounts[|accounts| - 1];
      var before := ClaimSeq(f, token, init);
      ClaimSeqSettles(f, token, init);
      ClaimSettles(before, token, last);
      ClaimIsLocal(before, token, last);
      forall a | a in accounts
        ensures Settled(ClaimSeq(f, token, accounts), token, a)
      {
        if a != last {
          assert a in init;
        }
      }
    }
  }

  /**
   After every recipient of a list without repetitions has claimed, in any order and as often as it
   likes, less than one unit per recipient is left of what had accumulated.
   */
  lemma LeftoverAfterClaims(f: Fees, token: Address, accounts: seq<Address>)
    requires Inv(f) && Small(Get(f.accumulated, token)) && f.totalShareBps > 0
    requires DistinctAccounts(f.recipients) && f.recipients != []
    requires forall r :: r in f.recipients ==> r.account in accounts
    ensures var f' := ClaimSeq(f, token, accounts);
            f'.accumulated == f.accumulated
            && 0 <= Get(f.accumulated, token) - Sum(GetMap(f'.claimed, token)) < |f.recipients|
  {
    ClaimSeqSettles(f, token, accounts);
    LeftoverIsSmall(ClaimSeq(f, token, accounts), token);
  }

  // ----- whole runs -----

  ghost predicate Unclaimed(f: Fees) {
    forall token, a :: a in GetMap(f.claimed, token) ==> GetMap(f.claimed, token)[a] == 0
  }

  /** Recipients are fixed before the first claim, and accumulations stay small enough. */
  ghost predicate Allowed(f: Fees, op: Op) {
    (op.RecipientsOp? ==> Unclaimed(f) && SharesOk(op.recipients))
    && (op.ClaimOp? ==> Small(Get(f.accumulated, op.token)))
  }

  lemma RecipientsKeepInv(f: Fees, rs: seq<Recipient>)
    requires Inv(f) && Unclaimed(f) && SharesOk(rs) && SetRecipients(f, rs).Some?
    ensures Inv(SetRecipients(f, rs).value)
  {
    var f' := SetRecipients(f, rs).value;
    forall t
      ensures ClaimsBounded(f', t) && BalanceCovers(f', t)
    {
      assert ClaimsBounded(f, t) && BalanceCovers(f, t);
      forall a | a in GetMap(f'.claimed, t)
        ensures Get(f.accumulated, t) * FirstShare(rs, a) >= 0
      {
        SharesFacts(rs, a);
        Product(Get(f.accumulated, t), FirstShare(rs, a));
      }
    }
  }

  lemma ReceiveKeepsInv(f: Fees, token: Address, amount: int, funded: bool)
    requires Inv(f) && Receive(f, token, amount, funded).Some?
    ensures Inv(Receive(f, token, amount, funded).value)
  {
    var f' := Receive(f, token, amount, funded).value;
    forall t
      ensures ClaimsBounded(f', t) && BalanceCovers(f', t)
    {
      assert ClaimsBounded(f, t) && BalanceCovers(f, t);
      forall a | a in GetMap(f'.claimed, t)
        ensures Get(f.accumulated, t) * FirstShare(f.recipients, a)
                <= Get(f'.accumulated, t) * FirstShare(f.recipients, a)
      {
        SharesFacts(f.recipients, a);
        TimesLess(Get(f.accumulated, t), Get(f'.accumulated, t), FirstShare(f.recipients, a));
      }
    }
  }

  lemma ApplyKeepsInv(f: Fees, op: Op)
    requires Inv(f) && Allowed(f, op)
    ensures Inv(Apply(f, op))
  {
    match op
    case RecipientsOp(rs) =>
      if SetRecipients(f, rs).Some? {
        RecipientsKeepInv(f, rs);
      }
    case ReceiveOp(token, amount, funded) =>
      if Receive(f, token, amount, funded).Some? {
        ReceiveKeepsInv(f, token, amount, funded);
      }
    case ClaimOp(token, a) =>
      if Claim(f, token, a).Some? {
        PayKeepsInv(f, token, a);
      }
    case DeveloperOp(d) =>
      forall t
        ensures ClaimsBounded(Apply(f, op), t) && BalanceCovers(Apply(f, op), t)
      {
        assert ClaimsBounded(f, t) && BalanceCovers(f, t);
      }
  }

  /** In every allowed run claims stay within what was accumulated, and the balance covers the rest. */
  lemma {:induction false} RunsAreSolvent(ops: seq<Op>)
    requires forall i :: 0 <= i < |ops| ==> Allowed(ApplyAll(ops[..i]), ops[i])
    ensures Inv(ApplyAll(ops))
    ensures forall token :: Sum(GetMap(ApplyAll(ops).claimed, token)) <= Get(ApplyAll(ops).accumulated, token)
  {
    if ops != [] {
      var init := ops[..|ops| - 1];
      forall i | 0 <= i < |init|
        ensures Allowed(ApplyAll(init[..i]), init[i])
      {
        assert init[..i] == ops[..i] && Allowed(ApplyAll(ops[..i]), ops[i]);
      }
      RunsAreSolvent(init);
      assert Allowed(ApplyAll(ops[..|ops| - 1]), ops[|ops| - 1]);
      ApplyKeepsInv(ApplyAll(init), ops[|ops| - 1]);
    }
    forall token
      ensures Sum(GetMap(ApplyAll(ops).claimed, token)) <= Get(ApplyAll(ops).accumulated, token)
    {
      Solvent(ApplyAll(ops), token);
    }
  }
}
