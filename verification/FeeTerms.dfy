/** What the distributor keeps, pays and accepts, by what the amounts and lists have to satisfy. */
module FeeTerms {
  import opened Options
  import opened Sums
  import opened FeeShares

  /** The developer's part: one hundredth, rounded down, if there is a developer. */
  predicate IsCut(developer: Address, amount: int, cut: int) {
    if developer == "" then cut == 0 else cut * 100 <= amount < (cut + 1) * 100
  }

  /** When a fee is taken in, and what is then accumulated: all of it but the developer's part. */
  lemma ReceivedOnTheseTerms(f: Fees, token: Address, amount: nat, funded: bool, cut: int)
    requires IsCut(f.developer, amount, cut)
    ensures DeveloperCut(f.developer, amount) == cut
    ensures var acc, held := Get(f.accumulated, token), Get(f.balance, token);
            Receive(f, token, amount, funded)
            == if token != "" && amount > 0 && funded && acc + (amount - cut) < TWO_256
                  && (f.developer != "" ==> amount * 100 < TWO_256)
               then Some(f.(accumulated := f.accumulated[token := acc + (amount - cut)],
                            balance := f.balance[token := held + (amount - cut)]))
               else None
  {
  }

  /** The entry that counts is the first one for an account. */
  lemma {:induction false} FirstEntryCounts(rs: seq<Recipient>, a: Address, i: nat)
    requires i <= |rs| && forall j :: 0 <= j < i ==> rs[j].account != a
    requires i < |rs| ==> rs[i].account == a
    ensures FirstShare(rs, a) == if i < |rs| then rs[i].shareBps else 0
  {
    if i > 0 {
      FirstEntryCounts(rs[1..], a, i - 1);
    }
  }

  lemma {:induction false} PrefixShares(rs: seq<Recipient>, i: nat)
    requires SharesOk(rs) && i <= |rs|
    ensures 0 <= ShareSum(rs[..i]) <= ShareSum(rs)
  {
    if i < |rs| {
      PrefixShares(rs[..|rs| - 1], i);
      assert rs[..|rs| - 1][..i] == rs[..i];
    } else {
      assert rs[..i] == rs;
      if i > 0 {
        PrefixShares(rs[..i - 1], i - 1);
      }
    }
  }

  /**
   A list is accepted if and only if it names no zero address and its shares add up to at most the
   whole, less one hundredth for a developer; the narrow counter never overflows on such a list.
   */
  lemma AcceptedLists(f: Fees, rs: seq<Recipient>)
    requires SharesOk(rs)
    ensures SetRecipients(f, rs)
            == if (forall r :: r in rs ==> r.account != "")
                  && ShareSum(rs) <= (if f.developer == "" then 10000 else 9900)
               then Some(f.(recipients := rs, totalShareBps := ShareSum(rs)))
               else None
  {
    forall k | 0 <= k <= |rs|
      ensures ShareSum(rs[..k]) <= ShareSum(rs)
    {
      PrefixShares(rs, k);
    }
    if forall r :: r in rs ==> r.account != "" {
      assert forall i :: 0 <= i < |rs| ==> rs[i] in rs;
    } else {
      var r :| r in rs && r.account == "";
      var i :| 0 <= i < |rs| && rs[i] == r;
    }
  }

  // ----- claiming -----

  /** `e` is the largest amount that is at most the account's part of what was accumulated, by shares. */
  predicate IsDue(f: Fees, token: Address, a: Address, e: int) {
    e * f.totalShareBps <= Get(f.accumulated, token) * FirstShare(f.recipients, a) < (e + 1) * f.totalShareBps
  }

  lemma OnlyDue(f: Fees, token: Address, a: Address, e: int)
    requires f.totalShareBps > 0
    ensures IsDue(f, token, a, e)
            <==> e == Get(f.accumulated, token) * FirstShare(f.recipients, a) / f.totalShareBps
  {
    FloorIsLargest(Get(f.accumulated, token) * FirstShare(f.recipients, a), f.totalShareBps, e);
    FloorIsLargest(Get(f.accumulated, token) * FirstShare(f.recipients, a), f.totalShareBps, e + 1);
  }

  /** `f'` is `f` after `a` was paid: its claims are up and the balance is down by that, nothing else differs. */
  ghost predicate PaidOut(f: Fees, f': Fees, token: Address, a: Address, paid: int) {
    f' == f.(claimed := f'.claimed, balance := f'.balance)
    && (forall t, b :: Claimed(f', t, b) == Claimed(f, t, b) + if t == token && b == a then paid else 0)
    && forall t :: Get(f'.balance, t) == Get(f.balance, t) - if t == token then paid else 0
  }

  lemma PaymentMoves(f: Fees, token: Address, a: Address, paid: int)
    ensures PaidOut(f, Pay(f, token, a, paid), token, a, paid)
  {
  }

  /** A recipient is paid, and shown, all that is due to it and not yet claimed; nobody else anything. */
  lemma ClaimsOnTheseTerms(f: Fees, token: Address, a: Address, e: int)
    requires Inv(f) && Small(Get(f.accumulated, token)) && (f.totalShareBps > 0 ==> IsDue(f, token, a, e))
    ensures var share, due := FirstShare(f.recipients, a), e - Claimed(f, token, a);
            var c := Claim(f, token, a);
            (c.Some? <==> f.totalShareBps > 0 && share > 0 && due > 0)
            && (c.Some? ==> c.value.1 == due && PaidOut(f, c.value.0, token, a, due))
            && Claimable(f, token, a) == if f.totalShareBps > 0 && share > 0 then due else 0
  {
    SharesFacts(f.recipients, a);
    if f.totalShareBps > 0 {
      OnlyDue(f, token, a, e);
      PendingIsDue(f, token, a);
      if FirstShare(f.recipients, a) > 0 {
        ClaimPaysWhatIsDue(f, token, a);
      }
    }
    PaymentMoves(f, token, a, e - Claimed(f, token, a));
  }

  /** Beyond that range product and difference wrap at 256 bits, one after the other. */
  lemma UncheckedWraps(acc: int, share: int, total: int, claimed: int)
    requires total > 0
    ensures var r, word := Unchecked(acc, share, total, claimed), TWO_256;
            0 <= r < word && exists k :: r == acc * share % word / total - claimed + k * word
  {
    var d := acc * share % TWO_256 / total - claimed;
    assert d % TWO_256 == d + -(d / TWO_256) * TWO_256;
  }
}
