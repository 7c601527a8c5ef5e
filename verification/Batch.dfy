/**
 MatchBatch: takers are sorted before they are matched, so that every node that sees the same
 takers produces the same trades, and each pair's trades depend on that pair's takers alone.
 */
module Batch {
  import opened Options
  import opened Orders
  import opened Matching
  import opened Books

  // ----- the sort order -----

  predicate LexLess(a: string, b: string) {
    if b == "" then false
    else if a == "" then true
    else a[0] < b[0] || (a[0] == b[0] && LexLess(a[1..], b[1..]))
  }

  lemma {:induction false} LexTotal(a: string, b: string)
    ensures a != b ==> LexLess(a, b) || LexLess(b, a)
    ensures !(LexLess(a, b) && LexLess(b, a))
  {
    if a != "" && b != "" {
      LexTotal(a[1..], b[1..]);
      assert a == [a[0]] + a[1..] && b == [b[0]] + b[1..];
    }
  }

  lemma {:induction false} LexBetween(a: string, b: string, c: string)
    requires LexLess(a, c)
    ensures LexLess(a, b) || LexLess(b, c)
  {
    if a != "" && b != "" && a[0] == c[0] == b[0] {
      LexBetween(a[1..], b[1..], c[1..]);
    }
  }

  /** Pair, then creation time, then order ID. */
  predicate TakerLess(a: Order, b: Order) {
    if a.pair != b.pair then LexLess(a.pair, b.pair)
    else if a.createdAt != b.createdAt then a.createdAt < b.createdAt
    else LexLess(a.orderId, b.orderId)
  }

  predicate SameKey(a: Order, b: Order) {
    a.pair == b.pair && a.createdAt == b.createdAt && a.orderId == b.orderId
  }

  ghost predicate SortedTakers(s: seq<Order>) {
    forall i, j :: 0 <= i < j < |s| ==> !TakerLess(s[j], s[i])
  }

  /** Takers that the sort cannot tell apart are equal. */
  ghost predicate KeysTellApart(s: seq<Order>) {
    forall x, y :: x in s && y in s && SameKey(x, y) ==> x == y
  }

  /** What the sort may return: the takers in some order compatible with TakerLess. */
  ghost predicate IsBatchOrder(takers: seq<Order>, sorted: seq<Order>) {
    SortedTakers(sorted) && multiset(sorted) == multiset(takers)
  }

  lemma KeysOrdered(a: Order, b: Order)
    ensures !TakerLess(a, b) && !TakerLess(b, a) ==> SameKey(a, b)
  {
    LexTotal(a.pair, b.pair);
    LexTotal(a.orderId, b.orderId);
  }

  lemma LessBetween(a: Order, b: Order, c: Order)
    requires TakerLess(a, c)
    ensures TakerLess(a, b) || TakerLess(b, c)
    ensures !TakerLess(c, a)
  {
    LexTotal(a.pair, c.pair);
    LexTotal(a.orderId, c.orderId);
    LexTotal(a.pair, b.pair);
    LexTotal(b.pair, c.pair);
    if a.pair != c.pair {
      LexBetween(a.pair, b.pair, c.pair);
    } else if a.pair == b.pair && a.createdAt == c.createdAt == b.createdAt {
      LexBetween(a.orderId, b.orderId, c.orderId);
    }
  }

  /** Both rearrangements start with the same taker. */
  lemma SameFirst(a: seq<Order>, b: seq<Order>)
    requires SortedTakers(a) && SortedTakers(b) && KeysTellApart(a) && a != []
    requires multiset(a) == multiset(b)
    ensures b != [] && a[0] == b[0]
  {
    assert a[0] in multiset(b);
    assert b[0] in multiset(a);
    var i :| 0 <= i < |a| && a[i] == b[0];
    var j :| 0 <= j < |b| && b[j] == a[0];
    KeysOrdered(a[0], b[0]);
  }

  lemma {:induction false} BatchOrderUnique(a: seq<Order>, b: seq<Order>)
    requires SortedTakers(a) && SortedTakers(b) && KeysTellApart(a)
    requires multiset(a) == multiset(b)
    ensures a == b
  {
    if a == [] {
      assert |multiset(b)| == 0;
    } else {
      SameFirst(a, b);
      assert a == [a[0]] + a[1..] && b == [b[0]] + b[1..];
      assert multiset(a[1..]) == multiset(a) - multiset{a[0]};
      assert multiset(b[1..]) == multiset(b) - multiset{b[0]};
      BatchOrderUnique(a[1..], b[1..]);
    }
  }

  lemma RestFollows(s: seq<Order>, t: Order, k: nat)
    requires SortedTakers(s) && k < |s| && TakerLess(t, s[k])
    ensures forall j :: k <= j < |s| ==> !TakerLess(s[j], t)
  {
    forall j | k <= j < |s|
      ensures !TakerLess(s[j], t)
    {
      LessBetween(t, s[j], s[k]);
      if TakerLess(t, s[j]) {
        LessBetween(t, t, s[j]);
      }
    }
  }

  lemma PlacedIsSorted(front: seq<Order>, t: Order, back: seq<Order>)
    requires SortedTakers(front + back)
    requires forall i :: 0 <= i < |front| ==> !TakerLess(t, front[i])
    requires forall i :: 0 <= i < |back| ==> !TakerLess(back[i], t)
    ensures SortedTakers(front + [t] + back)
  {
    var r, s, n := front + [t] + back, front + back, |front|;
    forall i, j | 0 <= i < j < |r|
      ensures !TakerLess(r[j], r[i])
    {
      if i != n && j != n {
        var i', j' := if i < n then i else i - 1, if j < n then j else j - 1;
        assert r[i] == s[i'] && r[j] == s[j'];
      }
    }
  }

  /** A place before which nothing follows the taker, and behind which nothing precedes it. */
  lemma PlaceFits(s: seq<Order>, t: Order, k: nat)
    requires SortedTakers(s) && k <= |s|
    requires forall j :: 0 <= j < k ==> !TakerLess(t, s[j])
    requires k < |s| ==> TakerLess(t, s[k])
    ensures SortedTakers(s[..k] + [t] + s[k..])
    ensures multiset(s[..k] + [t] + s[k..]) == multiset(s) + multiset{t}
  {
    assert s == s[..k] + s[k..];
    if k < |s| {
      RestFollows(s, t, k);
    }
    PlacedIsSorted(s[..k], t, s[k..]);
  }

  /** Puts one taker behind every taker it does not precede. */
  method InsertTaker(s: seq<Order>, t: Order) returns (r: seq<Order>)
    requires SortedTakers(s)
    ensures SortedTakers(r) && multiset(r) == multiset(s) + multiset{t}
  {
    var k := 0;
    while k < |s| && !TakerLess(t, s[k])
      invariant 0 <= k <= |s|
      invariant forall j :: 0 <= j < k ==> !TakerLess(t, s[j])
    {
      k := k + 1;
    }
    PlaceFits(s, t, k);
    r := s[..k] + [t] + s[k..];
  }

  /** The sort of MatchBatch: any arrangement compatible with TakerLess. */
  method SortTakers(takers: seq<Order>) returns (sorted: seq<Order>)
    ensures IsBatchOrder(takers, sorted)
  {
    sorted := [];
    for i := 0 to |takers|
      invariant IsBatchOrder(takers[..i], sorted)
    {
      sorted := InsertTaker(sorted, takers[i]);
      assert takers[..i + 1] == takers[..i] + [takers[i]];
    }
    assert takers[..|takers|] == takers;
  }

  // ----- when the batch order is unique -----

  lemma {:induction false} SomeBatchOrder(takers: seq<Order>) returns (sorted: seq<Order>)
    ensures IsBatchOrder(takers, sorted)
  {
    if takers == [] {
      sorted := [];
    } else {
      var t := takers[|takers| - 1];
      var s := SomeBatchOrder(takers[..|takers| - 1]);
      var k := 0;
      while k < |s| && !TakerLess(t, s[k])
        invariant 0 <= k <= |s|
        invariant forall j :: 0 <= j < k ==> !TakerLess(t, s[j])
      {
        k := k + 1;
      }
      PlaceFits(s, t, k);
      sorted := s[..k] + [t] + s[k..];
      assert takers == takers[..|takers| - 1] + [t];
    }
  }

  function Swapped(s: seq<Order>, i: nat, j: nat): seq<Order>
    requires i < j < |s|
  {
    s[i := s[j]][j := s[i]]
  }

  lemma SwapKeepsTakers(s: seq<Order>, i: nat, j: nat)
    requires i < j < |s|
    ensures multiset(Swapped(s, i, j)) == multiset(s)
  {
    var a, b, c := s[..i], s[i + 1..j], s[j + 1..];
    assert s == a + [s[i]] + b + [s[j]] + c;
    assert Swapped(s, i, j) == a + [s[j]] + b + [s[i]] + c;
  }

  /** Takers with one key may stand in each other's place. */
  lemma SwapStaysSorted(s: seq<Order>, i: nat, j: nat)
    requires SortedTakers(s) && i < j < |s| && SameKey(s[i], s[j])
    ensures SortedTakers(Swapped(s, i, j))
  {
    var r := Swapped(s, i, j);
    forall k | 0 <= k < |s|
      ensures SameKey(r[k], s[k])
    {
    }
    forall k, l | 0 <= k < l < |r|
      ensures !TakerLess(r[l], r[k])
    {
      assert SameKey(r[k], s[k]) && SameKey(r[l], s[l]) && !TakerLess(s[l], s[k]);
    }
  }

  ghost predicate OneBatchOrder(takers: seq<Order>) {
    forall a, b :: IsBatchOrder(takers, a) && IsBatchOrder(takers, b) ==> a == b
  }

  lemma SameTakers(a: seq<Order>, b: seq<Order>)
    requires multiset(a) == multiset(b)
    ensures forall x :: x in a <==> x in b
    ensures KeysTellApart(a) <==> KeysTellApart(b)
  {
    forall x
      ensures x in a <==> x in b
    {
      assert x in multiset(a) <==> x in a;
      assert x in multiset(b) <==> x in b;
    }
  }

  /** Two takers with one key that differ can be sorted either way round. */
  lemma TwoBatchOrders(takers: seq<Order>, x: Order, y: Order)
    requires x in takers && y in takers && SameKey(x, y) && x != y
    ensures !OneBatchOrder(takers)
  {
    var s := SomeBatchOrder(takers);
    SameTakers(takers, s);
    var i :| 0 <= i < |s| && s[i] == x;
    var j :| 0 <= j < |s| && s[j] == y;
    var lo, hi := if i < j then i else j, if i < j then j else i;
    SwapKeepsTakers(s, lo, hi);
    SwapStaysSorted(s, lo, hi);
    assert Swapped(s, lo, hi)[lo] != s[lo];
    assert IsBatchOrder(takers, Swapped(s, lo, hi));
  }

  /** The sort has one possible result if and only if it tells all different takers apart. */
  lemma OneBatchOrderIff(takers: seq<Order>)
    ensures OneBatchOrder(takers) <==> KeysTellApart(takers)
  {
    if KeysTellApart(takers) {
      forall a, b | IsBatchOrder(takers, a) && IsBatchOrder(takers, b)
        ensures a == b
      {
        SameTakers(takers, a);
        BatchOrderUnique(a, b);
      }
    } else {
      var x, y :| x in takers && y in takers && SameKey(x, y) && x != y;
      TwoBatchOrders(takers, x, y);
    }
  }

  // ----- running a batch -----

  datatype BatchRun = BatchRun(st: State, trades: seq<Trade>, takers: seq<Order>)

  /** Matching the takers one after the other. */
  function RunBatch(st: State, tokens: map<string, PairTokens>, takers: seq<Order>): BatchRun {
    if takers == [] then BatchRun(st, [], [])
    else
      var before := RunBatch(st, tokens, takers[..|takers| - 1]);
      var m := Match(before.st, tokens, takers[|takers| - 1]);
      BatchRun(m.st, before.trades + m.trades, before.takers + [m.taker])
  }

  /** Taker `i` is matched against what the takers before it left, and its trades follow theirs. */
  lemma {:induction false} EachTakerIsMatched(
    st: State, tokens: map<string, PairTokens>, takers: seq<Order>, i: nat)
    requires i < |takers|
    ensures var before, after, all := RunBatch(st, tokens, takers[..i]), RunBatch(st, tokens, takers[..i + 1]),
                                      RunBatch(st, tokens, takers);
            var m := Match(before.st, tokens, takers[i]);
            RunBatch(st, tokens, []) == BatchRun(st, [], [])
            && after == BatchRun(m.st, before.trades + m.trades, before.takers + [m.taker])
            && |all.takers| == |takers| && all.takers[i] == m.taker
            && (i == |takers| - 1 ==> all == after)
  {
    assert takers[..i + 1][..i] == takers[..i];
    if i < |takers| - 1 {
      var init := takers[..|takers| - 1];
      EachTakerIsMatched(st, tokens, init, i);
      assert init[..i] == takers[..i] && init[..i + 1] == takers[..i + 1];
    } else {
      assert takers[..i + 1] == takers;
      if i > 0 {
        EachTakerIsMatched(st, tokens, takers[..i], i - 1);
      }
    }
  }

  /** Two nodes given the same takers in any order reach the same trades and the same books. */
  lemma BatchIsOrderIndependent(
    st: State, tokens: map<string, PairTokens>,
    takers: seq<Order>, takers': seq<Order>, sorted: seq<Order>, sorted': seq<Order>)
    requires KeysTellApart(takers) && multiset(takers) == multiset(takers')
    requires IsBatchOrder(takers, sorted) && IsBatchOrder(takers', sorted')
    ensures sorted == sorted'
    ensures RunBatch(st, tokens, sorted) == RunBatch(st, tokens, sorted')
  {
    SameTakers(takers, sorted);
    BatchOrderUnique(sorted, sorted');
  }

  // ----- one pair of a batch -----

  function TakersOf(takers: seq<Order>, pair: string): seq<Order> {
    if takers == [] then []
    else TakersOf(takers[..|takers| - 1], pair)
         + if takers[|takers| - 1].pair == pair then [takers[|takers| - 1]] else []
  }

  function TradesOf(trades: seq<Trade>, pair: string): seq<Trade> {
    if trades == [] then []
    else TradesOf(trades[..|trades| - 1], pair)
         + if trades[|trades| - 1].pair == pair then [trades[|trades| - 1]] else []
  }

  lemma {:induction false} TradesOfConcat(a: seq<Trade>, b: seq<Trade>, pair: string)
    ensures TradesOf(a + b, pair) == TradesOf(a, pair) + TradesOf(b, pair)
  {
    if b == [] {
      assert a + b == a;
    } else {
      TradesOfConcat(a, b[..|b| - 1], pair);
      assert (a + b)[..|a + b| - 1] == a + b[..|b| - 1];
    }
  }

  lemma {:induction false} TradesOfUniform(trades: seq<Trade>, pair: string, tradePair: string)
    requires forall t :: t in trades ==> t.pair == tradePair
    ensures TradesOf(trades, pair) == if pair == tradePair then trades else []
  {
    if trades != [] {
      TradesOfUniform(trades[..|trades| - 1], pair, tradePair);
      assert trades == trades[..|trades| - 1] + [trades[|trades| - 1]];
    }
  }

  /** Matching sees nothing of a state but the book of the taker's pair. */
  lemma MatchDependsOnPair(st: State, st': State, tokens: map<string, PairTokens>, taker: Order)
    requires BookOf(st, taker.pair) == BookOf(st', taker.pair)
    ensures Match(st, tokens, taker).trades == Match(st', tokens, taker).trades
    ensures BookOf(Match(st, tokens, taker).st, taker.pair) == BookOf(Match(st', tokens, taker).st, taker.pair)
  {
  }

  lemma {:induction false} BatchProjects(st: State, tokens: map<string, PairTokens>, takers: seq<Order>, pair: string)
    ensures var all, alone := RunBatch(st, tokens, takers), RunBatch(st, tokens, TakersOf(takers, pair));
            TradesOf(all.trades, pair) == alone.trades && BookOf(all.st, pair) == BookOf(alone.st, pair)
  {
    if takers != [] {
      var takers', last := takers[..|takers| - 1], takers[|takers| - 1];
      BatchProjects(st, tokens, takers', pair);
      var all, alone := RunBatch(st, tokens, takers'), RunBatch(st, tokens, TakersOf(takers', pair));
      var m := Match(all.st, tokens, last);
      MatchIsLocal(all.st, tokens, last);
      TradesOfConcat(all.trades, m.trades, pair);
      TradesOfUniform(m.trades, pair, last.pair);
      if last.pair == pair {
        MatchDependsOnPair(all.st, alone.st, tokens, last);
        var s := TakersOf(takers, pair);
        assert s[..|s| - 1] == TakersOf(takers', pair) && s[|s| - 1] == last;
      } else {
        assert TradesOf(all.trades, pair) + [] == TradesOf(all.trades, pair);
        assert TakersOf(takers, pair) == TakersOf(takers', pair);
      }
    }
  }

  lemma {:induction false} TakersOfCount(takers: seq<Order>, pair: string, x: Order)
    ensures multiset(TakersOf(takers, pair))[x] == if x.pair == pair then multiset(takers)[x] else 0
  {
    if takers != [] {
      TakersOfCount(takers[..|takers| - 1], pair, x);
      assert takers == takers[..|takers| - 1] + [takers[|takers| - 1]];
    }
  }

  lemma {:induction false} TakersOfMembers(takers: seq<Order>, pair: string)
    ensures forall o :: o in TakersOf(takers, pair) ==> o in takers
  {
    if takers != [] {
      TakersOfMembers(takers[..|takers| - 1], pair);
    }
  }

  lemma {:induction false} TakersOfSorted(takers: seq<Order>, pair: string)
    requires SortedTakers(takers)
    ensures SortedTakers(TakersOf(takers, pair))
  {
    if takers != [] {
      var takers', last := takers[..|takers| - 1], takers[|takers| - 1];
      TakersOfSorted(takers', pair);
      TakersOfMembers(takers', pair);
      forall o | o in TakersOf(takers', pair)
        ensures !TakerLess(last, o)
      {
        var i :| 0 <= i < |takers'| && takers'[i] == o;
        assert o == takers[i];
      }
    }
  }

  /** A pair's share of a batch is what a batch of that pair's takers alone would have produced. */
  lemma BatchIsPerPair(
    st: State, tokens: map<string, PairTokens>, pair: string,
    takers: seq<Order>, sorted: seq<Order>, sortedAlone: seq<Order>)
    requires KeysTellApart(takers)
    requires IsBatchOrder(takers, sorted) && IsBatchOrder(TakersOf(takers, pair), sortedAlone)
    ensures var all, alone := RunBatch(st, tokens, sorted), RunBatch(st, tokens, sortedAlone);
            TradesOf(all.trades, pair) == alone.trades && BookOf(all.st, pair) == BookOf(alone.st, pair)
  {
    BatchProjects(st, tokens, sorted, pair);
    TakersOfSorted(sorted, pair);
    SameTakers(takers, sorted);
    TakersOfMembers(sorted, pair);
    forall x
      ensures multiset(TakersOf(sorted, pair))[x] == multiset(sortedAlone)[x]
    {
      TakersOfCount(sorted, pair, x);
      TakersOfCount(takers, pair, x);
    }
    BatchOrderUnique(TakersOf(sorted, pair), sortedAlone);
  }

  // ----- what the order means -----

  /** `a` stands before `b` in a dictionary: it is a proper prefix, or smaller where they first differ. */
  ghost predicate Precedes(a: string, b: string) {
    exists k: nat :: k <= |a| && k < |b| && a[..k] == b[..k] && (k == |a| || a[k] < b[k])
  }

  lemma {:induction false} LexIsDictionary(a: string, b: string)
    ensures LexLess(a, b) <==> Precedes(a, b)
  {
    if b != "" && a != "" {
      LexIsDictionary(a[1..], b[1..]);
      if LexLess(a, b) && a[0] == b[0] {
        var k: nat :| k <= |a[1..]| && k < |b[1..]| && a[1..][..k] == b[1..][..k]
                      && (k == |a[1..]| || a[1..][k] < b[1..][k]);
        assert a[..k + 1] == [a[0]] + a[1..][..k] && b[..k + 1] == [b[0]] + b[1..][..k];
      } else if LexLess(a, b) {
        assert a[..0] == b[..0];
      }
      if k: nat :| k <= |a| && k < |b| && a[..k] == b[..k] && (k == |a| || a[k] < b[k]) {
        if k > 0 {
          assert a[0] == a[..k][0] == b[..k][0] == b[0];
          assert a[1..][..k - 1] == a[..k][1..] && b[1..][..k - 1] == b[..k][1..];
          assert k - 1 == |a[1..]| || a[1..][k - 1] < b[1..][k - 1];
        }
      }
    } else if a == "" && b != "" {
      assert a[..0] == b[..0];
    }
  }

  /** `a` may be matched before `b`: pairs in ascending order, then the earlier taker, then the smaller ID. */
  ghost predicate InTurn(a: Order, b: Order) {
    if a.pair != b.pair then Precedes(a.pair, b.pair)
    else a.createdAt < b.createdAt
         || (a.createdAt == b.createdAt && (a.orderId == b.orderId || Precedes(a.orderId, b.orderId)))
  }

  lemma InTurnUnlessLess(a: Order, b: Order)
    ensures !TakerLess(b, a) <==> InTurn(a, b)
  {
    LexIsDictionary(a.pair, b.pair);
    LexIsDictionary(a.orderId, b.orderId);
    LexTotal(a.pair, b.pair);
    LexTotal(a.orderId, b.orderId);
  }

  /** What the sort may return is exactly the takers, all of them in turn. */
  lemma BatchOrderIsByTurn(takers: seq<Order>, sorted: seq<Order>)
    ensures IsBatchOrder(takers, sorted)
            <==> multiset(sorted) == multiset(takers)
                 && forall i, j :: 0 <= i < j < |sorted| ==> InTurn(sorted[i], sorted[j])
  {
    forall i, j | 0 <= i < j < |sorted|
      ensures !TakerLess(sorted[j], sorted[i]) <==> InTurn(sorted[i], sorted[j])
    {
      InTurnUnlessLess(sorted[i], sorted[j]);
    }
  }

  /** Every trade of a run belongs to one of its takers, and trades come in the takers' order. */
  lemma {:induction false} TradesInTakerOrder(
    st: State, tokens: map<string, PairTokens>, takers: seq<Order>, k: nat, l: nat) returns (i: nat, j: nat)
    requires k <= l < |RunBatch(st, tokens, takers).trades|
    ensures var trades := RunBatch(st, tokens, takers).trades;
            i <= j < |takers| && TradeOf(trades[k], takers[i]) && TradeOf(trades[l], takers[j])
  {
    var init, last := takers[..|takers| - 1], takers[|takers| - 1];
    var before := RunBatch(st, tokens, init);
    var m := Match(before.st, tokens, last);
    var trades := RunBatch(st, tokens, takers).trades;
    MatchTradesAreTakers(before.st, tokens, last);
    if l < |before.trades| {
      i, j := TradesInTakerOrder(st, tokens, init, k, l);
      assert trades[k] == before.trades[k] && trades[l] == before.trades[l];
    } else {
      j := |takers| - 1;
      assert trades[l] in m.trades;
      if k < |before.trades| {
        var i' := 0;
        i, i' := TradesInTakerOrder(st, tokens, init, k, k);
        assert trades[k] == before.trades[k];
      } else {
        i := j;
        assert trades[k] in m.trades;
      }
    }
  }

  /** The trade names this order, its trader and its pair as the taker's. */
  predicate TradeOf(t: Trade, taker: Order) {
    t.takerOrderId == taker.orderId && t.taker == taker.trader && t.pair == taker.pair
  }

  lemma {:induction false} SideTradesAreTakers(
    isBids: bool, side: seq<Order>, taker: Order, left: int, tokens: PairTokens, seqNo: nat)
    ensures forall t :: t in MatchSide(isBids, side, taker, left, tokens, seqNo).trades ==> TradeOf(t, taker)
  {
    if side == [] || left <= 0 || !Crosses(isBids, taker, side[0]) {
    } else if side[0].Left() <= 0 {
      SideTradesAreTakers(isBids, side[1..], taker, left, tokens, seqNo);
    } else {
      SideTradesAreTakers(isBids, side[1..], taker, left - Min(left, side[0].Left()), tokens, seqNo + 1);
    }
  }

  lemma MatchTradesAreTakers(st: State, tokens: map<string, PairTokens>, taker: Order)
    ensures forall t :: t in Match(st, tokens, taker).trades ==> TradeOf(t, taker)
  {
    SideTradesAreTakers(taker.side != "buy", Opposite(BookOf(st, taker.pair), taker), taker, taker.Left(),
                        TokensOf(tokens, taker.pair), 0);
  }

  /** Of two takers of one pair in a batch, the one created earlier trades first. */
  lemma EarlierTakersTradeFirst(
    st: State, tokens: map<string, PairTokens>, takers: seq<Order>, sorted: seq<Order>, k: nat, l: nat)
    returns (x: Order, y: Order)
    requires IsBatchOrder(takers, sorted) && k <= l < |RunBatch(st, tokens, sorted).trades|
    ensures var trades := RunBatch(st, tokens, sorted).trades;
            x in takers && y in takers && TradeOf(trades[k], x) && TradeOf(trades[l], y)
            && (trades[k].pair == trades[l].pair ==> x.createdAt <= y.createdAt)
            && (trades[k].pair != trades[l].pair ==> Precedes(trades[k].pair, trades[l].pair))
  {
    var i, j := TradesInTakerOrder(st, tokens, sorted, k, l);
    x, y := sorted[i], sorted[j];
    SameTakers(takers, sorted);
    if i < j {
      BatchOrderIsByTurn(takers, sorted);
      assert InTurn(sorted[i], sorted[j]);
    }
  }
}
