/**
 Matching one taker against one side of a book, as a function, and what it guarantees:
 maximal fill, conservation, strict price-time priority, and a cost no other allocation beats.
 */
module Matching {
  import opened Options
  import opened Orders

  datatype PairTokens = PairTokens(token0: string, token1: string)

  /** The parts the Go engine prints as "taker-maker-seq". */
  datatype TradeId = TradeId(takerOrderId: string, makerOrderId: string, seqNo: nat)

  datatype Trade = Trade(
    id: TradeId,
    pair: string,
    makerOrderId: string,
    takerOrderId: string,
    maker: string,
    taker: string,
    tokenIn: string,
    tokenOut: string,
    amountIn: int,
    amountOut: int,
    price: int,
    amount: int)

  /** The maker gives base tokens when it rests in the asks and quote tokens when it rests in the bids. */
  function MakeTrade(isBids: bool, taker: Order, maker: Order, qty: int, tokens: PairTokens, seqNo: nat): Trade {
    var quote := qty * maker.Price();
    Trade(
      TradeId(taker.orderId, maker.orderId, seqNo), taker.pair, maker.orderId, taker.orderId,
      maker.trader, taker.trader,
      if isBids then tokens.token1 else tokens.token0,
      if isBids then tokens.token0 else tokens.token1,
      if isBids then quote else qty,
      if isBids then qty else quote,
      maker.Price(), qty)
  }

  /** The taker's limit reaches the maker's price. */
  predicate Crosses(isBids: bool, taker: Order, maker: Order) {
    Rank(isBids, maker.Price()) <= Rank(isBids, taker.Price())
  }

  datatype Outcome = Outcome(trades: seq<Trade>, book: seq<Order>, left: int)

  /** Matches `taker`, of which `left` is open and which has `seqNo` trades so far. */
  function MatchSide(isBids: bool, book: seq<Order>, taker: Order, left: int, tokens: PairTokens, seqNo: nat): Outcome {
    if book == [] || left <= 0 || !Crosses(isBids, taker, book[0]) then
      Outcome([], book, left)
    else
      var maker := book[0];
      if maker.Left() <= 0 then
        MatchSide(isBids, book[1..], taker, left, tokens, seqNo)
      else
        var qty := Min(left, maker.Left());
        var trade := MakeTrade(isBids, taker, maker, qty, tokens, seqNo + 1);
        if maker.Left() == qty then
          var rest := MatchSide(isBids, book[1..], taker, left - qty, tokens, seqNo + 1);
          rest.(trades := [trade] + rest.trades)
        else
          Outcome([trade], [maker.(filled := maker.filled + qty, status := Partial)] + book[1..], left - qty)
  }

  // ----- how much is filled -----

  /** The total remainder of the makers whose price the taker accepts. */
  function Available(isBids: bool, book: seq<Order>, taker: Order): int {
    if book == [] then 0
    else (if Crosses(isBids, taker, book[0]) then book[0].Left() else 0) + Available(isBids, book[1..], taker)
  }

  function Volume(trades: seq<Trade>): int {
    if trades == [] then 0 else trades[0].amount + Volume(trades[1..])
  }

  lemma {:induction false} AvailableNonNegative(isBids: bool, book: seq<Order>, taker: Order)
    requires Positive(book)
    ensures Available(isBids, book, taker) >= 0
  {
    if book != [] {
      AvailableNonNegative(isBids, book[1..], taker);
    }
  }

  lemma {:induction false} NoneAvailable(isBids: bool, book: seq<Order>, taker: Order)
    requires Sorted(isBids, book)
    requires book != [] ==> !Crosses(isBids, taker, book[0])
    ensures Available(isBids, book, taker) == 0
  {
    if book != [] {
      if |book| > 1 {
        assert !Before(isBids, book[1], book[0]);
      }
      NoneAvailable(isBids, book[1..], taker);
    }
  }

  /** On a sorted side the fill is exactly what taker and price-compatible makers allow. */
  lemma {:induction false} FillIsMaximal(
    isBids: bool, book: seq<Order>, taker: Order, left: int, tokens: PairTokens, seqNo: nat)
    requires Sorted(isBids, book) && Positive(book) && left >= 0
    ensures left - MatchSide(isBids, book, taker, left, tokens, seqNo).left
            == Min(left, Available(isBids, book, taker))
  {
    AvailableNonNegative(isBids, book, taker);
    if book == [] || left == 0 {
    } else if !Crosses(isBids, taker, book[0]) {
      NoneAvailable(isBids, book, taker);
    } else {
      AvailableNonNegative(isBids, book[1..], taker);
      var qty := Min(left, book[0].Left());
      if book[0].Left() == qty {
        FillIsMaximal(isBids, book[1..], taker, left - qty, tokens, seqNo + 1);
      }
    }
  }

  // ----- conservation -----

  /** What the trades move, what the taker gains and what the side loses are one number. */
  lemma {:induction false} MatchConserves(
    isBids: bool, book: seq<Order>, taker: Order, left: int, tokens: PairTokens, seqNo: nat)
    requires Positive(book)
    ensures var r := MatchSide(isBids, book, taker, left, tokens, seqNo);
            Volume(r.trades) == left - r.left == TotalLeft(book) - TotalLeft(r.book)
  {
    if book == [] || left <= 0 || !Crosses(isBids, taker, book[0]) {
    } else {
      var qty := Min(left, book[0].Left());
      if book[0].Left() == qty {
        MatchConserves(isBids, book[1..], taker, left - qty, tokens, seqNo + 1);
      }
    }
  }

  // ----- which makers are consumed -----

  /** The trades run down the side: trade `i` is with maker `i`, at that maker's own price. */
  ghost predicate RunsDown(
    isBids: bool, book: seq<Order>, taker: Order, tokens: PairTokens, seqNo: nat, trades: seq<Trade>)
  {
    |trades| <= |book|
    && forall i :: 0 <= i < |trades| ==>
         trades[i].amount > 0
         && trades[i] == MakeTrade(isBids, taker, book[i], trades[i].amount, tokens, seqNo + 1 + i)
  }

  /**
   Every maker before the last one traded with is fully consumed and gone; that last one keeps a
   positive remainder only when the taker is exhausted, and is otherwise gone too; the rest of the
   side is untouched.
   */
  ghost predicate ConsumesPrefix(book: seq<Order>, r: Outcome) {
    var gone := |book| - |r.book|;
    0 <= gone
    && (forall i :: 0 <= i < gone && i < |r.trades| ==> r.trades[i].amount == book[i].Left())
    && if |r.trades| == gone then r.book == book[gone..]
       else
         |r.trades| == gone + 1 && gone < |book|
         && r.trades[gone].amount < book[gone].Left()
         && r.left == 0
         && r.book == [book[gone].(filled := book[gone].filled + r.trades[gone].amount, status := Partial)]
                      + book[gone + 1..]
  }

  lemma RunsDownOneMore(
    isBids: bool, book: seq<Order>, taker: Order, tokens: PairTokens, seqNo: nat, qty: int, rest: seq<Trade>)
    requires book != [] && qty > 0
    requires RunsDown(isBids, book[1..], taker, tokens, seqNo + 1, rest)
    ensures RunsDown(isBids, book, taker, tokens, seqNo,
                     [MakeTrade(isBids, taker, book[0], qty, tokens, seqNo + 1)] + rest)
  {
    var trades := [MakeTrade(isBids, taker, book[0], qty, tokens, seqNo + 1)] + rest;
    forall i | 0 < i < |trades|
      ensures trades[i].amount > 0
              && trades[i] == MakeTrade(isBids, taker, book[i], trades[i].amount, tokens, seqNo + 1 + i)
    {
      assert trades[i] == rest[i - 1] && book[i] == book[1..][i - 1];
      assert seqNo + 1 + 1 + (i - 1) == seqNo + 1 + i;
    }
  }

  lemma ConsumesOneMore(book: seq<Order>, trade: Trade, rest: Outcome)
    requires book != [] && trade.amount == book[0].Left()
    requires ConsumesPrefix(book[1..], rest)
    ensures ConsumesPrefix(book, rest.(trades := [trade] + rest.trades))
  {
    var tail, trades, gone := book[1..], [trade] + rest.trades, |book| - |rest.book|;
    forall i | 0 < i < gone && i < |trades|
      ensures trades[i].amount == book[i].Left()
    {
      assert trades[i] == rest.trades[i - 1] && book[i] == tail[i - 1];
    }
    assert tail[gone - 1..] == book[gone..];
    if |trades| != gone {
      assert tail[gone..] == book[gone + 1..];
      assert trades[gone] == rest.trades[gone - 1] && book[gone] == tail[gone - 1];
    }
  }

  lemma ConsumesNone(book: seq<Order>, left: int)
    ensures ConsumesPrefix(book, Outcome([], book, left))
  {
  }

  lemma ConsumesPart(book: seq<Order>, left: int, trade: Trade)
    requires book != [] && 0 < left < book[0].Left() && trade.amount == left
    ensures ConsumesPrefix(
              book,
              Outcome([trade], [book[0].(filled := book[0].filled + left, status := Partial)] + book[1..], 0))
  {
  }

  lemma {:induction false} MatchRunsDown(
    isBids: bool, book: seq<Order>, taker: Order, left: int, tokens: PairTokens, seqNo: nat)
    ensures Positive(book) ==>
              RunsDown(isBids, book, taker, tokens, seqNo,
                       MatchSide(isBids, book, taker, left, tokens, seqNo).trades)
  {
    if Positive(book) && book != [] && 0 < left && Crosses(isBids, taker, book[0]) && book[0].Left() <= left {
      var qty := book[0].Left();
      MatchRunsDown(isBids, book[1..], taker, left - qty, tokens, seqNo + 1);
      RunsDownOneMore(isBids, book, taker, tokens, seqNo, qty,
                      MatchSide(isBids, book[1..], taker, left - qty, tokens, seqNo + 1).trades);
    }
  }

  lemma {:induction false} MatchTakesPrefix(
    isBids: bool, book: seq<Order>, taker: Order, left: int, tokens: PairTokens, seqNo: nat)
    requires Positive(book)
    ensures ConsumesPrefix(book, MatchSide(isBids, book, taker, left, tokens, seqNo))
  {
    var r := MatchSide(isBids, book, taker, left, tokens, seqNo);
    if book == [] || left <= 0 || !Crosses(isBids, taker, book[0]) {
      assert r == Outcome([], book, left);
      ConsumesNone(book, left);
    } else if book[0].Left() <= left {
      var qty := book[0].Left();
      var trade := MakeTrade(isBids, taker, book[0], qty, tokens, seqNo + 1);
      var rest := MatchSide(isBids, book[1..], taker, left - qty, tokens, seqNo + 1);
      assert r == rest.(trades := [trade] + rest.trades);
      MatchTakesPrefix(isBids, book[1..], taker, left - qty, tokens, seqNo + 1);
      ConsumesOneMore(book, trade, rest);
    } else {
      ConsumesPart(book, left, MakeTrade(isBids, taker, book[0], left, tokens, seqNo + 1));
    }
  }

  /** Strict price-time priority. */
  lemma MatchConsumesPrefix(
    isBids: bool, book: seq<Order>, taker: Order, left: int, tokens: PairTokens, seqNo: nat)
    requires Positive(book)
    ensures var r := MatchSide(isBids, book, taker, left, tokens, seqNo);
            RunsDown(isBids, book, taker, tokens, seqNo, r.trades) && ConsumesPrefix(book, r)
  {
    MatchRunsDown(isBids, book, taker, left, tokens, seqNo);
    MatchTakesPrefix(isBids, book, taker, left, tokens, seqNo);
  }

  /** Matching stops only when the taker is filled, the side is empty, or the best price no longer crosses. */
  lemma {:induction false} MatchRunsOut(
    isBids: bool, book: seq<Order>, taker: Order, left: int, tokens: PairTokens, seqNo: nat)
    ensures var r := MatchSide(isBids, book, taker, left, tokens, seqNo);
            r.left <= 0 || r.book == [] || !Crosses(isBids, taker, r.book[0])
  {
    if book == [] || left <= 0 || !Crosses(isBids, taker, book[0]) {
    } else if book[0].Left() <= 0 {
      MatchRunsOut(isBids, book[1..], taker, left, tokens, seqNo);
    } else if book[0].Left() <= left {
      MatchRunsOut(isBids, book[1..], taker, left - book[0].Left(), tokens, seqNo + 1);
    }
  }

  /** No trade is worse for the taker than its limit. */
  lemma TradesWithinLimit(
    isBids: bool, book: seq<Order>, taker: Order, left: int, tokens: PairTokens, seqNo: nat)
    ensures var r := MatchSide(isBids, book, taker, left, tokens, seqNo);
            forall t :: t in r.trades ==> Rank(isBids, t.price) <= Rank(isBids, taker.Price())
  {
  }

  /** The side after a match is a suffix of the side before it, but for a smaller first remainder. */
  ghost predicate Shrunk(before: seq<Order>, after: seq<Order>) {
    |after| <= |before|
    && forall i :: 0 <= i < |after| ==>
         var m := before[|before| - |after| + i];
         after[i].orderId == m.orderId && after[i].Price() == m.Price()
         && after[i].createdAt == m.createdAt && after[i].Left() > 0
  }

  lemma MatchShrinks(
    isBids: bool, book: seq<Order>, taker: Order, left: int, tokens: PairTokens, seqNo: nat)
    requires Positive(book)
    ensures Shrunk(book, MatchSide(isBids, book, taker, left, tokens, seqNo).book)
  {
    MatchConsumesPrefix(isBids, book, taker, left, tokens, seqNo);
  }

  /** Ordering, distinct IDs and positive remainders survive a match. */
  lemma MatchKeepsSide(
    isBids: bool, book: seq<Order>, taker: Order, left: int, tokens: PairTokens, seqNo: nat)
    requires Sorted(isBids, book) && Positive(book)
    ensures var after := MatchSide(isBids, book, taker, left, tokens, seqNo).book;
            Sorted(isBids, after) && Positive(after)
            && (DistinctIds(book) ==> DistinctIds(after))
            && forall o :: o in after ==> exists m :: m in book && m.orderId == o.orderId
  {
    var after := MatchSide(isBids, book, taker, left, tokens, seqNo).book;
    MatchShrinks(isBids, book, taker, left, tokens, seqNo);
    ShrunkKeeps(isBids, book, after);
  }

  lemma ShrunkKeeps(isBids: bool, before: seq<Order>, after: seq<Order>)
    requires Sorted(isBids, before) && Shrunk(before, after)
    ensures Sorted(isBids, after) && Positive(after)
    ensures DistinctIds(before) ==> DistinctIds(after)
    ensures forall o :: o in after ==> exists m :: m in before && m.orderId == o.orderId
  {
    var gone := |before| - |after|;
    forall i, j | 0 <= i < j < |after|
      ensures !Before(isBids, after[j], after[i])
    {
      assert !Before(isBids, before[gone + j], before[gone + i]);
    }
  }

  // ----- the greedy allocation is optimal -----

  /** A way of drawing on the makers of a side: `alloc[i]` from maker `i`. */
  ghost predicate IsAllocation(book: seq<Order>, alloc: seq<int>) {
    |alloc| == |book| && forall i :: 0 <= i < |book| ==> 0 <= alloc[i] <= book[i].Left()
  }

  function Sum(s: seq<int>): int {
    if s == [] then 0 else s[0] + Sum(s[1..])
  }

  /** The quote value of an allocation at the makers' prices. */
  function QuoteOf(book: seq<Order>, alloc: seq<int>): int
    requires |alloc| == |book|
  {
    if book == [] then 0 else alloc[0] * book[0].Price() + QuoteOf(book[1..], alloc[1..])
  }

  function QuoteOfTrades(trades: seq<Trade>): int {
    if trades == [] then 0 else trades[0].amount * trades[0].price + QuoteOfTrades(trades[1..])
  }

  /** The quote value of drawing `q` from the front of the side. */
  function GreedyQuote(book: seq<Order>, q: int): int {
    if book == [] || q <= 0 then 0
    else
      var x := Min(q, book[0].Left());
      x * book[0].Price() + GreedyQuote(book[1..], q - x)
  }

  lemma {:induction false} TradesAreGreedy(
    isBids: bool, book: seq<Order>, taker: Order, left: int, tokens: PairTokens, seqNo: nat)
    requires Positive(book)
    ensures var r := MatchSide(isBids, book, taker, left, tokens, seqNo);
            r.left <= left && QuoteOfTrades(r.trades) == GreedyQuote(book, left - r.left)
  {
    if book == [] || left <= 0 || !Crosses(isBids, taker, book[0]) {
    } else {
      var r := MatchSide(isBids, book, taker, left, tokens, seqNo);
      var qty := Min(left, book[0].Left());
      if book[0].Left() == qty {
        TradesAreGreedy(isBids, book[1..], taker, left - qty, tokens, seqNo + 1);
        assert r.trades[1..] == MatchSide(isBids, book[1..], taker, left - qty, tokens, seqNo + 1).trades;
      } else {
        assert r.trades[1..] == [];
        assert GreedyQuote(book[1..], 0) == 0;
      }
    }
  }

  /** Reading a quote value as a rank: cost for a buyer, negated proceeds for a seller. */
  function Signed(isBids: bool, quote: int): int {
    if isBids then -quote else quote
  }

  lemma {:induction false} TotalNonNegative(book: seq<Order>)
    requires Positive(book)
    ensures TotalLeft(book) >= 0
  {
    if book != [] {
      TotalNonNegative(book[1..]);
    }
  }

  /** Drawing `d` more from a side whose ranks are at least `floor` adds at least `d * floor`. */
  lemma {:induction false} GreedyGrowth(isBids: bool, book: seq<Order>, q: int, d: int, floor: int)
    requires Positive(book) && 0 <= q && 0 <= d && q + d <= TotalLeft(book)
    requires forall i :: 0 <= i < |book| ==> floor <= Rank(isBids, book[i].Price())
    ensures Signed(isBids, GreedyQuote(book, q + d)) >= Signed(isBids, GreedyQuote(book, q)) + d * floor
  {
    if book != [] {
      var rest, first := book[1..], book[0].Left();
      var x, y := Min(q, first), Min(q + d, first);
      var rank := Rank(isBids, book[0].Price());
      TotalNonNegative(rest);
      GreedyGrowth(isBids, rest, q - x, d - (y - x), floor);
      assert q - x + (d - (y - x)) == q + d - y;
      Unfold(isBids, book, q);
      Unfold(isBids, book, q + d);
      Monotone(y - x, floor, rank);
      Split(y, x, rank);
      Split(d, y - x, floor);
    }
  }

  lemma Split(a: int, b: int, c: int)
    ensures a * c == b * c + (a - b) * c
  {
  }

  lemma Monotone(d: int, a: int, b: int)
    requires d >= 0 && a <= b
    ensures d * a <= d * b
  {
  }

  lemma Unfold(isBids: bool, book: seq<Order>, q: int)
    requires book != [] && q >= 0 && book[0].Left() > 0
    ensures var x := Min(q, book[0].Left());
            Signed(isBids, GreedyQuote(book, q))
            == x * Rank(isBids, book[0].Price()) + Signed(isBids, GreedyQuote(book[1..], q - x))
  {
  }

  lemma {:induction false} AllocationBounds(book: seq<Order>, alloc: seq<int>)
    requires IsAllocation(book, alloc)
    ensures 0 <= Sum(alloc) <= TotalLeft(book)
  {
    if book != [] {
      AllocationBounds(book[1..], alloc[1..]);
    }
  }

  /** Every allocation of a quantity is at least as dear as drawing it from the front. */
  lemma {:induction false} GreedyIsOptimal(isBids: bool, book: seq<Order>, alloc: seq<int>)
    requires Sorted(isBids, book) && Positive(book) && IsAllocation(book, alloc)
    ensures Signed(isBids, GreedyQuote(book, Sum(alloc))) <= Signed(isBids, QuoteOf(book, alloc))
  {
    if book != [] {
      var rest, others, first := book[1..], alloc[1..], alloc[0];
      var q := Sum(alloc);
      AllocationBounds(book, alloc);
      AllocationBounds(rest, others);
      GreedyIsOptimal(isBids, rest, others);
      var x, rank := Min(q, book[0].Left()), Rank(isBids, book[0].Price());
      FirstIsBest(isBids, book);
      GreedyGrowth(isBids, rest, q - x, x - first, rank);
      assert q - x + (x - first) == Sum(others);
      Unfold(isBids, book, q);
      UnfoldQuote(isBids, book, alloc);
      Split(x, first, rank);
    }
  }

  lemma FirstIsBest(isBids: bool, book: seq<Order>)
    requires book != [] && Sorted(isBids, book)
    ensures forall i :: 0 <= i < |book[1..]| ==> Rank(isBids, book[0].Price()) <= Rank(isBids, book[1..][i].Price())
  {
    forall i | 0 <= i < |book[1..]|
      ensures Rank(isBids, book[0].Price()) <= Rank(isBids, book[1..][i].Price())
    {
      assert !Before(isBids, book[i + 1], book[0]);
    }
  }

  lemma UnfoldQuote(isBids: bool, book: seq<Order>, alloc: seq<int>)
    requires book != [] && |alloc| == |book|
    ensures Signed(isBids, QuoteOf(book, alloc))
            == alloc[0] * Rank(isBids, book[0].Price()) + Signed(isBids, QuoteOf(book[1..], alloc[1..]))
  {
  }

  /**
   The whole of optimality.  A buyer's match fills the most the book allows at its limit and no
   other way of taking the same quantity from the asks costs less; a seller's fills the most and
   no other way of hitting the bids earns more.
   */
  lemma MatchIsOptimal(
    isBids: bool, book: seq<Order>, taker: Order, left: int, tokens: PairTokens, seqNo: nat, alloc: seq<int>)
    requires Sorted(isBids, book) && Positive(book) && left >= 0
    requires IsAllocation(book, alloc)
    requires Sum(alloc) == Min(left, Available(isBids, book, taker))
    ensures var r := MatchSide(isBids, book, taker, left, tokens, seqNo);
            Volume(r.trades) == Sum(alloc)
            && if isBids then QuoteOfTrades(r.trades) >= QuoteOf(book, alloc)
               else QuoteOfTrades(r.trades) <= QuoteOf(book, alloc)
  {
    FillIsMaximal(isBids, book, taker, left, tokens, seqNo);
    MatchConserves(isBids, book, taker, left, tokens, seqNo);
    TradesAreGreedy(isBids, book, taker, left, tokens, seqNo);
    GreedyIsOptimal(isBids, book, alloc);
  }
}
