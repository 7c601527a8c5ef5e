/**
 What a match comes to, order by order and token by token, written out in the fields of the orders:
 how much each resting order trades, on what terms, and what is left of the book and of the taker.
 */
module MatchTerms {
  import opened Options
  import opened Orders
  import opened Matching
  import opened Books

  /** A buyer takes what is offered at its price or below, a seller at its price or above. */
  predicate Agreeable(buys: bool, taker: Order, maker: Order) {
    if buys then maker.Price() <= taker.Price() else maker.Price() >= taker.Price()
  }

  /**
   What the order at position `i` trades with a taker that has `open` to fill: what the orders before
   it leave to fill, as far as it goes and the price allows.
   */
  function Taken(buys: bool, side: seq<Order>, taker: Order, open: int, i: nat): int
    requires i < |side|
  {
    var wanted := open - TotalLeft(side[..i]);
    if wanted <= 0 || !Agreeable(buys, taker, side[i]) then 0 else Min(wanted, side[i].Left())
  }

  /** The order after it traded so much. */
  function Reduced(o: Order, taken: int): Order {
    if taken == 0 then o else o.(filled := o.filled + taken, status := Partial)
  }

  /** The orders of a side after the match, used up or not. */
  function Afterwards(buys: bool, side: seq<Order>, taker: Order, open: int): (r: seq<Order>)
    ensures |r| == |side|
  {
    seq(|side|, i requires 0 <= i < |side| => Reduced(side[i], Taken(buys, side, taker, open, i)))
  }

  /** Those with something left that are not marked filled. */
  function StillResting(s: seq<Order>): seq<Order> {
    if s == [] then []
    else
      var last := s[|s| - 1];
      StillResting(s[..|s| - 1]) + if last.Left() <= 0 || last.status == Filled then [] else [last]
  }

  // ----- one side -----

  lemma TakenShifts(buys: bool, side: seq<Order>, taker: Order, open: int, i: nat)
    requires 0 < i < |side|
    ensures Taken(buys, side, taker, open, i) == Taken(buys, side[1..], taker, open - side[0].Left(), i - 1)
  {
    assert side[..i] == [side[0]] + side[1..][..i - 1];
    TotalLeftSplit([side[0]], side[1..][..i - 1]);
  }

  /** Nothing is taken behind a maker that does not trade, or is not used up. */
  lemma NothingBehind(buys: bool, side: seq<Order>, taker: Order, open: int, i: nat)
    requires Sorted(!buys, side) && Positive(side) && i < |side|
    requires open <= 0 || !Agreeable(buys, taker, side[0])
    ensures Taken(buys, side, taker, open, i) == 0
  {
    TotalLeftPositive(side[..i]);
    if i > 0 {
      assert !Before(!buys, side[i], side[0]);
    }
  }

  ghost predicate TakesAll(
    buys: bool, side: seq<Order>, taker: Order, open: int, trades: seq<Trade>)
  {
    |trades| <= |side|
    && forall i :: 0 <= i < |side| ==>
         Taken(buys, side, taker, open, i) == (if i < |trades| then trades[i].amount else 0)
  }

  lemma TakesOneMore(buys: bool, side: seq<Order>, taker: Order, open: int, trade: Trade, rest: seq<Trade>)
    requires side != [] && 0 < side[0].Left() <= open && Agreeable(buys, taker, side[0])
    requires trade.amount == side[0].Left()
    requires TakesAll(buys, side[1..], taker, open - side[0].Left(), rest)
    ensures TakesAll(buys, side, taker, open, [trade] + rest)
  {
    var trades := [trade] + rest;
    forall i | 0 <= i < |side|
      ensures Taken(buys, side, taker, open, i) == if i < |trades| then trades[i].amount else 0
    {
      if i > 0 {
        TakenShifts(buys, side, taker, open, i);
        assert Taken(buys, side[1..], taker, open - side[0].Left(), i - 1)
            == if i - 1 < |rest| then rest[i - 1].amount else 0;
      }
    }
  }

  lemma {:induction false} TradesTakeAll(
    buys: bool, side: seq<Order>, taker: Order, open: int, tokens: PairTokens, seqNo: nat)
    requires Sorted(!buys, side) && Positive(side)
    ensures TakesAll(buys, side, taker, open, MatchSide(!buys, side, taker, open, tokens, seqNo).trades)
  {
    if side == [] {
    } else if open <= 0 || !Crosses(!buys, taker, side[0]) {
      forall i | 0 <= i < |side|
        ensures Taken(buys, side, taker, open, i) == 0
      {
        NothingBehind(buys, side, taker, open, i);
      }
    } else if side[0].Left() <= open {
      var qty := side[0].Left();
      TradesTakeAll(buys, side[1..], taker, open - qty, tokens, seqNo + 1);
      TakesOneMore(buys, side, taker, open, MakeTrade(!buys, taker, side[0], qty, tokens, seqNo + 1),
                   MatchSide(!buys, side[1..], taker, open - qty, tokens, seqNo + 1).trades);
    } else {
      forall i | 0 < i < |side|
        ensures Taken(buys, side, taker, open, i) == 0
      {
        TakenShifts(buys, side, taker, open, i);
        NothingBehind(buys, side[1..], taker, open - side[0].Left(), i - 1);
      }
    }
  }

  lemma RestingSnoc(s: seq<Order>, o: Order)
    ensures StillResting(s + [o]) == StillResting(s) + if o.Left() <= 0 || o.status == Filled then [] else [o]
    ensures Trim(s + [o]) == Trim(s) + if o.status != Filled then [o] else []
  {
    assert (s + [o])[..|s|] == s;
  }

  lemma {:induction false} NothingLeft(used: seq<Order>)
    requires forall i :: 0 <= i < |used| ==> used[i].Left() <= 0
    ensures StillResting(used) == []
  {
    if used != [] {
      NothingLeft(used[..|used| - 1]);
    }
  }

  /** Orders that are used up do not rest. */
  lemma {:induction false} UsedUp(used: seq<Order>, rest: seq<Order>)
    requires forall i :: 0 <= i < |used| ==> used[i].Left() <= 0
    requires Positive(rest)
    ensures StillResting(used + rest) == Trim(rest)
  {
    if rest == [] {
      NothingLeft(used);
      assert used + rest == used;
    } else {
      var init, last := rest[..|rest| - 1], rest[|rest| - 1];
      UsedUp(used, init);
      RestingSnoc(used + init, last);
      RestingSnoc(init, last);
      assert used + rest == used + init + [last] && rest == init + [last];
    }
  }

  /** One order after the fill loop: used up and gone, or where the loop leaves it. */
  lemma LoopLeavesOne(buys: bool, side: seq<Order>, taker: Order, open: int, r: Outcome, i: nat)
    requires Positive(side) && TakesAll(buys, side, taker, open, r.trades) && ConsumesPrefix(side, r) && i < |side|
    requires forall t :: t in r.trades ==> t.amount > 0
    ensures var gone, o := |side| - |r.book|, Afterwards(buys, side, taker, open)[i];
            if i < gone then o.Left() <= 0 else o.Left() > 0 && r.book[i - gone] == o
  {
    var gone, taken := |side| - |r.book|, Taken(buys, side, taker, open, i);
    assert taken == if i < |r.trades| then r.trades[i].amount else 0;
    if i < |r.trades| {
      assert r.trades[i] in r.trades;
    }
  }

  /** What the fill loop leaves, trimmed, is what still rests of the side. */
  lemma LoopLeaves(buys: bool, side: seq<Order>, taker: Order, open: int, r: Outcome)
    requires Positive(side) && TakesAll(buys, side, taker, open, r.trades) && ConsumesPrefix(side, r)
    requires forall t :: t in r.trades ==> t.amount > 0
    ensures StillResting(Afterwards(buys, side, taker, open)) == Trim(r.book)
  {
    var s, gone := Afterwards(buys, side, taker, open), |side| - |r.book|;
    forall i: nat | i < |side|
      ensures if i < gone then s[i].Left() <= 0 else s[i].Left() > 0 && r.book[i - gone] == s[i]
    {
      LoopLeavesOne(buys, side, taker, open, r, i);
    }
    assert s == s[..gone] + r.book;
    UsedUp(s[..gone], r.book);
  }

  // ----- a whole match -----

  /** The side of its pair's book a taker trades against, the asks for a buyer. */
  function Against(st: State, taker: Order): seq<Order> {
    if taker.pair !in st.pairs then []
    else if taker.side == "buy" then st.pairs[taker.pair].asks
    else st.pairs[taker.pair].bids
  }

  /** And the other one. */
  function Beside(st: State, taker: Order): seq<Order> {
    if taker.pair !in st.pairs then []
    else if taker.side == "buy" then st.pairs[taker.pair].bids
    else st.pairs[taker.pair].asks
  }

  /** The taker names everything a match asks for. */
  predicate Named(taker: Order) {
    taker.orderId != "" && taker.pair != "" && taker.side != "" && taker.price.Some? && taker.amount.Some?
  }

  /** And it has something to fill. */
  predicate Matchable(taker: Order) {
    Named(taker) && taker.amount.value > taker.filled
  }

  /** The fill loop's outcome in the terms of this module. */
  ghost predicate Fills(buys: bool, side: seq<Order>, taker: Order, open: int, tokens: PairTokens, r: Outcome) {
    TakesAll(buys, side, taker, open, r.trades) && RunsDown(!buys, side, taker, tokens, 0, r.trades)
    && StillResting(Afterwards(buys, side, taker, open)) == Trim(r.book)
    && Volume(r.trades) == open - r.left && r.left >= 0
  }

  lemma LoopFills(buys: bool, side: seq<Order>, taker: Order, open: int, tokens: PairTokens)
    requires Sorted(!buys, side) && Positive(side) && open > 0
    ensures Fills(buys, side, taker, open, tokens, MatchSide(!buys, side, taker, open, tokens, 0))
  {
    TradesTakeAll(buys, side, taker, open, tokens, 0);
    MatchConsumesPrefix(!buys, side, taker, open, tokens, 0);
    LoopLeaves(buys, side, taker, open, MatchSide(!buys, side, taker, open, tokens, 0));
    MatchConserves(!buys, side, taker, open, tokens, 0);
    FillIsMaximal(!buys, side, taker, open, tokens, 0);
  }

  lemma SidesOfBook(st: State, taker: Order)
    requires StateInv(st)
    ensures Opposite(BookOf(st, taker.pair), taker) == Against(st, taker)
    ensures Sorted(taker.side != "buy", Against(st, taker)) && Positive(Against(st, taker))
  {
    BookOfKeeps(st, taker.pair);
  }

  /** The fill loop run for a taker. */
  function Filling(st: State, tokens: map<string, PairTokens>, taker: Order): Outcome {
    var buys := taker.side == "buy";
    MatchSide(!buys, Against(st, taker), taker, taker.amount.GetOr(0) - taker.filled, TokensOf(tokens, taker.pair), 0)
  }

  lemma LoopOutcome(st: State, tokens: map<string, PairTokens>, taker: Order)
    requires StateInv(st) && Matchable(taker)
    ensures Fills(taker.side == "buy", Against(st, taker), taker, taker.amount.value - taker.filled,
                  TokensOf(tokens, taker.pair), Filling(st, tokens, taker))
  {
    SidesOfBook(st, taker);
    var buys, side, open := taker.side == "buy", Against(st, taker), taker.amount.value - taker.filled;
    LoopFills(buys, side, taker, open, TokensOf(tokens, taker.pair));
    assert Filling(st, tokens, taker) == MatchSide(!buys, side, taker, open, TokensOf(tokens, taker.pair), 0);
  }

  lemma MatchIsFilling(st: State, tokens: map<string, PairTokens>, taker: Order)
    requires StateInv(st) && Matchable(taker)
    ensures var m, r := Match(st, tokens, taker), Filling(st, tokens, taker);
            m.trades == r.trades && m.st.index == st.index
            && m.st.pairs
               == st.pairs[taker.pair := if taker.side == "buy" then Book(Trim(Beside(st, taker)), Trim(r.book))
                                         else Book(Trim(r.book), Trim(Beside(st, taker)))]
            && m.taker
               == taker.(filled := taker.amount.value - r.left, status := if r.left <= 0 then Filled else Partial)
  {
    SidesOfBook(st, taker);
    assert taker.Complete() && taker.Left() == taker.amount.value - taker.filled;
  }

  /** Trade `i` is with resting order `i`, for what there is to take from it, and on these terms. */
  lemma TradeTerms(st: State, tokens: map<string, PairTokens>, taker: Order, i: nat)
    requires StateInv(st) && Matchable(taker) && i < |Against(st, taker)|
    ensures var trades, o := Match(st, tokens, taker).trades, Against(st, taker)[i];
            var buys := taker.side == "buy";
            var taken := Taken(buys, Against(st, taker), taker, taker.amount.value - taker.filled, i);
            var base := if taker.pair in tokens then tokens[taker.pair].token0 else "";
            var quote := if taker.pair in tokens then tokens[taker.pair].token1 else "";
            |trades| <= |Against(st, taker)|
            && (i < |trades| <==> taken > 0)
            && (i < |trades| ==>
                  trades[i] ==
                  Trade(TradeId(taker.orderId, o.orderId, i + 1), taker.pair, o.orderId, taker.orderId,
                        o.trader, taker.trader,
                        if buys then base else quote, if buys then quote else base,
                        if buys then taken else taken * o.Price(), if buys then taken * o.Price() else taken,
                        o.Price(), taken))
  {
    LoopOutcome(st, tokens, taker);
    MatchIsFilling(st, tokens, taker);
    var trades := Filling(st, tokens, taker).trades;
    assert Taken(taker.side == "buy", Against(st, taker), taker, taker.amount.value - taker.filled, i)
        == if i < |trades| then trades[i].amount else 0;
  }

  /** With nothing to match the book of the taker's pair is only made sure to exist. */
  lemma NothingMatched(st: State, tokens: map<string, PairTokens>, taker: Order)
    requires !Matchable(taker)
    ensures var m, side, own := Match(st, tokens, taker), Against(st, taker), Beside(st, taker);
            m.trades == [] && m.taker == taker && m.st.index == st.index
            && m.st.pairs == if !Named(taker) then st.pairs
                             else st.pairs[taker.pair := if taker.side == "buy" then Book(own, side)
                                                         else Book(side, own)]
  {
  }

  /**
   The state and the taker a match leaves.  Of the side traded against every order keeps what was not
   taken from it, if that is something; orders marked filled leave both sides; nothing else changes.
   */
  lemma MatchLeaves(st: State, tokens: map<string, PairTokens>, taker: Order)
    requires StateInv(st) && Matchable(taker)
    ensures var m, side, own := Match(st, tokens, taker), Against(st, taker), Beside(st, taker);
            var buys, open := taker.side == "buy", taker.amount.value - taker.filled;
            var side', own' := StillResting(Afterwards(buys, side, taker, open)), StillResting(own);
            m.st.index == st.index
            && m.st.pairs == st.pairs[taker.pair := if buys then Book(own', side') else Book(side', own')]
            && m.taker == taker.(filled := taker.filled + Volume(m.trades),
                                 status := if Volume(m.trades) == open then Filled else Partial)
  {
    MatchIsFilling(st, tokens, taker);
    FillingLeaves(st, tokens, taker);
    BesideRests(st, taker);
  }

  lemma FillingLeaves(st: State, tokens: map<string, PairTokens>, taker: Order)
    requires StateInv(st) && Matchable(taker)
    ensures var r, open := Filling(st, tokens, taker), taker.amount.value - taker.filled;
            StillResting(Afterwards(taker.side == "buy", Against(st, taker), taker, open)) == Trim(r.book)
            && Volume(r.trades) == open - r.left && r.left >= 0
  {
    LoopOutcome(st, tokens, taker);
  }

  lemma BesideRests(st: State, taker: Order)
    requires StateInv(st)
    ensures StillResting(Beside(st, taker)) == Trim(Beside(st, taker))
  {
    BookOfKeeps(st, taker.pair);
    UsedUp([], Beside(st, taker));
    assert [] + Beside(st, taker) == Beside(st, taker);
  }

  // ----- the tokens that change hands -----

  /** What the taker of these trades ends up with of a token: makers give `tokenIn` and get `tokenOut`. */
  function TakerGains(trades: seq<Trade>, token: string): int {
    if trades == [] then 0
    else
      (if trades[0].tokenIn == token then trades[0].amountIn else 0)
      - (if trades[0].tokenOut == token then trades[0].amountOut else 0)
      + TakerGains(trades[1..], token)
  }

  /** Trades of this kind: base for quote, the maker giving base when the taker buys. */
  ghost predicate BaseForQuote(buys: bool, base: string, quote: string, trades: seq<Trade>) {
    forall t :: t in trades ==>
      t.tokenIn == (if buys then base else quote) && t.tokenOut == (if buys then quote else base)
      && t.amountIn == (if buys then t.amount else t.amount * t.price)
      && t.amountOut == (if buys then t.amount * t.price else t.amount)
  }

  lemma {:induction false} GainsAddUp(buys: bool, base: string, quote: string, trades: seq<Trade>, token: string)
    requires base != quote && BaseForQuote(buys, base, quote, trades)
    ensures TakerGains(trades, token)
            == (if buys then 1 else -1)
               * (if token == base then Volume(trades) else if token == quote then -QuoteOfTrades(trades) else 0)
  {
    if trades != [] {
      assert trades[0] in trades;
      GainsAddUp(buys, base, quote, trades[1..], token);
    }
  }

  /** A buyer gets the traded volume in base tokens and pays its price in quote tokens; a seller the reverse. */
  lemma TakerIsPaid(st: State, tokens: map<string, PairTokens>, taker: Order, token: string)
    requires StateInv(st) && Matchable(taker) && taker.pair in tokens
    requires tokens[taker.pair].token0 != tokens[taker.pair].token1
    ensures var trades, sign := Match(st, tokens, taker).trades, if taker.side == "buy" then 1 else -1;
            TakerGains(trades, token)
            == if token == tokens[taker.pair].token0 then sign * Volume(trades)
               else if token == tokens[taker.pair].token1 then -sign * QuoteOfTrades(trades)
               else 0
  {
    var trades := Match(st, tokens, taker).trades;
    var buys, base, quote := taker.side == "buy", tokens[taker.pair].token0, tokens[taker.pair].token1;
    forall t | t in trades
      ensures t.tokenIn == (if buys then base else quote) && t.tokenOut == (if buys then quote else base)
              && t.amountIn == (if buys then t.amount else t.amount * t.price)
              && t.amountOut == (if buys then t.amount * t.price else t.amount)
    {
      var i :| 0 <= i < |trades| && trades[i] == t;
      LoopOutcome(st, tokens, taker);
      MatchIsFilling(st, tokens, taker);
      TradeTerms(st, tokens, taker, i);
    }
    GainsAddUp(buys, base, quote, trades, token);
  }
}
