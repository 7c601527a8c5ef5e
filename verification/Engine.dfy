/**
 The matching engine as the mutable object it is: order books that are updated in place, an
 order-ID index, and per-period counters.  Every method is proved against the function in
 module Books that gives the state it leaves behind.
 */
module Engine {
  import opened Options
  import opened Orders
  import opened Matching
  import opened Books
  import opened Runs
  import opened Batch

  const UINT64: int := 0x1_0000_0000_0000_0000

  class OrderBook {
    const pair: string
    var bids: seq<Order>
    var asks: seq<Order>

    constructor (pair: string)
      ensures this.pair == pair && bids == [] && asks == []
    {
      this.pair := pair;
      bids, asks := [], [];
    }

    ghost function View(): Book
      reads this
    {
      Book(bids, asks)
    }
  }

  datatype PeriodStats = PeriodStats(trades: int, volume: int)

  /** What a list of trades adds to the period's volume; only positive amounts count. */
  function StatVolume(trades: seq<Trade>): int {
    if trades == [] then 0
    else StatVolume(trades[..|trades| - 1]) + if trades[|trades| - 1].amount > 0 then trades[|trades| - 1].amount else 0
  }

  lemma {:induction false} StatVolumeCons(trade: Trade, trades: seq<Trade>)
    ensures StatVolume([trade] + trades) == (if trade.amount > 0 then trade.amount else 0) + StatVolume(trades)
  {
    if trades == [] {
      assert [trade] + trades == [trade];
      assert StatVolume([]) == 0;
    } else {
      StatVolumeCons(trade, trades[..|trades| - 1]);
      assert ([trade] + trades)[..|trades|] == [trade] + trades[..|trades| - 1];
    }
  }

  /** A uint64 counter after so many more trades; without any it is not touched. */
  function Counted(counter: int, trades: nat): int {
    if trades == 0 then counter else (counter + trades) % UINT64
  }

  /** The counters of a period after these trades; without a period they stay. */
  function Tally(period: string, trades0: int, volume0: int, trades: seq<Trade>): (int, int) {
    if period == "" then (trades0, volume0) else (Counted(trades0, |trades|), volume0 + Volume(trades))
  }

  /** Trades count one each, modulo 2^64, and with their amounts, while a period is set. */
  lemma TallyCounts(period: string, trades0: int, volume0: int, trades: seq<Trade>)
    ensures Tally(period, trades0, volume0, trades)
            == if period == "" || trades == [] then (trades0, volume0)
               else ((trades0 + |trades|) % 0x1_0000_0000_0000_0000, volume0 + Volume(trades))
  {
  }

  lemma TalliedMore(trades0: int, volume0: int, a: seq<Trade>, b: seq<Trade>, period: string)
    ensures var t := Tally(period, trades0, volume0, a);
            Tally(period, t.0, t.1, b) == Tally(period, trades0, volume0, a + b)
  {
    CountedTwice(trades0, |a|, |b|);
    VolumeConcat(a, b);
  }

  lemma CountedTwice(counter: int, a: nat, b: nat)
    ensures Counted(Counted(counter, a), b) == Counted(counter, a + b)
  {
  }

  lemma {:induction false} VolumeConcat(a: seq<Trade>, b: seq<Trade>)
    ensures Volume(a + b) == Volume(a) + Volume(b)
  {
    if a == [] {
      assert a + b == b;
    } else {
      VolumeConcat(a[1..], b);
      assert (a + b)[1..] == a[1..] + b;
    }
  }

  /** Every trade of a match has a positive amount, so all of it counts. */
  lemma {:induction false} MatchVolumeCounts(
    isBids: bool, book: seq<Order>, taker: Order, left: int, tokens: PairTokens, seqNo: nat)
    ensures var r := MatchSide(isBids, book, taker, left, tokens, seqNo);
            StatVolume(r.trades) == Volume(r.trades)
  {
    if book == [] || left <= 0 || !Crosses(isBids, taker, book[0]) {
    } else if book[0].Left() <= 0 {
      MatchVolumeCounts(isBids, book[1..], taker, left, tokens, seqNo);
    } else {
      var qty := Min(left, book[0].Left());
      var trade := MakeTrade(isBids, taker, book[0], qty, tokens, seqNo + 1);
      if book[0].Left() == qty {
        MatchVolumeCounts(isBids, book[1..], taker, left - qty, tokens, seqNo + 1);
        StatVolumeCons(trade, MatchSide(isBids, book[1..], taker, left - qty, tokens, seqNo + 1).trades);
      } else {
        StatVolumeCons(trade, []);
        assert [trade] + [] == [trade];
      }
    }
  }

  lemma Overwrite<K, V>(m: map<K, V>, k: K, a: V, b: V)
    ensures m[k := a][k := b] == m[k := b]
  {
  }

  /** An outcome that comes after the trades `trades`. */
  function After(trades: seq<Trade>, o: Outcome): Outcome {
    o.(trades := trades + o.trades)
  }

  /** One trade of the fill loop, with the maker whole or in part. */
  lemma AfterStep(trades: seq<Trade>, isBids: bool, rest: seq<Order>, taker: Order, left: int, tokens: PairTokens)
    requires rest != [] && left > 0 && Crosses(isBids, taker, rest[0]) && rest[0].Left() > 0
    ensures var maker, qty := rest[0], Min(left, rest[0].Left());
            var trade := MakeTrade(isBids, taker, maker, qty, tokens, |trades| + 1);
            var rest' := if maker.Left() == qty then rest[1..]
                         else rest[0 := maker.(filled := maker.filled + qty, status := Partial)];
            After(trades, MatchSide(isBids, rest, taker, left, tokens, |trades|))
            == After(trades + [trade], MatchSide(isBids, rest', taker, left - qty, tokens, |trades| + 1))
  {
    var maker, qty := rest[0], Min(left, rest[0].Left());
    var trade := MakeTrade(isBids, taker, maker, qty, tokens, |trades| + 1);
    var o := MatchSide(isBids, rest, taker, left, tokens, |trades|);
    assert o.trades == [trade] + o.trades[1..];
    assert trades + o.trades == (trades + [trade]) + o.trades[1..];
    if maker.Left() != qty {
      var part := maker.(filled := maker.filled + qty, status := Partial);
      assert rest[0 := part] == [part] + rest[1..];
    }
  }

  class Engine {
    var pairs: map<string, OrderBook>
    const tokens: map<string, PairTokens>
    var orderIDToPair: map<string, string>
    var currentPeriod: string
    var currentTrades: int
    var currentVolume: int
    var periodStats: map<string, PeriodStats>
    const maxOrdersPerPair: nat := 10000

    /** Each book object belongs to the pair it is filed under, so no two pairs share one. */
    ghost predicate Valid()
      reads this`pairs, pairs.Values
    {
      forall p :: p in pairs ==> pairs[p].pair == p
    }

    ghost function BooksByPair(): map<string, Book>
      reads this`pairs, pairs.Values
    {
      map p | p in pairs :: pairs[p].View()
    }

    /** The books and the index as values. */
    ghost function Abs(): State
      reads this`pairs, this`orderIDToPair, pairs.Values
    {
      State(BooksByPair(), orderIDToPair)
    }

    /** Changing the book filed under one pair changes the state there and nowhere else. */
    twostate lemma BookChanged(pair: string)
      requires pairs == old(pairs) && pair in pairs
      requires forall q :: q in pairs && q != pair ==> pairs[q].View() == old(pairs[q].View())
      ensures BooksByPair() == old(BooksByPair())[pair := pairs[pair].View()]
    {
    }

    constructor (pairTokens: map<string, PairTokens>)
      ensures Valid() && Abs() == State(map[], map[])
      ensures tokens == pairTokens && currentPeriod == "" && currentTrades == 0 && currentVolume == 0
      ensures periodStats == map[] && maxOrdersPerPair == 10000
    {
      pairs := map[];
      tokens := pairTokens;
      orderIDToPair := map[];
      currentPeriod, currentTrades, currentVolume := "", 0, 0;
      periodStats := map[];
    }

    /** The book filed under `pair`, created when missing. */
    method GetOrCreate(pair: string) returns (ob: OrderBook)
      requires Valid()
      modifies this`pairs
      ensures Valid() && fresh(pairs.Values - old(pairs.Values))
      ensures pair in pairs && pairs[pair] == ob && ob.View() == BookOf(old(Abs()), pair)
      ensures Abs() == old(Abs()).(pairs := old(Abs()).pairs[pair := BookOf(old(Abs()), pair)])
    {
      if pair !in pairs {
        ob := new OrderBook(pair);
        pairs := pairs[pair := ob];
      }
      ob := pairs[pair];
    }

    method EnsurePair(pair: string)
      requires Valid()
      modifies this`pairs
      ensures Valid() && fresh(pairs.Values - old(pairs.Values))
      ensures Abs() == old(Abs()).(pairs := old(Abs()).pairs[pair := BookOf(old(Abs()), pair)])
    {
      var _ := GetOrCreate(pair);
    }

    /** Copies of the two sides, empty for an unknown pair. */
    method GetOrderbook(pair: string) returns (bids: seq<Order>, asks: seq<Order>)
      requires Valid()
      ensures Book(bids, asks) == BookOf(Abs(), pair)
    {
      if pair !in pairs {
        return [], [];
      }
      bids, asks := pairs[pair].bids, pairs[pair].asks;
    }

    static method RemoveFrom(orders: seq<Order>, orderId: string) returns (r: seq<Order>)
      ensures r == RemoveFirst(orders, orderId)
      ensures |r| < |orders| <==> exists o :: o in orders && o.orderId == orderId
    {
      for i := 0 to |orders|
        invariant forall j :: 0 <= j < i ==> orders[j].orderId != orderId
      {
        if orders[i].orderId == orderId {
          RemoveFirstCuts(orders, orderId, i);
          return orders[..i] + orders[i + 1..];
        }
      }
      RemoveFirstCuts(orders, orderId, |orders|);
      return orders;
    }

    static method RemoveOrderFromBook(ob: OrderBook, orderId: string) returns (removed: bool)
      modifies ob
      ensures ob.View() == RemoveFromBook(old(ob.View()), orderId)
      ensures removed == Rests(old(ob.View()), orderId)
    {
      var before := |ob.bids| + |ob.asks|;
      ob.bids := RemoveFrom(ob.bids, orderId);
      ob.asks := RemoveFrom(ob.asks, orderId);
      return |ob.bids| + |ob.asks| < before;
    }

    /** Appends an order to a side, first dropping the last one when the side is full. */
    method AppendSorted(side: seq<Order>, o: Order, isBids: bool) returns (r: seq<Order>)
      ensures r == AddToSide(isBids, side, o, maxOrdersPerPair)
    {
      var s := if |side| >= maxOrdersPerPair && |side| > 0 then side[..|side| - 1] else side;
      var t := s + [o];
      var orders := new Order[|t|](i requires 0 <= i < |t| => t[i]);
      assert orders[..] == t && orders[..|s|] == s;
      InsertOrderSorted(orders, isBids);
      r := orders[..];
    }

    /** Rests an order in its book. */
    method PutInBook(ob: OrderBook, o: Order)
      modifies ob
      ensures ob.View() == AddToBook(old(ob.View()), o, maxOrdersPerPair)
    {
      if o.side == "buy" {
        ob.bids := AppendSorted(ob.bids, o, true);
      } else {
        ob.asks := AppendSorted(ob.asks, o, false);
      }
    }

    /** The pair's book, created when missing, without the order `orderId`. */
    method BookWithout(pair: string, orderId: string) returns (ob: OrderBook)
      requires Valid()
      modifies this`pairs, pairs.Values
      ensures Valid() && fresh(pairs.Values - old(pairs.Values))
      ensures pair in pairs && pairs[pair] == ob
      ensures ob.View() == RemoveFromBook(BookOf(old(Abs()), pair), orderId)
      ensures Abs() == old(Abs()).(pairs := old(Abs()).pairs[pair := ob.View()])
    {
      if pair in pairs {
        var _ := RemoveOrderFromBook(pairs[pair], orderId);
        BookChanged(pair);
      }
      ob := GetOrCreate(pair);
    }

    method AddOrder(o: Order, now: int) returns (added: bool)
      requires Valid()
      modifies this`pairs, this`orderIDToPair, pairs.Values
      ensures Valid() && fresh(pairs.Values - old(pairs.Values))
      ensures (Abs(), added) == Add(old(Abs()), o, now, maxOrdersPerPair)
    {
      if o.orderId == "" || o.pair == "" || o.side == "" || o.price.None? || o.amount.None? {
        return false;
      }
      if o.Expired(now) {
        return false;
      }
      var ob := BookWithout(o.pair, o.orderId);
      var left := o.amount.GetOr(0) - o.filled;
      if left <= 0 {
        return false;
      }
      label found:
      orderIDToPair := orderIDToPair[o.orderId := o.pair];
      PutInBook(ob, o.(filled := 0, amount := Some(left)));
      BookChanged@found(o.pair);
      Overwrite(old(Abs()).pairs, o.pair, old@found(ob.View()), ob.View());
      return true;
    }

    /** Forgets the index entries of these orders. */
    method DropIndex(orders: seq<Order>)
      modifies this`orderIDToPair
      ensures orderIDToPair == old(orderIDToPair) - Ids(orders)
    {
      for i := 0 to |orders|
        invariant orderIDToPair == old(orderIDToPair) - Ids(orders[..i])
      {
        assert orders[..i + 1] == orders[..i] + [orders[i]];
        assert Ids(orders[..i + 1]) == Ids(orders[..i]) + {orders[i].orderId};
        orderIDToPair := orderIDToPair - {orders[i].orderId};
      }
      assert orders[..|orders|] == orders;
    }

    /** The received orders that may rest, normalised and indexed under `pair`. */
    method KeepOrders(orders: seq<Order>, pair: string, now: int) returns (kept: seq<Order>)
      modifies this`orderIDToPair
      ensures kept == Kept(orders, now)
      ensures orderIDToPair == Indexed(old(orderIDToPair), Ids(kept), pair)
    {
      kept := [];
      for i := 0 to |orders|
        invariant kept == Kept(orders[..i], now)
        invariant orderIDToPair == Indexed(old(orderIDToPair), Ids(kept), pair)
      {
        var o := orders[i];
        assert orders[..i + 1] == orders[..i] + [o];
        KeptOneMore(orders[..i], o, now);
        if o.orderId == "" || o.Expired(now) {
          continue;
        }
        var left := o.amount.GetOr(0) - o.filled;
        if left <= 0 {
          continue;
        }
        IndexStep(old(orderIDToPair), kept, o.Resting(), pair);
        kept := kept + [o.(filled := 0, amount := Some(left))];
        orderIDToPair := orderIDToPair[o.orderId := pair];
      }
      assert orders[..|orders|] == orders;
    }

    /** A new book holding the received orders that may rest. */
    method BuildBook(pair: string, bids: seq<Order>, asks: seq<Order>, now: int) returns (ob: OrderBook)
      modifies this`orderIDToPair
      ensures fresh(ob) && ob.pair == pair
      ensures ob.View() == Book(InsertAll(true, Kept(bids, now)), InsertAll(false, Kept(asks, now)))
      ensures orderIDToPair == Indexed(old(orderIDToPair), Ids(Kept(bids, now)) + Ids(Kept(asks, now)), pair)
    {
      var newBids := KeepOrders(bids, pair, now);
      var newAsks := KeepOrders(asks, pair, now);
      IndexedTwice(old(orderIDToPair), Ids(newBids), Ids(newAsks), pair);
      ob := new OrderBook(pair);
      ob.bids := SortSide(newBids, true);
      ob.asks := SortSide(newAsks, false);
    }

    /** Drops the index entries of whatever rests under `pair`. */
    method ForgetBook(pair: string)
      requires Valid()
      modifies this`orderIDToPair
      ensures var b := BookOf(old(Abs()), pair);
              orderIDToPair == old(orderIDToPair) - Ids(b.bids) - Ids(b.asks)
    {
      if pair in pairs {
        DropIndex(pairs[pair].bids);
        DropIndex(pairs[pair].asks);
      } else {
        assert Ids(EMPTY_BOOK.bids) == {} && Ids(EMPTY_BOOK.asks) == {};
      }
    }

    method ReplaceOrderbook(pair: string, bids: seq<Order>, asks: seq<Order>, now: int)
      requires Valid()
      modifies this`pairs, this`orderIDToPair
      ensures Valid() && fresh(pairs.Values - old(pairs.Values))
      ensures Abs() == Replace(old(Abs()), pair, bids, asks, now)
    {
      if pair == "" {
        return;
      }
      ForgetBook(pair);
      var ob := BuildBook(pair, bids, asks, now);
      pairs := pairs[pair := ob];
      assert BooksByPair() == old(BooksByPair())[pair := ob.View()];
    }

    /** Searches every book, in no particular order, until one of them had the order. */
    method RemoveAnywhere(orderId: string) returns (ok: bool)
      requires Valid()
      modifies pairs.Values
      ensures ok ==> exists q :: q in old(Abs()).pairs && Rests(old(Abs()).pairs[q], orderId)
                       && Abs().pairs == old(Abs()).pairs[q := RemoveFromBook(old(Abs()).pairs[q], orderId)]
      ensures !ok ==> Abs().pairs == old(Abs()).pairs
                      && forall q :: q in old(Abs()).pairs ==> !Rests(old(Abs()).pairs[q], orderId)
    {
      var todo := pairs.Keys;
      while todo != {}
        invariant todo <= pairs.Keys
        invariant forall q :: q in pairs ==> pairs[q].View() == old(pairs[q].View())
        invariant forall q :: q in pairs.Keys - todo ==> !Rests(pairs[q].View(), orderId)
        decreases todo
      {
        var q :| q in todo;
        var removed := RemoveOrderFromBook(pairs[q], orderId);
        if removed {
          BookChanged(q);
          assert q in old(Abs()).pairs && Rests(old(Abs()).pairs[q], orderId);
          return true;
        }
        NothingToRemove(old(pairs[q].View()), orderId);
        todo := todo - {q};
      }
      forall q | q in old(Abs()).pairs
        ensures !Rests(old(Abs()).pairs[q], orderId)
      {
        assert q in pairs.Keys - todo;
      }
      assert Abs().pairs == old(Abs()).pairs;
      return false;
    }

    method RemoveOrder(pair: string, orderId: string) returns (ok: bool)
      requires Valid()
      modifies this`orderIDToPair, pairs.Values
      ensures Valid()
      ensures Removal(old(Abs()), pair, orderId, Abs(), ok)
    {
      var p := pair;
      if p == "" {
        p := if orderId in orderIDToPair then orderIDToPair[orderId] else "";
        orderIDToPair := orderIDToPair - {orderId};
      }
      if p == "" {
        ok := RemoveAnywhere(orderId);
        return;
      }
      if p !in pairs {
        return false;
      }
      ok := RemoveOrderFromBook(pairs[p], orderId);
      BookChanged(p);
      if ok {
        orderIDToPair := orderIDToPair - {orderId};
      }
    }

    /** Eats one side of the book from its best price; `left` is what the taker has open. */
    method FillSide(side: seq<Order>, isBids: bool, taker: Order, left: int, pairTokens: PairTokens)
      returns (trades: seq<Trade>, rest: seq<Order>, takerLeft: int)
      ensures Outcome(trades, rest, takerLeft) == MatchSide(isBids, side, taker, left, pairTokens, 0)
    {
      trades, rest, takerLeft := [], side, left;
      while |rest| > 0 && takerLeft > 0
        invariant MatchSide(isBids, side, taker, left, pairTokens, 0)
               == After(trades, MatchSide(isBids, rest, taker, takerLeft, pairTokens, |trades|))
        decreases |rest|, takerLeft
      {
        var maker := rest[0];
        var makerPrice, takerPrice := maker.Price(), taker.Price();
        if if isBids then takerPrice > makerPrice else takerPrice < makerPrice {
          break;
        }
        var makerLeft := maker.amount.GetOr(0) - maker.filled;
        if makerLeft <= 0 {
          rest := rest[1..];
          continue;
        }
        AfterStep(trades, isBids, rest, taker, takerLeft, pairTokens);
        var qty := takerLeft;
        if makerLeft < qty {
          qty := makerLeft;
        }
        trades := trades + [MakeTrade(isBids, taker, maker, qty, pairTokens, |trades| + 1)];
        takerLeft := takerLeft - qty;
        if makerLeft == qty {
          rest := rest[1..];
        } else {
          rest := rest[0 := maker.(filled := maker.filled + qty, status := Partial)];
        }
      }
    }

    static method TrimFilled(orders: seq<Order>) returns (out: seq<Order>)
      ensures out == Trim(orders)
    {
      out := [];
      for i := 0 to |orders|
        invariant out == Trim(orders[..i])
      {
        assert orders[..i + 1][..i] == orders[..i];
        if orders[i].status != Filled {
          out := out + [orders[i]];
        }
      }
      assert orders[..|orders|] == orders;
    }

    /** Counts the trades of one match towards the current period, if there is one. */
    method AddMatchStats(trades: seq<Trade>)
      modifies this`currentTrades, this`currentVolume
      ensures currentTrades ==
              if currentPeriod == "" then old(currentTrades) else Counted(old(currentTrades), |trades|)
      ensures currentVolume == old(currentVolume) + if currentPeriod == "" then 0 else StatVolume(trades)
    {
      if |trades| == 0 || currentPeriod == "" {
        return;
      }
      currentTrades := (currentTrades + |trades|) % UINT64;
      for i := 0 to |trades|
        invariant currentVolume == old(currentVolume) + StatVolume(trades[..i])
        invariant currentTrades == (old(currentTrades) + |trades|) % UINT64
      {
        assert trades[..i + 1][..i] == trades[..i];
        if trades[i].amount <= 0 {
          continue;
        }
        currentVolume := currentVolume + trades[i].amount;
      }
      assert trades[..|trades|] == trades;
    }

    /** Matches a taker with something left against its book. */
    method MatchInBook(ob: OrderBook, taker: Order) returns (trades: seq<Trade>, taker': Order)
      modifies ob
      ensures (ob.View(), trades, taker') == MatchBook(old(ob.View()), tokens, taker)
      ensures StatVolume(trades) == Volume(trades)
    {
      var pairTokens := TokensOf(tokens, taker.pair);
      var takerLeft := taker.amount.GetOr(0) - taker.filled;
      MatchVolumeCounts(taker.side != "buy", Opposite(ob.View(), taker), taker, takerLeft, pairTokens, 0);
      ghost var b := ob.View();
      var left;
      if taker.side == "buy" {
        trades, ob.asks, left := FillSide(ob.asks, false, taker, takerLeft, pairTokens);
        assert Outcome(trades, ob.asks, left) == MatchOpposite(b, tokens, taker) && ob.bids == b.bids;
      } else {
        trades, ob.bids, left := FillSide(ob.bids, true, taker, takerLeft, pairTokens);
        assert Outcome(trades, ob.bids, left) == MatchOpposite(b, tokens, taker) && ob.asks == b.asks;
      }
      taker' := taker.(filled := taker.filled + (takerLeft - left), status := if left <= 0 then Filled else Partial);
      ob.bids := TrimFilled(ob.bids);
      ob.asks := TrimFilled(ob.asks);
    }

    /** Match without the period counters. */
    method MatchUncounted(taker: Order) returns (trades: seq<Trade>, taker': Order)
      requires Valid()
      modifies this`pairs, pairs.Values
      ensures Valid() && fresh(pairs.Values - old(pairs.Values))
      ensures Matched(Abs(), trades, taker') == Books.Match(old(Abs()), tokens, taker)
      ensures StatVolume(trades) == Volume(trades)
    {
      if taker.orderId == "" || taker.pair == "" || taker.side == "" || taker.price.None? || taker.amount.None? {
        return [], taker;
      }
      var ob := GetOrCreate(taker.pair);
      if taker.amount.GetOr(0) - taker.filled <= 0 {
        return [], taker;
      }
      label found:
      trades, taker' := MatchInBook(ob, taker);
      BookChanged@found(taker.pair);
      Overwrite(old(Abs()).pairs, taker.pair, old@found(ob.View()), ob.View());
    }

    /** The live counters stand where these trades take them from the given ones. */
    ghost predicate Tallied(trades0: int, volume0: int, trades: seq<Trade>)
      reads this`currentPeriod, this`currentTrades, this`currentVolume
    {
      (currentTrades, currentVolume) == Tally(currentPeriod, trades0, volume0, trades)
    }

    /** Matches a taker and returns its trades together with its updated fill and status. */
    method Match(taker: Order) returns (trades: seq<Trade>, taker': Order)
      requires Valid()
      modifies this`pairs, this`currentTrades, this`currentVolume, pairs.Values
      ensures Valid() && fresh(pairs.Values - old(pairs.Values))
      ensures Matched(Abs(), trades, taker') == Books.Match(old(Abs()), tokens, taker)
      ensures Tallied(old(currentTrades), old(currentVolume), trades)
    {
      trades, taker' := MatchUncounted(taker);
      AddMatchStats(trades);
    }

    /** Matches a batch in the agreed order, which is returned with the trades and the updated takers. */
    method MatchBatch(takers: seq<Order>) returns (trades: seq<Trade>, sorted: seq<Order>, takers': seq<Order>)
      requires Valid()
      modifies this`pairs, this`currentTrades, this`currentVolume, pairs.Values
      ensures Valid() && fresh(pairs.Values - old(pairs.Values))
      ensures multiset(sorted) == multiset(takers)
      ensures forall i, j :: 0 <= i < j < |sorted| ==> InTurn(sorted[i], sorted[j])
      ensures BatchRun(Abs(), trades, takers') == RunBatch(old(Abs()), tokens, sorted)
      ensures Tallied(old(currentTrades), old(currentVolume), trades)
    {
      trades, takers' := [], [];
      sorted := SortTakers(takers);
      BatchOrderIsByTurn(takers, sorted);
      for i := 0 to |sorted|
        invariant Valid() && fresh(pairs.Values - old(pairs.Values))
        invariant BatchRun(Abs(), trades, takers') == RunBatch(old(Abs()), tokens, sorted[..i])
        invariant Tallied(old(currentTrades), old(currentVolume), trades)
      {
        assert sorted[..i + 1][..i] == sorted[..i];
        var more, t := Match(sorted[i]);
        TalliedMore(old(currentTrades), old(currentVolume), trades, more, currentPeriod);
        trades := trades + more;
        takers' := takers' + [t];
      }
      assert sorted[..|sorted|] == sorted;
    }

    /** Opens a new period; the counters of the previous one are filed under its name. */
    method SetCurrentPeriod(period: string)
      modifies this`currentPeriod, this`currentTrades, this`currentVolume, this`periodStats
      ensures if period == "" || period == old(currentPeriod) then
                currentPeriod == old(currentPeriod) && currentTrades == old(currentTrades)
                && currentVolume == old(currentVolume) && periodStats == old(periodStats)
              else
                currentPeriod == period && currentTrades == 0 && currentVolume == 0
                && periodStats
                   == if old(currentPeriod) == "" then old(periodStats)
                      else
                        old(periodStats)[old(currentPeriod) := PeriodStats(old(currentTrades), old(currentVolume))]
    {
      if period == "" || currentPeriod == period {
        return;
      }
      if currentPeriod != "" {
        periodStats := periodStats[currentPeriod := PeriodStats(currentTrades, currentVolume)];
      }
      currentPeriod, currentTrades, currentVolume := period, 0, 0;
    }

    /** The counters of the period being counted, or what was filed for another one. */
    method GetPeriodStats(period: string) returns (stats: PeriodStats)
      ensures period == currentPeriod ==> stats == PeriodStats(currentTrades, currentVolume)
      ensures period != currentPeriod ==>
                stats == if period in periodStats then periodStats[period] else PeriodStats(0, 0)
    {
      if currentPeriod == period {
        return PeriodStats(currentTrades, currentVolume);
      }
      if period in periodStats {
        return periodStats[period];
      }
      return PeriodStats(0, 0);
    }
  }
}
