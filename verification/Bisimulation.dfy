/**
 The Go engine and the browser engine are bisimilar.  The Go engine raises `filled`, the browser
 shrinks `amount`; books that agree on every remainder produce the same trades and agree again
 afterwards, for one match and over whole sessions on any number of pairs.
 */
module Bisimulation {
  import opened Options
  import opened Orders
  import opened Matching
  import opened Books
  import opened Runs
  import opened Browser

  /** The same order seen by both engines, remainders apart. */
  predicate SameOrder(g: Order, t: Order) {
    g.orderId == t.orderId && g.trader == t.trader && g.pair == t.pair && g.side == t.side
    && g.Price() == t.Price() && g.createdAt == t.createdAt
  }

  predicate RelatedOrder(g: Order, t: Order) {
    SameOrder(g, t) && g.Left() == Amount(t) && Amount(t) > 0
  }

  predicate Related(gs: seq<Order>, ts: seq<Order>) {
    |gs| == |ts| && forall i :: 0 <= i < |gs| ==> RelatedOrder(gs[i], ts[i])
  }

  predicate SameTrade(g: Trade, t: BrowserTrade) {
    g.makerOrderId == t.makerOrderId && g.takerOrderId == t.takerOrderId
    && g.maker == t.maker && g.taker == t.taker && g.pair == t.pair
    && g.price == t.price && g.amount == t.amount
  }

  predicate SameTrades(gs: seq<Trade>, ts: seq<BrowserTrade>) {
    |gs| == |ts| && forall i :: 0 <= i < |gs| ==> SameTrade(gs[i], ts[i])
  }

  /** Both outcomes have the same trades and leave related sides and the same remainder. */
  predicate SameOutcome(g: Outcome, t: Eaten) {
    SameTrades(g.trades, t.trades) && Related(g.book, t.book) && g.left == t.left
  }

  lemma WholeMaker(
    isBids: bool, gs: seq<Order>, ts: seq<Order>, taker: Order, taker': Order, left: int,
    tokens: PairTokens, seqNo: nat, seqNo': nat)
    requires Related(gs, ts) && SameOrder(taker, taker') && gs != [] && RelatedOrder(gs[0], ts[0])
    requires 0 < gs[0].Left() <= left && Crosses(isBids, taker, gs[0])
    requires var l := left - gs[0].Left();
             SameOutcome(MatchSide(isBids, gs[1..], taker, l, tokens, seqNo + 1),
                         Eat(isBids, ts[1..], taker', l, seqNo' + 1))
    ensures SameOutcome(MatchSide(isBids, gs, taker, left, tokens, seqNo), Eat(isBids, ts, taker', left, seqNo'))
  {
    var l := left - gs[0].Left();
    var trade, trade' := MakeTrade(isBids, taker, gs[0], gs[0].Left(), tokens, seqNo + 1),
                         MakeBrowserTrade(isBids, taker', ts[0], gs[0].Left(), seqNo');
    var g, t := MatchSide(isBids, gs[1..], taker, l, tokens, seqNo + 1), Eat(isBids, ts[1..], taker', l, seqNo' + 1);
    EatWhole(isBids, ts, taker', left, seqNo');
    assert MatchSide(isBids, gs, taker, left, tokens, seqNo) == g.(trades := [trade] + g.trades);
    assert SameTrade(trade, trade');
    TradesConcat([trade], [trade'], g.trades, t.trades);
  }

  lemma PartOfMaker(
    isBids: bool, gs: seq<Order>, ts: seq<Order>, taker: Order, taker': Order, left: int,
    tokens: PairTokens, seqNo: nat, seqNo': nat)
    requires Related(gs, ts) && SameOrder(taker, taker') && gs != [] && RelatedOrder(gs[0], ts[0])
    requires 0 < left < gs[0].Left() && Crosses(isBids, taker, gs[0])
    ensures SameOutcome(MatchSide(isBids, gs, taker, left, tokens, seqNo), Eat(isBids, ts, taker', left, seqNo'))
  {
    HeadShrinks(gs, ts, left);
  }

  lemma {:induction false} SidesBisimilar(
    isBids: bool, gs: seq<Order>, ts: seq<Order>, taker: Order, taker': Order, left: int,
    tokens: PairTokens, seqNo: nat, seqNo': nat)
    requires Related(gs, ts) && SameOrder(taker, taker')
    ensures SameOutcome(MatchSide(isBids, gs, taker, left, tokens, seqNo), Eat(isBids, ts, taker', left, seqNo'))
  {
    if gs == [] {
      assert ts == [];
    } else {
      assert RelatedOrder(gs[0], ts[0]);
      if left > 0 && Crosses(isBids, taker, gs[0]) {
        if gs[0].Left() <= left {
          SidesBisimilar(isBids, gs[1..], ts[1..], taker, taker', left - gs[0].Left(), tokens, seqNo + 1, seqNo' + 1);
          WholeMaker(isBids, gs, ts, taker, taker', left, tokens, seqNo, seqNo');
        } else {
          PartOfMaker(isBids, gs, ts, taker, taker', left, tokens, seqNo, seqNo');
        }
      }
    }
  }

  /** Raising the fill and shrinking the amount of related orders by one quantity keeps them related. */
  lemma HeadShrinks(gs: seq<Order>, ts: seq<Order>, qty: int)
    requires Related(gs, ts) && gs != [] && qty < gs[0].Left()
    ensures Related([gs[0].(filled := gs[0].filled + qty, status := Partial)] + gs[1..],
                    [ts[0].(amount := Some(Amount(ts[0]) - qty))] + ts[1..])
  {
    assert RelatedOrder(gs[0], ts[0]);
  }

  lemma TradesConcat(gs: seq<Trade>, ts: seq<BrowserTrade>, gs': seq<Trade>, ts': seq<BrowserTrade>)
    requires SameTrades(gs, ts) && SameTrades(gs', ts')
    ensures SameTrades(gs + gs', ts + ts')
  {
  }

  ghost predicate BookRelated(g: Book, t: Book) {
    Related(g.bids, t.bids) && Related(g.asks, t.asks)
  }

  lemma {:induction false} TrimShorter(s: seq<Order>)
    requires !NoneMarked(s)
    ensures |Trim(s)| < |s|
  {
    var s', last := s[..|s| - 1], s[|s| - 1];
    TrimLength(s');
    if last.status != Filled {
      assert s == s' + [last];
      TrimShorter(s');
    }
  }

  /** Trimming keeps a side related exactly when it has nothing to drop. */
  lemma TrimRelated(gs: seq<Order>, ts: seq<Order>)
    requires Related(gs, ts)
    ensures Related(Trim(gs), ts) <==> NoneMarked(gs)
  {
    if NoneMarked(gs) {
      TrimIdentity(gs);
    } else {
      TrimShorter(gs);
    }
  }

  /** The side of the book a taker's own order would rest on. */
  function Own(b: Book, taker: Order): seq<Order> {
    if taker.side == "buy" then b.bids else b.asks
  }

  /** No order marked filled is left for trimFilled to drop once this taker is done. */
  ghost predicate NothingStranded(g: Book, taker: Order) {
    MarkedAreReached(taker.side != "buy", Opposite(g, taker), taker, taker.Left()) && NoneMarked(Own(g, taker))
  }

  /**
   One taker against related opposite sides: the trades always agree, and the sides left agree if
   and only if the taker gets to every order that rests there with the status "filled".
   */
  lemma MatchSideBisimilar(g: Book, t: Book, tokens: map<string, PairTokens>, taker: Order, taker': Order)
    requires Related(Opposite(g, taker), Opposite(t, taker')) && BookInv(g)
    requires SameOrder(taker, taker') && taker.Left() == Amount(taker')
    ensures var (g', trades, _), r := MatchBook(g, tokens, taker), EatOpposite(t, taker');
            SameTrades(trades, r.trades)
            && (Related(Opposite(g', taker), r.book)
                <==> MarkedAreReached(taker.side != "buy", Opposite(g, taker), taker, taker.Left()))
  {
    var isBids, side := taker.side != "buy", Opposite(g, taker);
    var tokensOf := TokensOf(tokens, taker.pair);
    SidesBisimilar(isBids, side, Opposite(t, taker'), taker, taker', taker.Left(), tokensOf, 0, 0);
    SurvivorsMarked(isBids, side, taker, taker.Left(), tokensOf, 0);
    TrimRelated(MatchOpposite(g, tokens, taker).book, EatOpposite(t, taker').book);
  }

  /** The same for whole books, whose other side is trimmed as well. */
  lemma MatchBisimilar(g: Book, t: Book, tokens: map<string, PairTokens>, taker: Order, taker': Order)
    requires BookRelated(g, t) && BookInv(g) && SameOrder(taker, taker') && taker.Left() == Amount(taker')
    ensures var (g', trades, _), r := MatchBook(g, tokens, taker), EatOpposite(t, taker');
            SameTrades(trades, r.trades)
            && (BookRelated(g', WithOpposite(t, taker', r.book)) <==> NothingStranded(g, taker))
  {
    MatchSideBisimilar(g, t, tokens, taker, taker');
    TrimRelated(Own(g, taker), Own(t, taker'));
  }

  lemma EverythingIsReached(isBids: bool, side: seq<Order>, taker: Order, left: int)
    requires NoneMarked(side)
    ensures MarkedAreReached(isBids, side, taker, left)
  {
    forall i | 0 <= i < |side|
      ensures side[i].status != Filled
    {
      assert side[i] in side;
    }
  }

  /** Where nothing rests marked filled related books stay related under every taker. */
  lemma UnmarkedMatchBisimilar(g: Book, t: Book, tokens: map<string, PairTokens>, taker: Order, taker': Order)
    requires BookRelated(g, t) && BookInv(g) && SameOrder(taker, taker') && taker.Left() == Amount(taker')
    requires NoneMarked(g.bids) && NoneMarked(g.asks)
    ensures var (g', trades, _), r := MatchBook(g, tokens, taker), EatOpposite(t, taker');
            SameTrades(trades, r.trades) && BookRelated(g', WithOpposite(t, taker', r.book))
  {
    EverythingIsReached(taker.side != "buy", Opposite(g, taker), taker, taker.Left());
    MatchBisimilar(g, t, tokens, taker, taker');
  }

  lemma {:induction false} InsertRelated(isBids: bool, gs: seq<Order>, ts: seq<Order>, o: Order, o': Order)
    requires Related(gs, ts) && RelatedOrder(o, o')
    ensures Related(Insert(isBids, gs, o), Insert(isBids, ts, o'))
  {
    if gs != [] {
      assert RelatedOrder(gs[|gs| - 1], ts[|ts| - 1]);
      if Before(isBids, o, gs[|gs| - 1]) {
        InsertRelated(isBids, gs[..|gs| - 1], ts[..|ts| - 1], o, o');
      }
    }
  }

  lemma RelatedSorted(isBids: bool, gs: seq<Order>, ts: seq<Order>)
    requires Related(gs, ts) && Sorted(isBids, gs)
    ensures Sorted(isBids, ts)
  {
    forall i, j | 0 <= i < j < |ts|
      ensures !Before(isBids, ts[j], ts[i])
    {
      assert RelatedOrder(gs[i], ts[i]) && RelatedOrder(gs[j], ts[j]);
    }
  }

  /** Pushing and re-sorting a sorted side is inserting. */
  lemma PushIsInsert(isBids: bool, s: seq<Order>, o: Order)
    requires Sorted(isBids, s)
    ensures InsertAll(isBids, s + [o]) == Insert(isBids, s, o)
  {
    assert (s + [o])[..|s|] == s;
    SortedIsFixed(isBids, s);
  }

  /** Removing the first match and filtering every match agree when IDs are distinct. */
  lemma {:induction false} RemovalAgrees(s: seq<Order>, id: string)
    requires DistinctIds(s)
    ensures RemoveFirst(s, id) == Without(s, id)
  {
    if s != [] {
      var first, rest := s[0], s[1..];
      assert s == [first] + rest;
      WithoutConcat([first], rest, id);
      assert Without([first], id) == if first.orderId == id then [] else [first];
      if first.orderId == id {
        WithoutAbsent(rest, id);
      } else {
        RemovalAgrees(rest, id);
      }
    }
  }

  lemma {:induction false} WithoutAbsent(s: seq<Order>, id: string)
    requires forall i :: 0 <= i < |s| ==> s[i].orderId != id
    ensures Without(s, id) == s
  {
    if s != [] {
      WithoutAbsent(s[..|s| - 1], id);
      assert s == s[..|s| - 1] + [s[|s| - 1]];
    }
  }

  lemma {:induction false} WithoutConcat(a: seq<Order>, b: seq<Order>, id: string)
    ensures Without(a + b, id) == Without(a, id) + Without(b, id)
  {
    if b == [] {
      assert a + b == a;
    } else {
      WithoutConcat(a, b[..|b| - 1], id);
      assert (a + b)[..|a + b| - 1] == a + b[..|b| - 1];
    }
  }

  lemma {:induction false} WithoutRelated(gs: seq<Order>, ts: seq<Order>, id: string)
    requires Related(gs, ts)
    ensures Related(Without(gs, id), Without(ts, id))
  {
    if gs != [] {
      assert RelatedOrder(gs[|gs| - 1], ts[|ts| - 1]);
      WithoutRelated(gs[..|gs| - 1], ts[..|ts| - 1], id);
    }
  }

  function WithoutBook(b: Book, id: string): Book {
    Book(Without(b.bids, id), Without(b.asks, id))
  }

  lemma RemovalBisimilar(g: Book, t: Book, id: string)
    requires BookRelated(g, t) && IdsDistinct(g)
    ensures BookRelated(RemoveFromBook(g, id), WithoutBook(t, id))
  {
    DistinctConcat(g.bids, g.asks);
    RemovalAgrees(g.bids, id);
    RemovalAgrees(g.asks, id);
    WithoutRelated(g.bids, t.bids, id);
    WithoutRelated(g.asks, t.asks, id);
  }

  /** The side an order is to rest on is at the cap, so the node drops the last order there. */
  predicate SideFull(b: Book, o: Order, cap: nat) {
    |Own(b, o)| >= cap && Own(b, o) != []
  }

  lemma {:induction false} InsertLength(isBids: bool, s: seq<Order>, o: Order)
    ensures |Insert(isBids, s, o)| == |s| + 1
  {
    if s != [] && Before(isBids, o, s[|s| - 1]) {
      InsertLength(isBids, s[..|s| - 1], o);
    }
  }

  /** Adding keeps books related if and only if the side added to is not full, as the browser has no cap. */
  lemma AddBisimilar(g: Book, t: Book, o: Order, cap: nat)
    requires BookRelated(g, t) && BookInv(g) && o.Left() > 0
    ensures BookRelated(AddToBook(g, o.Resting(), cap), PushSorted(t, o.Resting())) <==> !SideFull(g, o, cap)
  {
    var isBids := o.side == "buy";
    var gs, ts := Own(g, o), Own(t, o);
    RelatedSorted(isBids, gs, ts);
    PushIsInsert(isBids, ts, o.Resting());
    if SideFull(g, o, cap) {
      InsertLength(isBids, gs[..|gs| - 1], o.Resting());
      InsertLength(isBids, ts, o.Resting());
    } else {
      InsertRelated(isBids, gs, ts, o.Resting(), o.Resting());
    }
  }

  // ----- whole sessions -----

  /** Requests to both engines; a cancel names the pair, as the node's RemoveOrder takes it. */
  datatype SessionOp =
    | Rest(order: Order, now: int)
    | CancelId(pair: string, id: string)
    | TradeWith(taker: Order)

  predicate ValidOp(op: SessionOp) {
    match op
    case Rest(o, now) => WellFormed(o, o.pair, now)
    case CancelId(pair, id) => pair != ""
    case TradeWith(taker) => taker.Complete()
  }

  function PairOf(op: SessionOp): string {
    match op
    case Rest(o, _) => o.pair
    case CancelId(pair, _) => pair
    case TradeWith(taker) => taker.pair
  }

  datatype Session = Session(
    go: State, browser: BrowserState, goTrades: seq<Trade>, browserTrades: seq<BrowserTrade>)

  const NEW_SESSION := Session(State(map[], map[]), BrowserState(map[], map[]), [], [])

  /** RemoveOrder with the pair given. */
  ghost function GoCancel(st: State, pair: string, id: string): State {
    if pair !in st.pairs then st
    else
      State(st.pairs[pair := RemoveFromBook(st.pairs[pair], id)],
            if Rests(st.pairs[pair], id) then st.index - {id} else st.index)
  }

  lemma GoCancelIsRemoval(st: State, pair: string, id: string)
    requires pair != ""
    ensures Removal(st, pair, id, GoCancel(st, pair, id), pair in st.pairs && Rests(st.pairs[pair], id))
  {
  }

  /** Each engine's own operation; the browser is told remainders as amounts. */
  ghost function SessionStep(s: Session, op: SessionOp, tokens: map<string, PairTokens>, cap: nat): Session {
    match op
    case Rest(o, now) =>
      s.(go := Add(s.go, o, now, cap).0, browser := Submit(s.browser, o.Resting()))
    case CancelId(pair, id) =>
      s.(go := GoCancel(s.go, pair, id), browser := Cancel(s.browser, id))
    case TradeWith(taker) =>
      var m := Match(s.go, tokens, taker);
      Session(m.st, Take(s.browser, taker.Resting()),
              s.goTrades + m.trades,
              s.browserTrades + EatOpposite(BrowserBook(s.browser, taker.pair), taker.Resting()).trades)
  }

  ghost function RunSession(ops: seq<SessionOp>, tokens: map<string, PairTokens>, cap: nat): Session {
    if ops == [] then NEW_SESSION
    else SessionStep(RunSession(ops[..|ops| - 1], tokens, cap), ops[|ops| - 1], tokens, cap)
  }

  /** What a user of both engines sees: the same trades, and books that agree on every pair. */
  ghost predicate Agree(s: Session) {
    SameTrades(s.goTrades, s.browserTrades) && forall p :: BookRelated(BookOf(s.go, p), BrowserBook(s.browser, p))
  }

  ghost predicate PairInv(g: Book, t: Book) {
    BookRelated(g, t) && BookInv(g) && IdsDistinct(g)
  }

  /** Agreement together with what either engine keeps by itself. */
  ghost predicate SessionInv(s: Session) {
    (forall p :: PairInv(BookOf(s.go, p), BrowserBook(s.browser, p)))
    && SameTrades(s.goTrades, s.browserTrades)
    && IndexExact(s.browser) && "" !in s.browser.books
  }

  lemma InvAgrees(s: Session)
    requires SessionInv(s)
    ensures Agree(s)
  {
    forall p
      ensures BookRelated(BookOf(s.go, p), BrowserBook(s.browser, p))
    {
      assert PairInv(BookOf(s.go, p), BrowserBook(s.browser, p));
    }
  }

  // ----- the three things that drive the engines apart -----

  ghost predicate RestsElsewhere(st: State, pair: string, id: string) {
    exists p :: p in st.pairs && p != pair && Rests(st.pairs[p], id)
  }

  /** The request names an ID that rests under another pair: the browser drops it, the node does not. */
  ghost predicate Reuses(s: Session, op: SessionOp) {
    match op
    case Rest(o, _) => RestsElsewhere(s.go, o.pair, o.orderId)
    case CancelId(pair, id) => RestsElsewhere(s.go, pair, id)
    case TradeWith(_) => false
  }

  /** The order, with any of its own ID gone, meets a full side: the node drops an order, the browser none. */
  predicate Overflows(s: Session, op: SessionOp, cap: nat) {
    op.Rest? && SideFull(RemoveFromBook(BookOf(s.go, op.order.pair), op.order.orderId), op.order, cap)
  }

  /** A match leaves an order marked filled untouched: the node drops it, the browser does not. */
  ghost predicate Strands(s: Session, op: SessionOp) {
    op.TradeWith? && op.taker.Left() > 0 && !NothingStranded(BookOf(s.go, op.taker.pair), op.taker)
  }

  ghost predicate Diverges(s: Session, op: SessionOp, cap: nat) {
    Reuses(s, op) || Overflows(s, op, cap) || Strands(s, op)
  }

  lemma RelatedIds(g: Book, t: Book, id: string)
    requires BookRelated(g, t)
    ensures Rests(g, id) <==> Rests(t, id)
  {
    RelatedSideIds(g.bids, t.bids, id);
    RelatedSideIds(g.asks, t.asks, id);
  }

  lemma RelatedSideIds(gs: seq<Order>, ts: seq<Order>, id: string)
    requires Related(gs, ts)
    ensures (exists o :: o in gs && o.orderId == id) <==> (exists o :: o in ts && o.orderId == id)
  {
    if o :| o in gs && o.orderId == id {
      var i :| 0 <= i < |gs| && gs[i] == o;
      assert RelatedOrder(gs[i], ts[i]) && ts[i] in ts;
    }
    if o :| o in ts && o.orderId == id {
      var i :| 0 <= i < |ts| && ts[i] == o;
      assert RelatedOrder(gs[i], ts[i]) && gs[i] in gs;
    }
  }

  /** The browser's index knows where the node has an order resting. */
  lemma IndexFindsNodeOrders(s: Session, p: string, id: string)
    requires SessionInv(s)
    ensures Rests(BookOf(s.go, p), id) <==> id in s.browser.index && s.browser.index[id] == p
  {
    assert PairInv(BookOf(s.go, p), BrowserBook(s.browser, p));
    RelatedIds(BookOf(s.go, p), BrowserBook(s.browser, p), id);
    assert RestsIn(s.browser, p, id) <==> Rests(BrowserBook(s.browser, p), id);
  }

  /** Cancelling an ID the index files under this pair, or not at all, touches no other pair. */
  lemma CancelReaches(st: BrowserState, pair: string, id: string)
    requires IndexExact(st) && "" !in st.books && (id in st.index ==> st.index[id] == pair)
    ensures BrowserBook(Cancel(st, id), pair) == WithoutBook(BrowserBook(st, pair), id)
    ensures forall p :: p != pair ==> BrowserBook(Cancel(st, id), p) == BrowserBook(st, p)
    ensures "" !in Cancel(st, id).books
  {
    var b := BrowserBook(st, pair);
    if id in st.index {
      assert RestsIn(st, pair, id);
    } else {
      assert !RestsIn(st, pair, id);
      forall o | o in b.bids || o in b.asks
        ensures o.orderId != id
      {
        assert o.orderId == id ==> Rests(b, id);
      }
      WithoutAbsent(b.bids, id);
      WithoutAbsent(b.asks, id);
    }
  }

  /** A fresh ID, or one resting under this very pair, is what the index shows for it. */
  lemma NotElsewhere(s: Session, pair: string, id: string)
    requires SessionInv(s) && !RestsElsewhere(s.go, pair, id)
    ensures id in s.browser.index ==> s.browser.index[id] == pair
  {
    if id in s.browser.index {
      IndexFindsNodeOrders(s, s.browser.index[id], id);
    }
  }

  /** What adding does to the pair itself. */
  lemma RestPair(g: Book, t: Book, o: Order, cap: nat)
    requires PairInv(g, t) && o.Left() > 0
    ensures var g', t' := AddToBook(RemoveFromBook(g, o.orderId), o.Resting(), cap),
                          PushSorted(WithoutBook(t, o.orderId), o.Resting());
            BookInv(g') && IdsDistinct(g')
            && (BookRelated(g', t') <==> !SideFull(RemoveFromBook(g, o.orderId), o, cap))
  {
    var g1 := RemoveFromBook(g, o.orderId);
    RemoveKeepsBook(g, o.orderId);
    RemovalBisimilar(g, t, o.orderId);
    AddBisimilar(g1, WithoutBook(t, o.orderId), o, cap);
    AddToBookKeeps(g1, o.Resting(), cap);
  }

  /** The books of an added order's pair, in both engines. */
  lemma RestBooks(s: Session, o: Order, now: int, tokens: map<string, PairTokens>, cap: nat)
    requires SessionInv(s) && ValidOp(Rest(o, now)) && !Reuses(s, Rest(o, now))
    ensures var s' := SessionStep(s, Rest(o, now), tokens, cap);
            BookOf(s'.go, o.pair) == AddToBook(RemoveFromBook(BookOf(s.go, o.pair), o.orderId), o.Resting(), cap)
            && BrowserBook(s'.browser, o.pair)
               == PushSorted(WithoutBook(BrowserBook(s.browser, o.pair), o.orderId), o.Resting())
            && (forall p :: p != o.pair ==>
                  BookOf(s'.go, p) == BookOf(s.go, p) && BrowserBook(s'.browser, p) == BrowserBook(s.browser, p))
            && "" !in s'.browser.books
  {
    NotElsewhere(s, o.pair, o.orderId);
    EnsureKeepsExact(s.browser, o.pair);
    CancelReaches(Ensure(s.browser, o.pair), o.pair, o.orderId);
  }

  lemma RestStep(s: Session, o: Order, now: int, tokens: map<string, PairTokens>, cap: nat)
    requires SessionInv(s) && ValidOp(Rest(o, now)) && !Diverges(s, Rest(o, now), cap)
    ensures SessionInv(SessionStep(s, Rest(o, now), tokens, cap))
  {
    var s' := SessionStep(s, Rest(o, now), tokens, cap);
    RestBooks(s, o, now, tokens, cap);
    forall p
      ensures PairInv(BookOf(s'.go, p), BrowserBook(s'.browser, p))
    {
      assert PairInv(BookOf(s.go, p), BrowserBook(s.browser, p));
      if p == o.pair {
        RestPair(BookOf(s.go, p), BrowserBook(s.browser, p), o, cap);
      }
    }
    SubmitKeepsExact(s.browser, o.Resting());
    assert Stuck(s.browser, o.orderId) ==> RestsIn(s.browser, "", o.orderId);
  }

  lemma GoCancelReaches(st: State, pair: string, id: string)
    ensures BookOf(GoCancel(st, pair, id), pair) == RemoveFromBook(BookOf(st, pair), id)
    ensures forall p :: p != pair ==> BookOf(GoCancel(st, pair, id), p) == BookOf(st, p)
  {
  }

  /** The books of a cancel's pair, in both engines. */
  lemma CancelBooks(s: Session, pair: string, id: string, tokens: map<string, PairTokens>, cap: nat)
    requires SessionInv(s) && pair != "" && !RestsElsewhere(s.go, pair, id)
    ensures var s' := SessionStep(s, CancelId(pair, id), tokens, cap);
            BookOf(s'.go, pair) == RemoveFromBook(BookOf(s.go, pair), id)
            && BrowserBook(s'.browser, pair) == WithoutBook(BrowserBook(s.browser, pair), id)
            && (forall p :: p != pair ==>
                  BookOf(s'.go, p) == BookOf(s.go, p) && BrowserBook(s'.browser, p) == BrowserBook(s.browser, p))
            && "" !in s'.browser.books
  {
    NotElsewhere(s, pair, id);
    CancelReaches(s.browser, pair, id);
    GoCancelReaches(s.go, pair, id);
  }

  lemma CancelStep(s: Session, pair: string, id: string, tokens: map<string, PairTokens>, cap: nat)
    requires SessionInv(s) && pair != "" && !RestsElsewhere(s.go, pair, id)
    ensures SessionInv(SessionStep(s, CancelId(pair, id), tokens, cap))
  {
    var s' := SessionStep(s, CancelId(pair, id), tokens, cap);
    CancelBooks(s, pair, id, tokens, cap);
    CancelKeepsExact(s.browser, id);
    forall p
      ensures PairInv(BookOf(s'.go, p), BrowserBook(s'.browser, p))
    {
      assert PairInv(BookOf(s.go, p), BrowserBook(s.browser, p));
      if p == pair {
        CancelPair(BookOf(s.go, p), BrowserBook(s.browser, p), id);
      }
    }
  }

  /** What cancelling does to the pair itself. */
  lemma CancelPair(g: Book, t: Book, id: string)
    requires PairInv(g, t)
    ensures PairInv(RemoveFromBook(g, id), WithoutBook(t, id))
  {
    RemoveKeepsBook(g, id);
    RemovalBisimilar(g, t, id);
  }

  /** What a match does to the pair itself. */
  lemma TradePair(g: Book, t: Book, taker: Order, tokens: map<string, PairTokens>)
    requires PairInv(g, t) && taker.Complete() && taker.Left() > 0
    ensures var (g', trades, _), r := MatchBook(g, tokens, taker), EatOpposite(t, taker.Resting());
            BookInv(g') && IdsDistinct(g') && SameTrades(trades, r.trades)
            && (BookRelated(g', WithOpposite(t, taker.Resting(), r.book)) <==> NothingStranded(g, taker))
  {
    MatchBisimilar(g, t, tokens, taker, taker.Resting());
    MatchKeepsBook(g, tokens, taker);
  }

  /** The books of a taker's pair, in both engines. */
  lemma TradeBooks(s: Session, taker: Order, tokens: map<string, PairTokens>, cap: nat)
    requires SessionInv(s) && taker.Complete()
    ensures var s' := SessionStep(s, TradeWith(taker), tokens, cap);
            SameTrades(s'.goTrades, s'.browserTrades)
            && PairInv(BookOf(s.go, taker.pair), BrowserBook(s.browser, taker.pair))
            && BookInv(BookOf(s'.go, taker.pair)) && IdsDistinct(BookOf(s'.go, taker.pair))
            && (BookRelated(BookOf(s'.go, taker.pair), BrowserBook(s'.browser, taker.pair))
                <==> !Strands(s, TradeWith(taker)))
  {
    var g, t := BookOf(s.go, taker.pair), BrowserBook(s.browser, taker.pair);
    assert PairInv(g, t);
    if taker.Left() > 0 {
      TradePair(g, t, taker, tokens);
      TradesConcat(s.goTrades, s.browserTrades,
                   MatchBook(g, tokens, taker).1, EatOpposite(t, taker.Resting()).trades);
    } else {
      assert EatOpposite(t, taker.Resting()).trades == [];
      assert s.goTrades + [] == s.goTrades && s.browserTrades + [] == s.browserTrades;
    }
  }

  lemma TradeStep(s: Session, taker: Order, tokens: map<string, PairTokens>, cap: nat)
    requires SessionInv(s) && taker.Complete() && !Strands(s, TradeWith(taker))
    ensures SessionInv(SessionStep(s, TradeWith(taker), tokens, cap))
  {
    var s' := SessionStep(s, TradeWith(taker), tokens, cap);
    TradeBooks(s, taker, tokens, cap);
    TakeKeepsExact(s.browser, taker.Resting());
    forall p
      ensures PairInv(BookOf(s'.go, p), BrowserBook(s'.browser, p))
    {
      if p != taker.pair {
        TradeElsewhere(s, taker, tokens, cap, p);
        assert PairInv(BookOf(s.go, p), BrowserBook(s.browser, p));
      }
    }
  }

  lemma TradeElsewhere(s: Session, taker: Order, tokens: map<string, PairTokens>, cap: nat, p: string)
    requires p != taker.pair
    ensures var s' := SessionStep(s, TradeWith(taker), tokens, cap);
            BookOf(s'.go, p) == BookOf(s.go, p) && BrowserBook(s'.browser, p) == BrowserBook(s.browser, p)
  {
  }

  // ----- and they do drive them apart -----

  /** The browser cancels an ID wherever it rests. */
  lemma CancelDrops(st: BrowserState, p: string, id: string)
    requires IndexExact(st) && p != "" && id in st.index && st.index[id] == p
    ensures !Rests(BrowserBook(Cancel(st, id), p), id)
  {
    CancelKeepsExact(st, id);
    assert !RestsIn(Cancel(st, id), p, id);
  }

  lemma OtherBooksStay(s: Session, op: SessionOp, tokens: map<string, PairTokens>, cap: nat, p: string)
    requires p != PairOf(op)
    ensures BookOf(SessionStep(s, op, tokens, cap).go, p) == BookOf(s.go, p)
  {
  }

  /** Naming an ID that rests under another pair leaves that pair's books unrelated. */
  lemma ReuseDiverges(s: Session, op: SessionOp, tokens: map<string, PairTokens>, cap: nat) returns (p: string)
    requires SessionInv(s) && ValidOp(op) && Reuses(s, op)
    ensures var s' := SessionStep(s, op, tokens, cap); !BookRelated(BookOf(s'.go, p), BrowserBook(s'.browser, p))
  {
    var s' := SessionStep(s, op, tokens, cap);
    var id := if op.Rest? then op.order.orderId else op.id;
    p :| p in s.go.pairs && p != PairOf(op) && Rests(s.go.pairs[p], id);
    IndexFindsNodeOrders(s, p, id);
    assert RestsIn(s.browser, p, id);
    if op.Rest? {
      EnsureKeepsExact(s.browser, op.order.pair);
      CancelDrops(Ensure(s.browser, op.order.pair), p, id);
    } else {
      CancelDrops(s.browser, p, id);
    }
    OtherBooksStay(s, op, tokens, cap, p);
    UnrelatedBooks(BookOf(s'.go, p), BrowserBook(s'.browser, p), id);
  }

  lemma UnrelatedBooks(g: Book, t: Book, id: string)
    requires Rests(g, id) && !Rests(t, id)
    ensures !BookRelated(g, t)
  {
    if BookRelated(g, t) {
      RelatedIds(g, t, id);
      assert false;
    }
  }

  /** Any of the three leaves some pair's books unrelated. */
  lemma DivergenceShows(s: Session, op: SessionOp, tokens: map<string, PairTokens>, cap: nat) returns (p: string)
    requires SessionInv(s) && ValidOp(op) && Diverges(s, op, cap)
    ensures var s' := SessionStep(s, op, tokens, cap); !BookRelated(BookOf(s'.go, p), BrowserBook(s'.browser, p))
  {
    if Reuses(s, op) {
      p := ReuseDiverges(s, op, tokens, cap);
    } else if op.Rest? {
      p := op.order.pair;
      assert PairInv(BookOf(s.go, p), BrowserBook(s.browser, p));
      RestBooks(s, op.order, op.now, tokens, cap);
      RestPair(BookOf(s.go, p), BrowserBook(s.browser, p), op.order, cap);
    } else {
      p := op.taker.pair;
      TradeBooks(s, op.taker, tokens, cap);
    }
  }

  lemma SessionContinues(s: Session, op: SessionOp, tokens: map<string, PairTokens>, cap: nat)
    requires SessionInv(s) && ValidOp(op) && !Diverges(s, op, cap)
    ensures SessionInv(SessionStep(s, op, tokens, cap))
  {
    match op
    case Rest(o, now) => RestStep(s, o, now, tokens, cap);
    case CancelId(pair, id) => CancelStep(s, pair, id, tokens, cap);
    case TradeWith(taker) => TradeStep(s, taker, tokens, cap);
  }

  /** One request keeps the engines in agreement if and only if it is none of the three. */
  lemma StepBisimilar(s: Session, op: SessionOp, tokens: map<string, PairTokens>, cap: nat)
    requires SessionInv(s) && ValidOp(op)
    ensures Agree(SessionStep(s, op, tokens, cap)) <==> !Diverges(s, op, cap)
    ensures !Diverges(s, op, cap) ==> SessionInv(SessionStep(s, op, tokens, cap))
  {
    if Diverges(s, op, cap) {
      var p := DivergenceShows(s, op, tokens, cap);
    } else {
      SessionContinues(s, op, tokens, cap);
      InvAgrees(SessionStep(s, op, tokens, cap));
    }
  }

  ghost predicate NeverDiverges(ops: seq<SessionOp>, tokens: map<string, PairTokens>, cap: nat) {
    forall i :: 0 <= i < |ops| ==> !Diverges(RunSession(ops[..i], tokens, cap), ops[i], cap)
  }

  lemma SessionSnoc(ops: seq<SessionOp>, tokens: map<string, PairTokens>, cap: nat, i: nat)
    requires i < |ops|
    ensures RunSession(ops[..i + 1], tokens, cap) == SessionStep(RunSession(ops[..i], tokens, cap), ops[i], tokens, cap)
  {
    assert ops[..i + 1][..i] == ops[..i];
  }

  lemma NewSessionAgrees()
    ensures SessionInv(NEW_SESSION)
  {
    assert IdsDistinct(EMPTY_BOOK);
  }

  /** As long as the engines have agreed so far, or nothing has driven them apart, all is in order. */
  lemma {:induction false} SessionsAgree(ops: seq<SessionOp>, tokens: map<string, PairTokens>, cap: nat, k: nat)
    requires forall op :: op in ops ==> ValidOp(op)
    requires k <= |ops|
    requires forall i :: 0 <= i < k ==>
               !Diverges(RunSession(ops[..i], tokens, cap), ops[i], cap)
               || Agree(RunSession(ops[..i + 1], tokens, cap))
    ensures SessionInv(RunSession(ops[..k], tokens, cap))
  {
    if k == 0 {
      NewSessionAgrees();
    } else {
      var s, op := RunSession(ops[..k - 1], tokens, cap), ops[k - 1];
      SessionsAgree(ops, tokens, cap, k - 1);
      SessionSnoc(ops, tokens, cap, k - 1);
      assert op in ops;
      StepBisimilar(s, op, tokens, cap);
    }
  }

  /**
   A session of valid requests on any pairs, from empty engines: the engines report the same trades
   and hold related books throughout if and only if no request names an ID that rests under another
   pair, rests an order on a full side, or matches past an order marked filled.
   */
  lemma SessionsBisimilar(ops: seq<SessionOp>, tokens: map<string, PairTokens>, cap: nat)
    requires forall op :: op in ops ==> ValidOp(op)
    ensures (forall k :: 0 <= k <= |ops| ==> Agree(RunSession(ops[..k], tokens, cap)))
            <==> NeverDiverges(ops, tokens, cap)
  {
    if NeverDiverges(ops, tokens, cap) {
      forall k | 0 <= k <= |ops|
        ensures Agree(RunSession(ops[..k], tokens, cap))
      {
        SessionsAgree(ops, tokens, cap, k);
        InvAgrees(RunSession(ops[..k], tokens, cap));
      }
    }
    if forall k :: 0 <= k <= |ops| ==> Agree(RunSession(ops[..k], tokens, cap)) {
      forall i | 0 <= i < |ops|
        ensures !Diverges(RunSession(ops[..i], tokens, cap), ops[i], cap)
      {
        SessionsAgree(ops, tokens, cap, i);
        SessionSnoc(ops, tokens, cap, i);
        assert Agree(RunSession(ops[..i + 1], tokens, cap));
        StepBisimilar(RunSession(ops[..i], tokens, cap), ops[i], tokens, cap);
      }
    }
  }
}
