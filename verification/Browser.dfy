/**
 The browser's matching engine.  It shrinks the amount of a resting order instead of raising a
 fill counter, and keeps an index from order ID to pair; when that index is exact is decided here.
 Its orders are Orders.Order values whose `filled` is not used and whose `createdAt` is the
 browser's timestamp.
 */
module Browser {
  import opened Options
  import opened Orders
  import opened Matching
  import opened Books

  function Amount(o: Order): int {
    o.amount.GetOr(0)
  }

  datatype BrowserTrade = BrowserTrade(
    seqNo: nat, makerOrderId: string, takerOrderId: string, maker: string, taker: string,
    pair: string, price: int, amount: int, makerBuys: bool)

  function MakeBrowserTrade(isBids: bool, taker: Order, maker: Order, qty: int, seqNo: nat): BrowserTrade {
    BrowserTrade(seqNo, maker.orderId, taker.orderId, maker.trader, taker.trader,
                 taker.pair, maker.Price(), qty, isBids)
  }

  /** `gone` are the IDs of the makers that left the side. */
  datatype Eaten = Eaten(trades: seq<BrowserTrade>, book: seq<Order>, left: int, gone: set<string>)

  function Eat(isBids: bool, book: seq<Order>, taker: Order, left: int, seqNo: nat): Eaten {
    if book == [] || left <= 0 || !Crosses(isBids, taker, book[0]) then
      Eaten([], book, left, {})
    else
      var maker := book[0];
      var qty := Min(left, Amount(maker));
      var trade := MakeBrowserTrade(isBids, taker, maker, qty, seqNo);
      if Amount(maker) - qty <= 0 then
        var rest := Eat(isBids, book[1..], taker, left - qty, seqNo + 1);
        rest.(trades := [trade] + rest.trades, gone := {maker.orderId} + rest.gone)
      else
        Eaten([trade], [maker.(amount := Some(Amount(maker) - qty))] + book[1..], left - qty, {})
  }

  /** Trades are numbered from `seqNo` on, and say whether the makers buy. */
  lemma {:induction false} TradesAreLabelled(isBids: bool, book: seq<Order>, taker: Order, left: int, seqNo: nat)
    ensures Labelled(isBids, seqNo, Eat(isBids, book, taker, left, seqNo).trades)
  {
    if book != [] && left > 0 && Crosses(isBids, taker, book[0]) && Amount(book[0]) <= left {
      TradesAreLabelled(isBids, book[1..], taker, left - Amount(book[0]), seqNo + 1);
    }
  }

  predicate Labelled(isBids: bool, seqNo: nat, trades: seq<BrowserTrade>) {
    forall i :: 0 <= i < |trades| ==> trades[i].seqNo == seqNo + i && trades[i].makerBuys == isBids
  }

  // ----- the operations -----

  datatype BrowserState = BrowserState(books: map<string, Book>, index: map<string, string>)

  function BrowserBook(st: BrowserState, pair: string): Book {
    if pair in st.books then st.books[pair] else EMPTY_BOOK
  }

  function Ensure(st: BrowserState, pair: string): BrowserState {
    st.(books := st.books[pair := BrowserBook(st, pair)])
  }

  function Without(s: seq<Order>, id: string): seq<Order> {
    if s == [] then []
    else Without(s[..|s| - 1], id) + if s[|s| - 1].orderId != id then [s[|s| - 1]] else []
  }

  /** An order filed under the empty pair is never found, as `if (!pair)` treats "" as absent. */
  function Cancel(st: BrowserState, id: string): BrowserState {
    if id !in st.index || st.index[id] == "" || st.index[id] !in st.books then st
    else
      var pair := st.index[id];
      var b := st.books[pair];
      BrowserState(st.books[pair := Book(Without(b.bids, id), Without(b.asks, id))], st.index - {id})
  }

  function PushSorted(b: Book, o: Order): Book {
    if o.side == "buy" then b.(bids := InsertAll(true, b.bids + [o])) else b.(asks := InsertAll(false, b.asks + [o]))
  }

  function Submit(st: BrowserState, o: Order): BrowserState {
    var cancelled := Cancel(Ensure(st, o.pair), o.orderId);
    BrowserState(
      cancelled.books[o.pair := PushSorted(BrowserBook(cancelled, o.pair), o)],
      cancelled.index[o.orderId := o.pair])
  }

  function EatOpposite(b: Book, taker: Order): Eaten {
    Eat(taker.side != "buy", Opposite(b, taker), taker, Amount(taker), 0)
  }

  function WithOpposite(b: Book, taker: Order, side: seq<Order>): Book {
    if taker.side == "buy" then b.(asks := side) else b.(bids := side)
  }

  function Take(st: BrowserState, taker: Order): BrowserState {
    var b := BrowserBook(st, taker.pair);
    var r := EatOpposite(b, taker);
    BrowserState(st.books[taker.pair := WithOpposite(b, taker, r.book)], st.index - r.gone)
  }

  // ----- the index is exact -----

  ghost predicate RestsIn(st: BrowserState, pair: string, id: string) {
    pair in st.books && Rests(st.books[pair], id)
  }

  /** The index and the books agree: an ID rests somewhere just where the index says. */
  ghost predicate IndexExact(st: BrowserState) {
    (forall p :: p in st.books ==> IdsDistinct(st.books[p]))
    && forall p, id :: RestsIn(st, p, id) <==> id in st.index && st.index[id] == p
  }

  /** The ID is filed under the empty pair name, which removeOrder takes for "not filed". */
  predicate Stuck(st: BrowserState, id: string) {
    id in st.index && st.index[id] == ""
  }

  /** `r` is the first order with the ID, or nothing when there is none. */
  ghost predicate IsFirst(s: seq<Order>, id: string, r: Option<Order>) {
    match r
    case None => forall i :: 0 <= i < |s| ==> s[i].orderId != id
    case Some(o) =>
      o.orderId == id && exists i :: 0 <= i < |s| && s[i] == o && forall j :: 0 <= j < i ==> s[j].orderId != id
  }

  lemma FirstOfBoth(s: seq<Order>, t: seq<Order>, id: string, first: Option<Order>, second: Option<Order>)
    requires IsFirst(s, id, first) && (first.None? ==> IsFirst(t, id, second))
    ensures IsFirst(s + t, id, if first.Some? then first else second)
  {
    if first.Some? {
      var i :| 0 <= i < |s| && s[i] == first.value && forall j :: 0 <= j < i ==> s[j].orderId != id;
      assert (s + t)[i] == first.value;
    } else if second.Some? {
      var i :| 0 <= i < |t| && t[i] == second.value && forall j :: 0 <= j < i ==> t[j].orderId != id;
      assert (s + t)[|s| + i] == second.value;
    }
  }

  /** The orders of the pair the index names for an ID, bids before asks. */
  function OrdersUnder(st: BrowserState, id: string): seq<Order> {
    if id in st.index && st.index[id] != "" then
      BrowserBook(st, st.index[id]).bids + BrowserBook(st, st.index[id]).asks
    else []
  }

  lemma ExactIndexFinds(st: BrowserState, id: string)
    requires IndexExact(st)
    ensures (exists o :: o in OrdersUnder(st, id) && o.orderId == id) <==> exists p :: p != "" && RestsIn(st, p, id)
  {
    if o :| o in OrdersUnder(st, id) && o.orderId == id {
      assert RestsIn(st, st.index[id], id);
    }
    if p :| p != "" && RestsIn(st, p, id) {
      assert st.index[id] == p;
      var o :| (o in st.books[p].bids || o in st.books[p].asks) && o.orderId == id;
      assert o in OrdersUnder(st, id);
    }
  }

  function CountId(s: seq<Order>, id: string): nat {
    if s == [] then 0 else (if s[0].orderId == id then 1 else 0) + CountId(s[1..], id)
  }

  lemma {:induction false} CountPresent(s: seq<Order>, id: string)
    ensures CountId(s, id) > 0 <==> exists o :: o in s && o.orderId == id
    ensures DistinctIds(s) ==> CountId(s, id) <= 1
  {
    if s != [] {
      CountPresent(s[1..], id);
      if DistinctIds(s) && s[0].orderId == id {
        forall o | o in s[1..]
          ensures o.orderId != id
        {
          var i :| 0 <= i < |s[1..]| && s[1..][i] == o;
          assert s[i + 1] == o;
        }
      }
    }
  }

  /** The index maps an ID to a pair if and only if exactly one order with that ID rests there. */
  lemma IndexIffOneResting(st: BrowserState, pair: string, id: string)
    requires IndexExact(st)
    ensures id in st.index && st.index[id] == pair <==>
            CountId(BrowserBook(st, pair).bids + BrowserBook(st, pair).asks, id) == 1
    ensures CountId(BrowserBook(st, pair).bids + BrowserBook(st, pair).asks, id) <= 1
  {
    var b := BrowserBook(st, pair);
    CountPresent(b.bids + b.asks, id);
    assert RestsIn(st, pair, id) <==> id in st.index && st.index[id] == pair;
    assert Rests(b, id) <==> exists o :: o in b.bids + b.asks && o.orderId == id;
  }

  lemma {:induction false} WithoutMembers(s: seq<Order>, id: string)
    ensures forall o :: o in Without(s, id) <==> o in s && o.orderId != id
    ensures DistinctIds(s) ==> DistinctIds(Without(s, id))
  {
    if s != [] {
      var s', last := s[..|s| - 1], s[|s| - 1];
      WithoutMembers(s', id);
      if DistinctIds(s) {
        forall o | o in Without(s', id)
          ensures o.orderId != last.orderId
        {
          var i :| 0 <= i < |s'| && s'[i] == o;
          assert s[i] == o;
        }
      }
    }
  }

  lemma {:induction false} WithoutSorted(isBids: bool, s: seq<Order>, id: string)
    requires Sorted(isBids, s)
    ensures Sorted(isBids, Without(s, id))
  {
    if s != [] {
      var s' := s[..|s| - 1];
      WithoutSorted(isBids, s', id);
      WithoutMembers(s', id);
      forall o | o in Without(s', id)
        ensures !Before(isBids, s[|s| - 1], o)
      {
        var i :| 0 <= i < |s'| && s'[i] == o;
        assert s[i] == o;
      }
    }
  }

  /** The IDs resting in a book, and nothing else about it, matter to the index. */
  ghost predicate SameIdsBut(b: Book, b': Book, gone: set<string>, added: set<string>) {
    forall id :: Rests(b', id) <==> (Rests(b, id) && id !in gone) || id in added
  }

  lemma CancelledBook(b: Book, id: string)
    requires IdsDistinct(b)
    ensures var b' := Book(Without(b.bids, id), Without(b.asks, id));
            IdsDistinct(b') && SameIdsBut(b, b', {id}, {})
  {
    var b' := Book(Without(b.bids, id), Without(b.asks, id));
    WithoutMembers(b.bids, id);
    WithoutMembers(b.asks, id);
    DistinctConcat(b.bids, b.asks);
    DistinctConcat(b'.bids, b'.asks);
  }

  lemma PushedBook(b: Book, o: Order)
    requires IdsDistinct(b) && !Rests(b, o.orderId)
    ensures IdsDistinct(PushSorted(b, o)) && SameIdsBut(b, PushSorted(b, o), {}, {o.orderId})
  {
    var b' := PushSorted(b, o);
    DistinctConcat(b.bids, b.asks);
    var isBids := o.side == "buy";
    var side := if isBids then b.bids else b.asks;
    DistinctConcat(side, [o]);
    InsertAllDistinct(isBids, side + [o]);
    InsertAllSame(isBids, side + [o]);
    DistinctConcat(b'.bids, b'.asks);
  }

  /** What eating leaves is, by its IDs, a suffix of the side, and `gone` are the other IDs. */
  ghost predicate LeavesSuffix(book: seq<Order>, r: Eaten) {
    |r.book| <= |book|
    && r.gone == Ids(book[..|book| - |r.book|])
    && forall i :: 0 <= i < |r.book| ==> r.book[i].orderId == book[|book| - |r.book| + i].orderId
  }

  lemma {:induction false} EatLeavesSuffix(isBids: bool, book: seq<Order>, taker: Order, left: int, seqNo: nat)
    ensures LeavesSuffix(book, Eat(isBids, book, taker, left, seqNo))
  {
    if book == [] || left <= 0 || !Crosses(isBids, taker, book[0]) {
      LeavesAll(book, left);
    } else {
      var qty := Min(left, Amount(book[0]));
      if Amount(book[0]) - qty <= 0 {
        EatLeavesSuffix(isBids, book[1..], taker, left - qty, seqNo + 1);
        LeavesSuffixOneMore(book, Eat(isBids, book[1..], taker, left - qty, seqNo + 1),
                            MakeBrowserTrade(isBids, taker, book[0], qty, seqNo));
      } else {
        LeavesSuffixPart(book, qty, [MakeBrowserTrade(isBids, taker, book[0], qty, seqNo)], left - qty);
      }
    }
  }

  lemma LeavesAll(book: seq<Order>, left: int)
    ensures LeavesSuffix(book, Eaten([], book, left, {}))
  {
    assert Ids(book[..0]) == {};
  }

  lemma LeavesSuffixPart(book: seq<Order>, qty: int, trades: seq<BrowserTrade>, left: int)
    requires book != []
    ensures LeavesSuffix(
              book, Eaten(trades, [book[0].(amount := Some(Amount(book[0]) - qty))] + book[1..], left, {}))
  {
    assert Ids(book[..0]) == {};
  }

  lemma LeavesSuffixOneMore(book: seq<Order>, rest: Eaten, trade: BrowserTrade)
    requires book != [] && LeavesSuffix(book[1..], rest)
    ensures LeavesSuffix(book, rest.(trades := [trade] + rest.trades, gone := {book[0].orderId} + rest.gone))
  {
    var n := |book| - |rest.book|;
    assert book[..n] == [book[0]] + book[1..][..n - 1];
    assert Ids(book[..n]) == {book[0].orderId} + Ids(book[1..][..n - 1]);
    forall i | 0 <= i < |rest.book|
      ensures rest.book[i].orderId == book[n + i].orderId
    {
      assert book[n + i] == book[1..][n - 1 + i];
    }
  }

  /** Distinct IDs: what is left has none of the IDs that went. */
  lemma SuffixIds(book: seq<Order>, r: Eaten)
    requires DistinctIds(book) && LeavesSuffix(book, r)
    ensures DistinctIds(r.book)
    ensures forall id :: (exists o :: o in r.book && o.orderId == id)
                         <==> (exists o :: o in book && o.orderId == id) && id !in r.gone
  {
    var n := |book| - |r.book|;
    forall i, j | 0 <= i < j < |r.book|
      ensures r.book[i].orderId != r.book[j].orderId
    {
      assert book[n + i].orderId != book[n + j].orderId;
    }
    forall id
      ensures (exists o :: o in r.book && o.orderId == id)
              <==> (exists o :: o in book && o.orderId == id) && id !in r.gone
    {
      SuffixId(book, r, id);
    }
  }

  lemma SuffixStays(book: seq<Order>, r: Eaten, i: nat)
    requires DistinctIds(book) && LeavesSuffix(book, r) && i < |r.book|
    ensures book[|book| - |r.book| + i].orderId == r.book[i].orderId && r.book[i].orderId !in r.gone
  {
    var n := |book| - |r.book|;
    assert book[n + i].orderId == r.book[i].orderId;
    forall g | g in book[..n]
      ensures g.orderId != r.book[i].orderId
    {
      var j :| 0 <= j < n && book[..n][j] == g;
      assert book[j].orderId != book[n + i].orderId;
    }
  }

  lemma SuffixId(book: seq<Order>, r: Eaten, id: string)
    requires DistinctIds(book) && LeavesSuffix(book, r)
    ensures (exists o :: o in r.book && o.orderId == id)
            <==> (exists o :: o in book && o.orderId == id) && id !in r.gone
  {
    var n := |book| - |r.book|;
    if o :| o in r.book && o.orderId == id {
      var i :| 0 <= i < |r.book| && r.book[i] == o;
      SuffixStays(book, r, i);
      assert book[n + i] in book;
    }
    if o :| o in book && o.orderId == id && id !in r.gone {
      var i :| 0 <= i < |book| && book[i] == o;
      forall j | 0 <= j < n
        ensures book[j].orderId in r.gone
      {
        assert book[..n][j] == book[j];
      }
      assert r.book[i - n].orderId == id;
    }
  }

  lemma GoneWereThere(book: seq<Order>, r: Eaten)
    requires LeavesSuffix(book, r)
    ensures forall id :: id in r.gone ==> exists o :: o in book && o.orderId == id
  {
    forall id | id in r.gone
      ensures exists o :: o in book && o.orderId == id
    {
      var o :| o in book[..|book| - |r.book|] && o.orderId == id;
      assert o in book;
    }
  }

  lemma EatenBook(b: Book, taker: Order)
    requires IdsDistinct(b)
    ensures var r := EatOpposite(b, taker);
            var b' := WithOpposite(b, taker, r.book);
            IdsDistinct(b') && SameIdsBut(b, b', r.gone, {}) && forall id :: id in r.gone ==> Rests(b, id)
  {
    var isBids := taker.side != "buy";
    var side, other := Opposite(b, taker), if isBids then b.asks else b.bids;
    var r := EatOpposite(b, taker);
    var b' := WithOpposite(b, taker, r.book);
    EatLeavesSuffix(isBids, side, taker, Amount(taker), 0);
    DistinctConcat(b.bids, b.asks);
    SuffixIds(side, r);
    GoneWereThere(side, r);
    forall x, y | x in r.book && y in other
      ensures x.orderId != y.orderId
    {
      assert exists o :: o in side && o.orderId == x.orderId;
    }
    DistinctConcat(b'.bids, b'.asks);
    assert forall id :: Rests(b', id) <==>
             (exists o :: o in r.book && o.orderId == id) || (exists o :: o in other && o.orderId == id);
    assert forall id :: Rests(b, id) <==>
             (exists o :: o in side && o.orderId == id) || (exists o :: o in other && o.orderId == id);
  }

  /** Updating one book and the index alike keeps them in agreement. */
  lemma IndexFollowsBook(st: BrowserState, pair: string, b': Book, gone: set<string>, index': map<string, string>)
    requires IndexExact(st)
    requires IdsDistinct(b') && SameIdsBut(BrowserBook(st, pair), b', gone, {})
    requires forall id :: id in gone ==> Rests(BrowserBook(st, pair), id)
    requires index' == st.index - gone
    ensures IndexExact(BrowserState(st.books[pair := b'], index'))
  {
    var st' := BrowserState(st.books[pair := b'], index');
    forall p, id
      ensures RestsIn(st', p, id) <==> id in index' && index'[id] == p
    {
      assert RestsIn(st, p, id) <==> id in st.index && st.index[id] == p;
      assert RestsIn(st, pair, id) <==> id in st.index && st.index[id] == pair;
      assert p == pair ==> (RestsIn(st', p, id) <==> Rests(b', id));
    }
  }

  lemma EnsureKeepsExact(st: BrowserState, pair: string)
    requires IndexExact(st)
    ensures IndexExact(Ensure(st, pair))
  {
    assert st.index - {} == st.index;
    assert IdsDistinct(EMPTY_BOOK);
    IndexFollowsBook(st, pair, BrowserBook(st, pair), {}, st.index);
  }

  lemma CancelKeepsExact(st: BrowserState, id: string)
    requires IndexExact(st)
    ensures IndexExact(Cancel(st, id))
    ensures id in Cancel(st, id).index <==> Stuck(st, id)
  {
    if id in st.index && st.index[id] != "" {
      var pair := st.index[id];
      assert RestsIn(st, pair, id);
      var b := st.books[pair];
      CancelledBook(b, id);
      IndexFollowsBook(st, pair, Book(Without(b.bids, id), Without(b.asks, id)), {id}, st.index - {id});
    }
  }

  lemma {:induction false} CountConcat(a: seq<Order>, b: seq<Order>, id: string)
    ensures CountId(a + b, id) == CountId(a, id) + CountId(b, id)
  {
    if a == [] {
      assert a + b == b;
    } else {
      CountConcat(a[1..], b, id);
      assert (a + b)[1..] == a[1..] + b;
    }
  }

  lemma CountSnoc(s: seq<Order>, o: Order, id: string)
    ensures CountId(s + [o], id) == CountId(s, id) + if o.orderId == id then 1 else 0
  {
    CountConcat(s, [o], id);
    assert [o][1..] == [];
  }

  lemma {:induction false} CountInsert(isBids: bool, s: seq<Order>, o: Order, id: string)
    ensures CountId(Insert(isBids, s, o), id) == CountId(s, id) + if o.orderId == id then 1 else 0
  {
    CountSnoc(s, o, id);
    if s != [] && Before(isBids, o, s[|s| - 1]) {
      var s', last := s[..|s| - 1], s[|s| - 1];
      CountInsert(isBids, s', o, id);
      CountSnoc(Insert(isBids, s', o), last, id);
      CountSnoc(s', last, id);
      assert s == s' + [last];
    }
  }

  lemma {:induction false} CountSorted(isBids: bool, s: seq<Order>, id: string)
    ensures CountId(InsertAll(isBids, s), id) == CountId(s, id)
  {
    if s != [] {
      var s', last := s[..|s| - 1], s[|s| - 1];
      CountSorted(isBids, s', id);
      CountInsert(isBids, InsertAll(isBids, s'), last, id);
      CountSnoc(s', last, id);
      assert s == s' + [last];
    }
  }

  function CountInBook(b: Book, id: string): nat {
    CountId(b.bids + b.asks, id)
  }

  /** A pushed order is there once more, whatever rested in the book. */
  lemma PushedCount(b: Book, o: Order, id: string)
    ensures CountInBook(PushSorted(b, o), id) == CountInBook(b, id) + if o.orderId == id then 1 else 0
  {
    var b', isBids := PushSorted(b, o), o.side == "buy";
    var side := if isBids then b.bids else b.asks;
    CountSorted(isBids, side + [o], id);
    CountSnoc(side, o, id);
    CountConcat(b.bids, b.asks, id);
    CountConcat(b'.bids, b'.asks, id);
  }

  lemma RestsIsCounted(b: Book, id: string)
    ensures Rests(b, id) <==> CountInBook(b, id) > 0
    ensures IdsDistinct(b) ==> CountInBook(b, id) <= 1
  {
    CountPresent(b.bids + b.asks, id);
    assert Rests(b, id) <==> exists o :: o in b.bids + b.asks && o.orderId == id;
  }

  lemma FreshSubmitKeepsExact(st: BrowserState, o: Order)
    requires IndexExact(st) && !Stuck(st, o.orderId)
    ensures IndexExact(Submit(st, o))
  {
    EnsureKeepsExact(st, o.pair);
    CancelKeepsExact(Ensure(st, o.pair), o.orderId);
    var c := Cancel(Ensure(st, o.pair), o.orderId);
    var b := BrowserBook(c, o.pair);
    assert IdsDistinct(EMPTY_BOOK);
    assert Rests(b, o.orderId) ==> RestsIn(c, o.pair, o.orderId);
    PushedBook(b, o);
    IndexFollowsPush(c, o.pair, PushSorted(b, o), o.orderId);
  }

  /** Resubmitting an ID filed under "" leaves its old order resting beside the new one. */
  lemma StuckSubmitBreaks(st: BrowserState, o: Order)
    requires IndexExact(st) && Stuck(st, o.orderId)
    ensures !IndexExact(Submit(st, o))
  {
    assert RestsIn(st, "", o.orderId);
    var st' := Submit(st, o);
    if o.pair == "" {
      RestsIsCounted(st.books[""], o.orderId);
      PushedCount(st.books[""], o, o.orderId);
      RestsIsCounted(st'.books[""], o.orderId);
    } else {
      assert RestsIn(st', "", o.orderId) && st'.index[o.orderId] == o.pair;
    }
  }

  /** Adding keeps the index exact if and only if the ID is not filed under the empty pair name. */
  lemma SubmitKeepsExact(st: BrowserState, o: Order)
    requires IndexExact(st)
    ensures IndexExact(Submit(st, o)) <==> !Stuck(st, o.orderId)
  {
    if Stuck(st, o.orderId) {
      StuckSubmitBreaks(st, o);
    } else {
      FreshSubmitKeepsExact(st, o);
    }
  }

  lemma IndexFollowsPush(st: BrowserState, pair: string, b': Book, id: string)
    requires IndexExact(st) && id !in st.index
    requires IdsDistinct(b') && SameIdsBut(BrowserBook(st, pair), b', {}, {id})
    ensures IndexExact(BrowserState(st.books[pair := b'], st.index[id := pair]))
  {
    var st' := BrowserState(st.books[pair := b'], st.index[id := pair]);
    forall p, x
      ensures RestsIn(st', p, x) <==> x in st'.index && st'.index[x] == p
    {
      assert RestsIn(st, p, x) <==> x in st.index && st.index[x] == p;
      if p == pair {
        assert RestsIn(st', p, x) <==> Rests(b', x);
        assert RestsIn(st, pair, x) <==> Rests(BrowserBook(st, pair), x);
      } else {
        assert RestsIn(st', p, x) <==> RestsIn(st, p, x);
      }
    }
  }

  lemma TakeKeepsExact(st: BrowserState, taker: Order)
    requires IndexExact(st)
    ensures IndexExact(Take(st, taker))
  {
    var b := BrowserBook(st, taker.pair);
    assert IdsDistinct(EMPTY_BOOK);
    EatenBook(b, taker);
    var r := EatOpposite(b, taker);
    IndexFollowsBook(st, taker.pair, WithOpposite(b, taker, r.book), r.gone, st.index - r.gone);
  }

  /** The shortest way there: an order without a pair, on either side, submitted twice, rests twice. */
  lemma EmptyPairDuplicates(o: Order)
    requires o.pair == ""
    ensures var once := Submit(BrowserState(map[], map[]), o);
            var twice := Submit(once, o);
            IndexExact(once) && Stuck(once, o.orderId) && !IndexExact(twice)
            && twice.index == map[o.orderId := ""] && CountInBook(BrowserBook(twice, ""), o.orderId) == 2
  {
    var none := BrowserState(map[], map[]);
    var once := Submit(none, o);
    SubmitKeepsExact(none, o);
    SubmitKeepsExact(once, o);
    PushedCount(EMPTY_BOOK, o, o.orderId);
    PushedCount(BrowserBook(once, ""), o, o.orderId);
  }

  // ----- runs -----

  datatype BrowserOp =
    | SubmitOp(order: Order)
    | CancelOp(id: string)
    | TakeOp(taker: Order)
    | EnsureOp(pair: string)
    | ClearOp

  function Perform(st: BrowserState, op: BrowserOp): BrowserState {
    match op
    case SubmitOp(o) => Submit(st, o)
    case CancelOp(id) => Cancel(st, id)
    case TakeOp(taker) => Take(st, taker)
    case EnsureOp(pair) => Ensure(st, pair)
    case ClearOp => BrowserState(map[], map[])
  }

  function PerformAll(ops: seq<BrowserOp>): BrowserState {
    if ops == [] then BrowserState(map[], map[])
    else Perform(PerformAll(ops[..|ops| - 1]), ops[|ops| - 1])
  }

  /** No call of the run submits an ID while it is filed under the empty pair name. */
  ghost predicate NeverStuck(ops: seq<BrowserOp>) {
    forall i :: 0 <= i < |ops| ==> ops[i].SubmitOp? ==> !Stuck(PerformAll(ops[..i]), ops[i].order.orderId)
  }

  lemma PerformKeepsExact(st: BrowserState, op: BrowserOp)
    requires IndexExact(st)
    ensures IndexExact(Perform(st, op)) <==> (op.SubmitOp? ==> !Stuck(st, op.order.orderId))
  {
    match op
    case SubmitOp(o) => SubmitKeepsExact(st, o);
    case CancelOp(id) => CancelKeepsExact(st, id);
    case TakeOp(taker) => TakeKeepsExact(st, taker);
    case EnsureOp(pair) => EnsureKeepsExact(st, pair);
    case ClearOp =>
  }

  lemma PerformAllSnoc(ops: seq<BrowserOp>, i: nat)
    requires i < |ops|
    ensures PerformAll(ops[..i + 1]) == Perform(PerformAll(ops[..i]), ops[i])
  {
    assert ops[..i + 1][..i] == ops[..i];
  }

  lemma {:induction false} ExactWhileNeverStuck(ops: seq<BrowserOp>)
    requires NeverStuck(ops)
    ensures IndexExact(PerformAll(ops))
  {
    if ops != [] {
      var init := ops[..|ops| - 1];
      forall i | 0 <= i < |init| && init[i].SubmitOp?
        ensures !Stuck(PerformAll(init[..i]), init[i].order.orderId)
      {
        assert init[..i] == ops[..i] && init[i] == ops[i];
      }
      ExactWhileNeverStuck(init);
      PerformKeepsExact(PerformAll(init), ops[|ops| - 1]);
    }
  }

  /**
   The index is exact in every state of a run if and only if no call of the run submits an ID that
   is filed under the empty pair name at that time.
   */
  lemma EveryIndexIsExact(ops: seq<BrowserOp>)
    ensures (forall i :: 0 <= i <= |ops| ==> IndexExact(PerformAll(ops[..i]))) <==> NeverStuck(ops)
  {
    if NeverStuck(ops) {
      forall i | 0 <= i <= |ops|
        ensures IndexExact(PerformAll(ops[..i]))
      {
        assert forall j :: 0 <= j < i ==> ops[..i][..j] == ops[..j];
        ExactWhileNeverStuck(ops[..i]);
      }
    }
    if forall i :: 0 <= i <= |ops| ==> IndexExact(PerformAll(ops[..i])) {
      forall i | 0 <= i < |ops| && ops[i].SubmitOp?
        ensures !Stuck(PerformAll(ops[..i]), ops[i].order.orderId)
      {
        PerformAllSnoc(ops, i);
        assert IndexExact(PerformAll(ops[..i + 1]));
        PerformKeepsExact(PerformAll(ops[..i]), ops[i]);
      }
    }
  }

  /** Orders that all name a pair are never stuck, so such runs stay exact throughout. */
  lemma {:induction false} NamedPairsNeverStick(ops: seq<BrowserOp>)
    requires forall op :: op in ops && op.SubmitOp? ==> op.order.pair != ""
    ensures NeverStuck(ops)
    ensures forall id :: !Stuck(PerformAll(ops), id)
  {
    if ops != [] {
      var init := ops[..|ops| - 1];
      NamedPairsNeverStick(init);
      forall i | 0 <= i < |ops| && ops[i].SubmitOp?
        ensures !Stuck(PerformAll(ops[..i]), ops[i].order.orderId)
      {
        if i < |init| {
          assert init[..i] == ops[..i] && init[i] == ops[i];
        }
      }
      NamedPairKeepsUnstuck(PerformAll(init), ops[|ops| - 1]);
    }
  }

  lemma NamedPairKeepsUnstuck(st: BrowserState, op: BrowserOp)
    requires forall id :: !Stuck(st, id)
    requires op.SubmitOp? ==> op.order.pair != ""
    ensures forall id :: !Stuck(Perform(st, op), id)
  {
    forall id
      ensures !Stuck(Perform(st, op), id)
    {
      assert !Stuck(st, id);
    }
  }

  // ----- the class -----

  class MatchEngine {
    var orderbooks: map<string, Book>
    var orderIdMap: map<string, string>

    ghost function Abs(): BrowserState
      reads this
    {
      BrowserState(orderbooks, orderIdMap)
    }

    constructor ()
      ensures Abs() == BrowserState(map[], map[])
    {
      orderbooks, orderIdMap := map[], map[];
    }

    method GetOrCreateOrderBook(pair: string) returns (b: Book)
      modifies this`orderbooks
      ensures Abs() == Ensure(old(Abs()), pair) && b == BrowserBook(old(Abs()), pair)
    {
      if pair !in orderbooks {
        orderbooks := orderbooks[pair := EMPTY_BOOK];
      }
      b := orderbooks[pair];
    }

    method RemoveOrder(orderId: string)
      modifies this
      ensures Abs() == Cancel(old(Abs()), orderId)
    {
      if orderId !in orderIdMap || orderIdMap[orderId] == "" {
        return;
      }
      var pair := orderIdMap[orderId];
      if pair !in orderbooks {
        return;
      }
      var b := orderbooks[pair];
      orderbooks := orderbooks[pair := Book(Without(b.bids, orderId), Without(b.asks, orderId))];
      orderIdMap := orderIdMap - {orderId};
    }

    method AddOrder(o: Order)
      modifies this
      ensures Abs() == Submit(old(Abs()), o)
    {
      var _ := GetOrCreateOrderBook(o.pair);
      RemoveOrder(o.orderId);
      var b := orderbooks[o.pair];
      if o.side == "buy" {
        var bids := SortSide(b.bids + [o], true);
        orderbooks := orderbooks[o.pair := b.(bids := bids)];
      } else {
        var asks := SortSide(b.asks + [o], false);
        orderbooks := orderbooks[o.pair := b.(asks := asks)];
      }
      orderIdMap := orderIdMap[o.orderId := o.pair];
    }

    /** Eats a side from its best price; makers that are used up leave the index at once. */
    method MatchSide(taker: Order, side: seq<Order>, isBids: bool)
      returns (trades: seq<BrowserTrade>, bookSide: seq<Order>, remaining: int)
      modifies this`orderIdMap
      ensures var r := Eat(isBids, side, taker, Amount(taker), 0);
              trades == r.trades && bookSide == r.book && remaining == r.left
              && orderIdMap == old(orderIdMap) - r.gone
    {
      trades, bookSide, remaining := [], side, Amount(taker);
      ghost var gone := {};
      while |bookSide| > 0 && remaining > 0
        invariant var r := Eat(isBids, bookSide, taker, remaining, |trades|);
                  Eat(isBids, side, taker, Amount(taker), 0)
                  == r.(trades := trades + r.trades, gone := gone + r.gone)
        invariant orderIdMap == old(orderIdMap) - gone
        decreases |bookSide|, remaining
      {
        var maker := bookSide[0];
        var makerPrice, takerPrice := maker.Price(), taker.Price();
        if if isBids then takerPrice > makerPrice else takerPrice < makerPrice {
          break;
        }
        EatStep(trades, gone, isBids, bookSide, taker, remaining);
        var makerAmount := Amount(maker);
        var matchAmount := Min(remaining, makerAmount);
        trades := trades + [MakeBrowserTrade(isBids, taker, maker, matchAmount, |trades|)];
        remaining := remaining - matchAmount;
        if makerAmount - matchAmount <= 0 {
          bookSide := bookSide[1..];
          orderIdMap := orderIdMap - {maker.orderId};
          gone := gone + {maker.orderId};
        } else {
          bookSide := bookSide[0 := maker.(amount := Some(makerAmount - matchAmount))];
        }
      }
      assert gone + {} == gone && trades + [] == trades;
    }

    method Match(taker: Order) returns (trades: seq<BrowserTrade>)
      modifies this
      ensures Abs() == Take(old(Abs()), taker)
      ensures trades == EatOpposite(BrowserBook(old(Abs()), taker.pair), taker).trades
    {
      var b := GetOrCreateOrderBook(taker.pair);
      var side, unfilled;
      if taker.side == "buy" {
        trades, side, unfilled := MatchSide(taker, b.asks, false);
        orderbooks := orderbooks[taker.pair := b.(asks := side)];
      } else {
        trades, side, unfilled := MatchSide(taker, b.bids, true);
        orderbooks := orderbooks[taker.pair := b.(bids := side)];
      }
    }

    static method Find(s: seq<Order>, orderId: string) returns (r: Option<Order>)
      ensures IsFirst(s, orderId, r)
    {
      for i := 0 to |s|
        invariant forall j :: 0 <= j < i ==> s[j].orderId != orderId
      {
        if s[i].orderId == orderId {
          return Some(s[i]);
        }
      }
      return None;
    }

    /**
     The first order with the ID, bids before asks, in the book the index names.  With an exact index
     one is found if and only if the ID rests in the book of a named pair.
     */
    method GetOrder(orderId: string) returns (r: Option<Order>)
      ensures IsFirst(OrdersUnder(Abs(), orderId), orderId, r)
      ensures IndexExact(Abs()) ==> (r.Some? <==> exists p :: p != "" && RestsIn(Abs(), p, orderId))
    {
      if IndexExact(Abs()) {
        ExactIndexFinds(Abs(), orderId);
      }
      if orderId !in orderIdMap || orderIdMap[orderId] == "" {
        return None;
      }
      var pair := orderIdMap[orderId];
      if pair !in orderbooks {
        return None;
      }
      var bid := Find(orderbooks[pair].bids, orderId);
      if bid.Some? {
        FirstOfBoth(orderbooks[pair].bids, orderbooks[pair].asks, orderId, bid, None);
        return bid;
      }
      r := Find(orderbooks[pair].asks, orderId);
      FirstOfBoth(orderbooks[pair].bids, orderbooks[pair].asks, orderId, None, r);
    }

    method Clear()
      modifies this
      ensures Abs() == BrowserState(map[], map[])
    {
      orderbooks, orderIdMap := map[], map[];
    }
  }

  /** The loop's next round, when it uses up the maker. */
  lemma EatWhole(isBids: bool, book: seq<Order>, taker: Order, left: int, seqNo: nat)
    requires book != [] && left > 0 && Crosses(isBids, taker, book[0]) && Amount(book[0]) <= left
    ensures var r' := Eat(isBids, book[1..], taker, left - Amount(book[0]), seqNo + 1);
            var trade := MakeBrowserTrade(isBids, taker, book[0], Amount(book[0]), seqNo);
            Eat(isBids, book, taker, left, seqNo)
            == Eaten([trade] + r'.trades, r'.book, r'.left, {book[0].orderId} + r'.gone)
  {
  }

  /** And when it leaves something of it, after which there is no other. */
  lemma EatPart(isBids: bool, book: seq<Order>, taker: Order, left: int, seqNo: nat)
    requires book != [] && left > 0 && Crosses(isBids, taker, book[0]) && Amount(book[0]) > left
    ensures var book' := book[0 := book[0].(amount := Some(Amount(book[0]) - left))];
            Eat(isBids, book', taker, 0, seqNo + 1) == Eaten([], book', 0, {})
            && Eat(isBids, book, taker, left, seqNo)
               == Eaten([MakeBrowserTrade(isBids, taker, book[0], left, seqNo)], book', 0, {})
  {
    assert book[0 := book[0].(amount := Some(Amount(book[0]) - left))]
        == [book[0].(amount := Some(Amount(book[0]) - left))] + book[1..];
  }

  lemma EatStep(
    trades: seq<BrowserTrade>, gone: set<string>, isBids: bool, book: seq<Order>, taker: Order, left: int)
    requires book != [] && left > 0 && Crosses(isBids, taker, book[0])
    ensures var maker := book[0];
            var qty := Min(left, Amount(maker));
            var whole := Amount(maker) - qty <= 0;
            var r := Eat(isBids, book, taker, left, |trades|);
            var book' := if whole then book[1..] else book[0 := maker.(amount := Some(Amount(maker) - qty))];
            var r' := Eat(isBids, book', taker, left - qty, |trades| + 1);
            trades + r.trades == trades + [MakeBrowserTrade(isBids, taker, maker, qty, |trades|)] + r'.trades
            && gone + r.gone == gone + (if whole then {maker.orderId} else {}) + r'.gone
            && r.book == r'.book && r.left == r'.left
  {
    if Amount(book[0]) <= left {
      EatWhole(isBids, book, taker, left, |trades|);
    } else {
      EatPart(isBids, book, taker, left, |trades|);
    }
  }
}
