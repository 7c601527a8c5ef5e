/**
 The order books of an engine as values, and each engine operation as a function on them.
 The Engine class is proved against these functions; the laws are proved here.
 */
module Books {
  import opened Options
  import opened Orders
  import opened Matching

  datatype Book = Book(bids: seq<Order>, asks: seq<Order>)

  const EMPTY_BOOK := Book([], [])

  /** `index` is the engine's orderIDToPair. */
  datatype State = State(pairs: map<string, Book>, index: map<string, string>)

  function BookOf(st: State, pair: string): Book {
    if pair in st.pairs then st.pairs[pair] else EMPTY_BOOK
  }

  ghost predicate IdsDistinct(b: Book) {
    DistinctIds(b.bids + b.asks)
  }

  /** Both sides are in priority order and every resting order still has something to trade. */
  ghost predicate BookInv(b: Book) {
    Sorted(true, b.bids) && Sorted(false, b.asks) && Positive(b.bids) && Positive(b.asks)
  }

  ghost predicate StateInv(st: State) {
    forall p :: p in st.pairs ==> BookInv(st.pairs[p])
  }

  ghost predicate StateIdsDistinct(st: State) {
    forall p :: p in st.pairs ==> IdsDistinct(st.pairs[p])
  }

  // ----- cancelling -----

  /** Drops the first order with this ID. */
  function RemoveFirst(s: seq<Order>, id: string): (r: seq<Order>)
    ensures |r| == |s| || |r| == |s| - 1
  {
    if s == [] then []
    else if s[0].orderId == id then s[1..]
    else [s[0]] + RemoveFirst(s[1..], id)
  }

  function RemoveFromBook(b: Book, id: string): Book {
    Book(RemoveFirst(b.bids, id), RemoveFirst(b.asks, id))
  }

  ghost predicate Rests(b: Book, id: string) {
    exists o :: (o in b.bids || o in b.asks) && o.orderId == id
  }

  lemma {:induction false} RemoveAbsent(s: seq<Order>, id: string)
    requires forall i :: 0 <= i < |s| ==> s[i].orderId != id
    ensures RemoveFirst(s, id) == s
  {
    if s != [] {
      RemoveAbsent(s[1..], id);
      assert s == [s[0]] + s[1..];
    }
  }

  lemma {:induction false} RemoveBetween(front: seq<Order>, o: Order, back: seq<Order>)
    requires forall i :: 0 <= i < |front| ==> front[i].orderId != o.orderId
    ensures RemoveFirst(front + [o] + back, o.orderId) == front + back
  {
    var s := front + [o] + back;
    if front == [] {
      assert s[1..] == back;
    } else {
      RemoveBetween(front[1..], o, back);
      assert s[1..] == front[1..] + [o] + back;
      assert front + back == [front[0]] + (front[1..] + back);
    }
  }

  /** An attempt to remove an ID that does not rest in a book leaves the book as it was. */
  lemma NothingToRemove(b: Book, id: string)
    requires !Rests(b, id)
    ensures RemoveFromBook(b, id) == b
  {
    RemoveAbsent(b.bids, id);
    RemoveAbsent(b.asks, id);
  }

  /** Removal cuts out the first position with the ID and keeps everything else in place. */
  lemma RemoveFirstCuts(s: seq<Order>, id: string, k: nat)
    requires k <= |s| && forall j :: 0 <= j < k ==> s[j].orderId != id
    requires k < |s| ==> s[k].orderId == id
    ensures RemoveFirst(s, id) == if k < |s| then s[..k] + s[k + 1..] else s
  {
    if k < |s| {
      assert s == s[..k] + [s[k]] + s[k + 1..];
      RemoveBetween(s[..k], s[k], s[k + 1..]);
    } else {
      RemoveAbsent(s, id);
    }
  }

  lemma {:induction false} RemoveFirstMembers(s: seq<Order>, id: string)
    ensures forall o :: o in RemoveFirst(s, id) ==> o in s
    ensures forall o :: o in s && o.orderId != id ==> o in RemoveFirst(s, id)
  {
    if s != [] && s[0].orderId != id {
      RemoveFirstMembers(s[1..], id);
    }
  }

  lemma {:induction false} RemoveFirstKeeps(isBids: bool, s: seq<Order>, id: string)
    ensures Sorted(isBids, s) ==> Sorted(isBids, RemoveFirst(s, id))
    ensures Positive(s) ==> Positive(RemoveFirst(s, id))
  {
    if s != [] && s[0].orderId != id {
      var t := s[1..];
      RemoveFirstKeeps(isBids, t, id);
      RemoveFirstMembers(t, id);
      if Sorted(isBids, s) {
        forall o | o in RemoveFirst(t, id)
          ensures !Before(isBids, o, s[0])
        {
          var i :| 0 <= i < |t| && t[i] == o;
          assert o == s[i + 1];
        }
      }
    }
  }

  lemma {:induction false} RemoveFirstDistinct(s: seq<Order>, id: string)
    requires DistinctIds(s)
    ensures DistinctIds(RemoveFirst(s, id))
    ensures forall o :: o in RemoveFirst(s, id) ==> o.orderId != id
  {
    if s != [] {
      var t := s[1..];
      RemoveFirstDistinct(t, id);
      RemoveFirstMembers(t, id);
      forall o | o in t
        ensures o.orderId != s[0].orderId
      {
        var i :| 0 <= i < |t| && t[i] == o;
        assert o == s[i + 1];
      }
    }
  }

  lemma RemoveKeepsBook(b: Book, id: string)
    requires BookInv(b)
    ensures BookInv(RemoveFromBook(b, id))
    ensures IdsDistinct(b) ==> IdsDistinct(RemoveFromBook(b, id)) && !Rests(RemoveFromBook(b, id), id)
  {
    RemoveFirstKeeps(true, b.bids, id);
    RemoveFirstKeeps(false, b.asks, id);
    RemoveFirstMembers(b.bids, id);
    RemoveFirstMembers(b.asks, id);
    if IdsDistinct(b) {
      DistinctConcat(b.bids, b.asks);
      RemoveFirstDistinct(b.bids, id);
      RemoveFirstDistinct(b.asks, id);
      DistinctConcat(RemoveFirst(b.bids, id), RemoveFirst(b.asks, id));
    }
  }

  lemma DistinctConcat(a: seq<Order>, b: seq<Order>)
    ensures DistinctIds(a + b) <==>
            DistinctIds(a) && DistinctIds(b) && forall x, y :: x in a && y in b ==> x.orderId != y.orderId
  {
    if DistinctIds(a + b) {
      forall i, j | 0 <= i < j < |a|
        ensures a[i].orderId != a[j].orderId
      {
        assert (a + b)[i].orderId != (a + b)[j].orderId;
      }
      forall i, j | 0 <= i < j < |b|
        ensures b[i].orderId != b[j].orderId
      {
        assert (a + b)[|a| + i].orderId != (a + b)[|a| + j].orderId;
      }
      forall x, y | x in a && y in b
        ensures x.orderId != y.orderId
      {
        var i :| 0 <= i < |a| && a[i] == x;
        var j :| 0 <= j < |b| && b[j] == y;
        assert (a + b)[i].orderId != (a + b)[|a| + j].orderId;
      }
    }
  }

  // ----- adding -----

  /** At the cap the last order of the side, the lowest in priority, makes room. */
  function AddToSide(isBids: bool, s: seq<Order>, o: Order, cap: nat): seq<Order> {
    Insert(isBids, if |s| >= cap && |s| > 0 then s[..|s| - 1] else s, o)
  }

  function AddToBook(b: Book, o: Order, cap: nat): Book {
    if o.side == "buy" then b.(bids := AddToSide(true, b.bids, o, cap))
    else b.(asks := AddToSide(false, b.asks, o, cap))
  }

  /** AddOrder.  A same-ID order is gone, and the pair exists, even when nothing is left to rest. */
  function Add(st: State, o: Order, now: int, cap: nat): (State, bool) {
    if !o.Complete() || o.Expired(now) then (st, false)
    else
      var b := RemoveFromBook(BookOf(st, o.pair), o.orderId);
      if o.Left() <= 0 then
        (st.(pairs := st.pairs[o.pair := b]), false)
      else
        (State(st.pairs[o.pair := AddToBook(b, o.Resting(), cap)], st.index[o.orderId := o.pair]), true)
  }

  lemma InsertSame(isBids: bool, s: seq<Order>, o: Order)
    ensures forall x :: x in Insert(isBids, s, o) <==> x in s || x == o
  {
    InsertElements(isBids, s, o);
    forall x
      ensures x in Insert(isBids, s, o) <==> x in s || x == o
    {
      assert x in multiset(Insert(isBids, s, o)) <==> x in Insert(isBids, s, o);
      assert x in multiset(s) + multiset{o} <==> x in s || x == o;
    }
  }

  lemma {:induction false} InsertDistinctIff(isBids: bool, s: seq<Order>, o: Order)
    ensures DistinctIds(Insert(isBids, s, o)) <==> DistinctIds(s + [o])
  {
    if s != [] && Before(isBids, o, s[|s| - 1]) {
      var s', last := s[..|s| - 1], s[|s| - 1];
      InsertDistinctIff(isBids, s', o);
      InsertSame(isBids, s', o);
      DistinctConcat(Insert(isBids, s', o), [last]);
      DistinctConcat(s', [o]);
      DistinctConcat(s', [last]);
      DistinctConcat(s' + [last], [o]);
      assert s == s' + [last];
    }
  }

  lemma InsertPositive(isBids: bool, s: seq<Order>, o: Order)
    requires Positive(s) && o.Left() > 0
    ensures Positive(Insert(isBids, s, o))
  {
    InsertSame(isBids, s, o);
    var r := Insert(isBids, s, o);
    forall i | 0 <= i < |r|
      ensures r[i].Left() > 0
    {
      assert r[i] in r;
    }
  }

  lemma AddToSideKeeps(isBids: bool, s: seq<Order>, o: Order, cap: nat)
    requires Sorted(isBids, s) && Positive(s) && o.Left() > 0
    ensures var r := AddToSide(isBids, s, o, cap);
            Sorted(isBids, r) && Positive(r) && (forall x :: x in r ==> x == o || x in s)
            && (DistinctIds(s) && (forall x :: x in s ==> x.orderId != o.orderId) ==> DistinctIds(r))
            && o in r
  {
    var s' := if |s| >= cap && |s| > 0 then s[..|s| - 1] else s;
    InsertSorted(isBids, s', o);
    InsertSame(isBids, s', o);
    InsertPositive(isBids, s', o);
    InsertDistinctIff(isBids, s', o);
    DistinctConcat(s', [o]);
  }

  lemma BookUpdateKeeps(st: State, pair: string, b: Book, index: map<string, string>)
    requires StateInv(st) && BookInv(b)
    ensures StateInv(State(st.pairs[pair := b], index))
    ensures StateIdsDistinct(st) ==> (StateIdsDistinct(State(st.pairs[pair := b], index)) <==> IdsDistinct(b))
  {
    var pairs := st.pairs[pair := b];
    assert pair in pairs && pairs[pair] == b;
  }

  lemma BookOfKeeps(st: State, pair: string)
    requires StateInv(st)
    ensures BookInv(BookOf(st, pair))
    ensures StateIdsDistinct(st) ==> IdsDistinct(BookOf(st, pair))
  {
  }

  lemma AddKeepsInvariant(st: State, o: Order, now: int, cap: nat)
    requires StateInv(st)
    ensures StateInv(Add(st, o, now, cap).0)
    ensures StateIdsDistinct(st) ==> StateIdsDistinct(Add(st, o, now, cap).0)
    ensures Add(st, o, now, cap).1 ==> Rests(BookOf(Add(st, o, now, cap).0, o.pair), o.orderId)
  {
    if o.Complete() && !o.Expired(now) {
      var b := RemoveFromBook(BookOf(st, o.pair), o.orderId);
      BookOfKeeps(st, o.pair);
      RemoveKeepsBook(BookOf(st, o.pair), o.orderId);
      BookUpdateKeeps(st, o.pair, b, st.index);
      if o.Left() > 0 {
        var b' := AddToBook(b, o.Resting(), cap);
        AddToBookKeeps(b, o.Resting(), cap);
        BookUpdateKeeps(st, o.pair, b', st.index[o.orderId := o.pair]);
      }
    }
  }

  lemma AddToBookKeeps(b: Book, o: Order, cap: nat)
    requires BookInv(b) && o.Left() > 0
    ensures BookInv(AddToBook(b, o, cap)) && Rests(AddToBook(b, o, cap), o.orderId)
    ensures IdsDistinct(b) && !Rests(b, o.orderId) ==> IdsDistinct(AddToBook(b, o, cap))
  {
    DistinctConcat(b.bids, b.asks);
    var r := AddToBook(b, o, cap);
    DistinctConcat(r.bids, r.asks);
    if o.side == "buy" {
      AddToSideKeeps(true, b.bids, o, cap);
    } else {
      AddToSideKeeps(false, b.asks, o, cap);
    }
  }

  // ----- replacing a whole book -----

  /** What ReplaceOrderbook keeps of a received side, normalised. */
  function Kept(s: seq<Order>, now: int): seq<Order> {
    if s == [] then []
    else
      var last := s[|s| - 1];
      Kept(s[..|s| - 1], now)
      + if last.orderId == "" || last.Expired(now) || last.Left() <= 0 then [] else [last.Resting()]
  }

  function Ids(s: seq<Order>): set<string> {
    set o | o in s :: o.orderId
  }

  /** The index with these IDs filed under `pair`. */
  function Indexed(index: map<string, string>, ids: set<string>, pair: string): map<string, string> {
    index + (map id | id in ids :: pair)
  }

  lemma IndexedTwice(index: map<string, string>, a: set<string>, b: set<string>, pair: string)
    ensures Indexed(Indexed(index, a, pair), b, pair) == Indexed(index, a + b, pair)
  {
  }

  function Replace(st: State, pair: string, bids: seq<Order>, asks: seq<Order>, now: int): State {
    if pair == "" then st
    else
      var previous := BookOf(st, pair);
      var kb, ka := Kept(bids, now), Kept(asks, now);
      State(
        st.pairs[pair := Book(InsertAll(true, kb), InsertAll(false, ka))],
        Indexed(st.index - Ids(previous.bids) - Ids(previous.asks), Ids(kb) + Ids(ka), pair))
  }

  lemma KeptOneMore(s: seq<Order>, o: Order, now: int)
    ensures var skip := o.orderId == "" || o.Expired(now) || o.Left() <= 0;
            Kept(s + [o], now) == Kept(s, now) + if skip then [] else [o.Resting()]
  {
    assert (s + [o])[..|s|] == s;
  }

  lemma {:induction false} KeptPositive(s: seq<Order>, now: int)
    ensures Positive(Kept(s, now))
    ensures forall o :: o in Kept(s, now) ==> exists x :: x in s && x.orderId == o.orderId
  {
    if s != [] {
      KeptPositive(s[..|s| - 1], now);
    }
  }

  /** Sorting keeps IDs distinct, and makes none so. */
  lemma {:induction false} InsertAllDistinct(isBids: bool, s: seq<Order>)
    ensures DistinctIds(InsertAll(isBids, s)) <==> DistinctIds(s)
  {
    if s != [] {
      var s', last := s[..|s| - 1], s[|s| - 1];
      InsertAllDistinct(isBids, s');
      InsertAllSame(isBids, s');
      InsertDistinctIff(isBids, InsertAll(isBids, s'), last);
      DistinctConcat(InsertAll(isBids, s'), [last]);
      DistinctConcat(s', [last]);
      assert s == s' + [last];
    }
  }

  lemma InsertAllSame(isBids: bool, s: seq<Order>)
    ensures forall o :: o in InsertAll(isBids, s) <==> o in s
  {
    InsertAllElements(isBids, s);
    forall o
      ensures o in InsertAll(isBids, s) <==> o in s
    {
      assert o in multiset(s) <==> o in s;
      assert o in multiset(InsertAll(isBids, s)) <==> o in InsertAll(isBids, s);
    }
  }

  /** The orders a snapshot leaves to rest name each ID once. */
  predicate KeptIdsDistinct(bids: seq<Order>, asks: seq<Order>, now: int) {
    DistinctIds(Kept(bids, now) + Kept(asks, now))
  }

  lemma ReplacedIdsDistinct(bids: seq<Order>, asks: seq<Order>, now: int)
    ensures IdsDistinct(Book(InsertAll(true, Kept(bids, now)), InsertAll(false, Kept(asks, now))))
            <==> KeptIdsDistinct(bids, asks, now)
  {
    var kb, ka := Kept(bids, now), Kept(asks, now);
    InsertAllSame(true, kb);
    InsertAllSame(false, ka);
    InsertAllDistinct(true, kb);
    InsertAllDistinct(false, ka);
    DistinctConcat(kb, ka);
    DistinctConcat(InsertAll(true, kb), InsertAll(false, ka));
  }

  lemma ReplacedBookValid(bids: seq<Order>, asks: seq<Order>, now: int)
    ensures BookInv(Book(InsertAll(true, Kept(bids, now)), InsertAll(false, Kept(asks, now))))
  {
    KeptPositive(bids, now);
    KeptPositive(asks, now);
    SortPositive(true, Kept(bids, now));
    SortPositive(false, Kept(asks, now));
  }

  lemma SortPositive(isBids: bool, s: seq<Order>)
    requires Positive(s)
    ensures Sorted(isBids, InsertAll(isBids, s)) && Positive(InsertAll(isBids, s))
  {
    InsertAllIsStableSort(isBids, s);
    InsertAllSame(isBids, s);
    var r := InsertAll(isBids, s);
    forall i | 0 <= i < |r|
      ensures r[i].Left() > 0
    {
      assert r[i] in r;
    }
  }

  lemma ReplaceKeepsInvariant(st: State, pair: string, bids: seq<Order>, asks: seq<Order>, now: int)
    requires StateInv(st)
    ensures StateInv(Replace(st, pair, bids, asks, now))
    ensures StateIdsDistinct(st) ==>
              (StateIdsDistinct(Replace(st, pair, bids, asks, now)) <==> pair == "" || KeptIdsDistinct(bids, asks, now))
  {
    if pair != "" {
      var b := Book(InsertAll(true, Kept(bids, now)), InsertAll(false, Kept(asks, now)));
      ReplacedBookValid(bids, asks, now);
      ReplacedIdsDistinct(bids, asks, now);
      BookUpdateKeeps(st, pair, b, Replace(st, pair, bids, asks, now).index);
    }
  }

  // ----- matching -----

  /** trimFilled: orders marked filled leave the side. */
  function Trim(s: seq<Order>): seq<Order> {
    if s == [] then []
    else Trim(s[..|s| - 1]) + if s[|s| - 1].status != Filled then [s[|s| - 1]] else []
  }

  /** The pair's default tokens are empty, as a missing Go map entry is. */
  function TokensOf(tokens: map<string, PairTokens>, pair: string): PairTokens {
    if pair in tokens then tokens[pair] else PairTokens("", "")
  }

  /** The side of the book a taker trades against. */
  function Opposite(b: Book, taker: Order): seq<Order> {
    if taker.side == "buy" then b.asks else b.bids
  }

  function MatchOpposite(b: Book, tokens: map<string, PairTokens>, taker: Order): Outcome {
    MatchSide(taker.side != "buy", Opposite(b, taker), taker, taker.Left(), TokensOf(tokens, taker.pair), 0)
  }

  /** The book after matching and trimming, the trades, and the updated taker. */
  function MatchBook(b: Book, tokens: map<string, PairTokens>, taker: Order): (Book, seq<Trade>, Order) {
    var r := MatchOpposite(b, tokens, taker);
    (if taker.side == "buy" then Book(Trim(b.bids), Trim(r.book)) else Book(Trim(r.book), Trim(b.asks)),
     r.trades,
     taker.(filled := taker.filled + (taker.Left() - r.left), status := if r.left <= 0 then Filled else Partial))
  }

  datatype Matched = Matched(st: State, trades: seq<Trade>, taker: Order)

  /** Match.  The pair exists afterwards unless the taker is incomplete. */
  function Match(st: State, tokens: map<string, PairTokens>, taker: Order): Matched {
    if !taker.Complete() then Matched(st, [], taker)
    else
      var b := BookOf(st, taker.pair);
      if taker.Left() <= 0 then Matched(st.(pairs := st.pairs[taker.pair := b]), [], taker)
      else
        var (b', trades, taker') := MatchBook(b, tokens, taker);
        Matched(st.(pairs := st.pairs[taker.pair := b']), trades, taker')
  }

  /** Orders resting with the status "filled" although something is left of them. */
  function MarkedFilled(s: seq<Order>): int {
    if s == [] then 0
    else MarkedFilled(s[..|s| - 1]) + if s[|s| - 1].status == Filled then s[|s| - 1].Left() else 0
  }

  lemma {:induction false} TrimMembers(s: seq<Order>)
    ensures forall o :: o in Trim(s) <==> o in s && o.status != Filled
  {
    if s != [] {
      TrimMembers(s[..|s| - 1]);
    }
  }

  lemma {:induction false} TrimSorted(isBids: bool, s: seq<Order>)
    requires Sorted(isBids, s) && Positive(s)
    ensures Sorted(isBids, Trim(s)) && Positive(Trim(s))
  {
    if s != [] {
      TrimSorted(isBids, s[..|s| - 1]);
      TrimMembers(s[..|s| - 1]);
    }
  }

  lemma {:induction false} TrimDistinct(s: seq<Order>)
    requires DistinctIds(s)
    ensures DistinctIds(Trim(s))
  {
    if s != [] {
      TrimDistinct(s[..|s| - 1]);
      TrimMembers(s[..|s| - 1]);
    }
  }

  lemma {:induction false} TrimTotal(s: seq<Order>)
    ensures TotalLeft(Trim(s)) == TotalLeft(s) - MarkedFilled(s)
    ensures Positive(s) ==> MarkedFilled(s) >= 0 && (MarkedFilled(s) == 0 <==> Trim(s) == s)
  {
    if s != [] {
      var s', last := s[..|s| - 1], s[|s| - 1];
      TrimTotal(s');
      assert s == s' + [last];
      TotalLeftSplit(s', [last]);
      TotalLeftSplit(Trim(s'), if last.status != Filled then [last] else []);
      assert TotalLeft([last]) == last.Left();
      TrimLength(s');
    }
  }

  lemma {:induction false} TrimLength(s: seq<Order>)
    ensures |Trim(s)| <= |s|
  {
    if s != [] {
      TrimLength(s[..|s| - 1]);
    }
  }

  /** One side after being matched and trimmed. */
  lemma MatchedSideKeeps(
    isBids: bool, side: seq<Order>, taker: Order, left: int, tokens: PairTokens)
    requires Sorted(isBids, side) && Positive(side)
    ensures var after := Trim(MatchSide(isBids, side, taker, left, tokens, 0).book);
            Sorted(isBids, after) && Positive(after)
            && (DistinctIds(side) ==> DistinctIds(after))
            && forall o :: o in after ==> exists m :: m in side && m.orderId == o.orderId
  {
    var r := MatchSide(isBids, side, taker, left, tokens, 0).book;
    MatchKeepsSide(isBids, side, taker, left, tokens, 0);
    TrimSorted(isBids, r);
    TrimMembers(r);
    if DistinctIds(side) {
      TrimDistinct(r);
    }
  }

  lemma TrimmedSideKeeps(isBids: bool, side: seq<Order>)
    requires Sorted(isBids, side) && Positive(side)
    ensures Sorted(isBids, Trim(side)) && Positive(Trim(side))
    ensures DistinctIds(side) ==> DistinctIds(Trim(side))
    ensures forall o :: o in Trim(side) ==> o in side
  {
    TrimSorted(isBids, side);
    TrimMembers(side);
    if DistinctIds(side) {
      TrimDistinct(side);
    }
  }

  lemma MatchKeepsBook(b: Book, tokens: map<string, PairTokens>, taker: Order)
    requires BookInv(b) && taker.Complete() && taker.Left() > 0
    ensures var b' := MatchBook(b, tokens, taker).0;
            BookInv(b') && (IdsDistinct(b) ==> IdsDistinct(b'))
  {
    var isBids := taker.side != "buy";
    MatchedSideKeeps(isBids, Opposite(b, taker), taker, taker.Left(), TokensOf(tokens, taker.pair));
    TrimmedSideKeeps(true, b.bids);
    TrimmedSideKeeps(false, b.asks);
    var b' := MatchBook(b, tokens, taker).0;
    if IdsDistinct(b) {
      DistinctConcat(b.bids, b.asks);
      DistinctConcat(b'.bids, b'.asks);
    }
  }

  lemma MatchKeepsInvariant(st: State, tokens: map<string, PairTokens>, taker: Order)
    requires StateInv(st)
    ensures StateInv(Match(st, tokens, taker).st)
    ensures StateIdsDistinct(st) ==> StateIdsDistinct(Match(st, tokens, taker).st)
  {
    var b := BookOf(st, taker.pair);
    BookOfKeeps(st, taker.pair);
    BookUpdateKeeps(st, taker.pair, b, st.index);
    if taker.Complete() && taker.Left() > 0 {
      MatchKeepsBook(b, tokens, taker);
      BookUpdateKeeps(st, taker.pair, MatchBook(b, tokens, taker).0, st.index);
    }
  }

  /** No order is marked filled while it rests, so trimFilled has nothing to drop. */
  predicate NoneMarked(s: seq<Order>) {
    forall o :: o in s ==> o.status != Filled
  }

  /**
   Every order marked filled is one the taker, with `left` open, gets to: its price crosses and the
   orders before it do not satisfy the taker.
   */
  predicate MarkedAreReached(isBids: bool, side: seq<Order>, taker: Order, left: int) {
    forall i :: 0 <= i < |side| && side[i].status == Filled ==>
      Crosses(isBids, taker, side[i]) && TotalLeft(side[..i]) < left
  }

  lemma {:induction false} TotalLeftPositive(s: seq<Order>)
    requires Positive(s)
    ensures TotalLeft(s) >= 0
  {
    if s != [] {
      TotalLeftPositive(s[1..]);
    }
  }

  lemma NoneReached(isBids: bool, side: seq<Order>, taker: Order, left: int)
    requires Sorted(isBids, side) && Positive(side)
    requires left <= 0 || (side != [] && !Crosses(isBids, taker, side[0]))
    ensures NoneMarked(side) <==> MarkedAreReached(isBids, side, taker, left)
  {
    forall i | 0 <= i < |side|
      ensures !(Crosses(isBids, taker, side[i]) && TotalLeft(side[..i]) < left)
    {
      TotalLeftPositive(side[..i]);
      if i > 0 {
        assert !Before(isBids, side[i], side[0]);
      }
    }
    if MarkedAreReached(isBids, side, taker, left) {
      forall o | o in side
        ensures o.status != Filled
      {
        var i :| 0 <= i < |side| && side[i] == o;
      }
    }
  }

  /** Reaching past the first order is reaching the rest with what the first one leaves open. */
  lemma ReachRest(isBids: bool, side: seq<Order>, taker: Order, left: int)
    requires side != [] && left > 0 && Crosses(isBids, taker, side[0])
    ensures MarkedAreReached(isBids, side, taker, left)
            <==> MarkedAreReached(isBids, side[1..], taker, left - side[0].Left())
  {
    forall i | 0 <= i < |side[1..]|
      ensures TotalLeft(side[..i + 1]) == side[0].Left() + TotalLeft(side[1..][..i])
      ensures side[1..][i] == side[i + 1]
    {
      assert side[..i + 1][1..] == side[1..][..i];
    }
    if MarkedAreReached(isBids, side, taker, left) {
      forall i | 0 <= i < |side[1..]| && side[1..][i].status == Filled
        ensures Crosses(isBids, taker, side[1..][i]) && TotalLeft(side[1..][..i]) < left - side[0].Left()
      {
        assert side[i + 1].status == Filled;
      }
    }
    if MarkedAreReached(isBids, side[1..], taker, left - side[0].Left()) {
      forall i | 0 <= i < |side| && side[i].status == Filled
        ensures Crosses(isBids, taker, side[i]) && TotalLeft(side[..i]) < left
      {
        if i > 0 {
          assert side[1..][i - 1].status == Filled;
        }
      }
    }
  }

  /** A maker filled in part rests unmarked in front of all the others, none of which is reached. */
  lemma PartSurvives(isBids: bool, side: seq<Order>, taker: Order, left: int, tokens: PairTokens, seqNo: nat)
    requires Sorted(isBids, side) && Positive(side)
    requires side != [] && 0 < left < side[0].Left() && Crosses(isBids, taker, side[0])
    ensures NoneMarked(MatchSide(isBids, side, taker, left, tokens, seqNo).book)
            <==> MarkedAreReached(isBids, side, taker, left)
  {
    var part := side[0].(filled := side[0].filled + left, status := Partial);
    assert NoneMarked([part] + side[1..]) <==> NoneMarked(side[1..]);
    ReachRest(isBids, side, taker, left);
    NoneReached(isBids, side[1..], taker, left - side[0].Left());
  }

  lemma WholeSurvives(isBids: bool, side: seq<Order>, taker: Order, left: int, tokens: PairTokens, seqNo: nat)
    requires Sorted(isBids, side) && Positive(side)
    requires side != [] && side[0].Left() <= left && Crosses(isBids, taker, side[0])
    ensures MatchSide(isBids, side, taker, left, tokens, seqNo).book
            == MatchSide(isBids, side[1..], taker, left - side[0].Left(), tokens, seqNo + 1).book
    ensures MarkedAreReached(isBids, side, taker, left)
            <==> MarkedAreReached(isBids, side[1..], taker, left - side[0].Left())
  {
    ReachRest(isBids, side, taker, left);
  }

  /** What the fill loop leaves holds no marked order exactly when it reached all of them. */
  lemma {:induction false} SurvivorsMarked(
    isBids: bool, side: seq<Order>, taker: Order, left: int, tokens: PairTokens, seqNo: nat)
    requires Sorted(isBids, side) && Positive(side)
    ensures NoneMarked(MatchSide(isBids, side, taker, left, tokens, seqNo).book)
            <==> MarkedAreReached(isBids, side, taker, left)
  {
    if side == [] {
    } else if left <= 0 || !Crosses(isBids, taker, side[0]) {
      NoneReached(isBids, side, taker, left);
    } else if side[0].Left() <= left {
      WholeSurvives(isBids, side, taker, left, tokens, seqNo);
      SurvivorsMarked(isBids, side[1..], taker, left - side[0].Left(), tokens, seqNo + 1);
    } else {
      PartSurvives(isBids, side, taker, left, tokens, seqNo);
    }
  }

  /** The opposite side lost exactly what was traded. */
  predicate Conserves(st: State, tokens: map<string, PairTokens>, taker: Order) {
    var m := Match(st, tokens, taker);
    TotalLeft(Opposite(BookOf(st, taker.pair), taker)) - TotalLeft(Opposite(BookOf(m.st, taker.pair), taker))
    == Volume(m.trades)
  }

  /** The fill loop and the trimming after it, on one side. */
  lemma LoopVolume(b: Book, tokens: map<string, PairTokens>, taker: Order)
    requires BookInv(b) && taker.Left() > 0
    ensures var before, r := Opposite(b, taker), MatchOpposite(b, tokens, taker);
            Volume(r.trades) == taker.Left() - r.left
            && Volume(r.trades) == Min(taker.Left(), Available(taker.side != "buy", before, taker))
            && TotalLeft(before) - TotalLeft(Trim(r.book)) == Volume(r.trades) + MarkedFilled(r.book)
            && Positive(r.book)
  {
    var isBids, before := taker.side != "buy", Opposite(b, taker);
    var tokensOf := TokensOf(tokens, taker.pair);
    MatchConserves(isBids, before, taker, taker.Left(), tokensOf, 0);
    FillIsMaximal(isBids, before, taker, taker.Left(), tokensOf, 0);
    MatchKeepsSide(isBids, before, taker, taker.Left(), tokensOf, 0);
    TrimTotal(MatchOpposite(b, tokens, taker).book);
  }

  lemma TrimmedVolume(st: State, tokens: map<string, PairTokens>, taker: Order)
    requires StateInv(st) && taker.Complete() && taker.Left() > 0
    ensures var m := Match(st, tokens, taker);
            var before, after := Opposite(BookOf(st, taker.pair), taker), Opposite(BookOf(m.st, taker.pair), taker);
            var r := MatchOpposite(BookOf(st, taker.pair), tokens, taker);
            Volume(m.trades) == m.taker.filled - taker.filled
            && Volume(m.trades) == Min(taker.Left(), Available(taker.side != "buy", before, taker))
            && TotalLeft(before) - TotalLeft(after) == Volume(m.trades) + MarkedFilled(r.book)
            && Positive(r.book)
  {
    assert BookInv(BookOf(st, taker.pair));
    LoopVolume(BookOf(st, taker.pair), tokens, taker);
  }

  /**
   What a whole Match call moves.  The trades always add up to the taker's fill; they add up to
   what leaves the opposite side if and only if the taker gets to every order that rests there
   with the status "filled".
   */
  lemma MatchConservation(st: State, tokens: map<string, PairTokens>, taker: Order)
    requires StateInv(st) && taker.Complete() && taker.Left() > 0
    ensures var m := Match(st, tokens, taker);
            var isBids, before := taker.side != "buy", Opposite(BookOf(st, taker.pair), taker);
            Volume(m.trades) == m.taker.filled - taker.filled == Min(taker.Left(), Available(isBids, before, taker))
            && (Conserves(st, tokens, taker) <==> MarkedAreReached(isBids, before, taker, taker.Left()))
  {
    var isBids := taker.side != "buy";
    var before := Opposite(BookOf(st, taker.pair), taker);
    assert BookInv(BookOf(st, taker.pair));
    var r := MatchOpposite(BookOf(st, taker.pair), tokens, taker);
    TrimmedVolume(st, tokens, taker);
    SurvivorsMarked(isBids, before, taker, taker.Left(), TokensOf(tokens, taker.pair), 0);
    TrimTotal(r.book);
    TrimMembers(r.book);
    if NoneMarked(r.book) {
      TrimIdentity(r.book);
    }
  }

  /** A complete taker of one unit that trades nothing with a side, whatever rests there. */
  function Bystander(side: seq<Order>, pair: string, takes: string): Order {
    var price := if side == [] then 0 else side[0].Price();
    Order("bystander", "", pair, takes, Some(if takes == "buy" then price - 1 else price + 1), Some(1), 0, Open, 0, 0)
  }

  /**
   Matches against one side of a pair conserve for every taker if and only if nothing rests there
   with the status "filled".
   */
  lemma ConservesForEveryTaker(st: State, tokens: map<string, PairTokens>, pair: string, takes: string)
    requires StateInv(st) && pair != "" && takes != ""
    ensures NoneMarked(if takes == "buy" then BookOf(st, pair).asks else BookOf(st, pair).bids)
            <==> forall taker: Order ::
                   taker.Complete() && taker.pair == pair && taker.side == takes && taker.Left() > 0 ==>
                     Conserves(st, tokens, taker)
  {
    var side := if takes == "buy" then BookOf(st, pair).asks else BookOf(st, pair).bids;
    if NoneMarked(side) {
      forall taker: Order | taker.Complete() && taker.pair == pair && taker.side == takes && taker.Left() > 0
        ensures Conserves(st, tokens, taker)
      {
        MatchConservation(st, tokens, taker);
      }
    } else {
      BystanderShows(st, tokens, pair, takes);
      var taker := Bystander(side, pair, takes);
      assert !Conserves(st, tokens, taker);
    }
  }

  lemma BystanderShows(st: State, tokens: map<string, PairTokens>, pair: string, takes: string)
    requires StateInv(st) && pair != "" && takes != ""
    requires !NoneMarked(if takes == "buy" then BookOf(st, pair).asks else BookOf(st, pair).bids)
    ensures var side := if takes == "buy" then BookOf(st, pair).asks else BookOf(st, pair).bids;
            var taker := Bystander(side, pair, takes);
            taker.Complete() && taker.Left() > 0 && !Conserves(st, tokens, taker)
  {
    var side := if takes == "buy" then BookOf(st, pair).asks else BookOf(st, pair).bids;
    var taker := Bystander(side, pair, takes);
    MatchConservation(st, tokens, taker);
    assert BookInv(BookOf(st, pair));
    NoneReached(takes != "buy", side, taker, 1);
  }

  // ----- orders marked filled -----

  /** A resting order keeps the status it was sent with, so a marked one is dropped untraded. */
  lemma MarkedOrderIsLost(o: Order, taker: Order, tokens: map<string, PairTokens>, now: int, cap: nat)
    requires o.Complete() && !o.Expired(now) && o.Left() > 0 && o.status == Filled && o.side != "buy" && cap > 0
    requires taker.Complete() && taker.pair == o.pair && taker.side == "buy" && taker.Left() > 0
    requires taker.Price() < o.Price()
    ensures var added := Add(State(map[], map[]), o, now, cap);
            var m := Match(added.0, tokens, taker);
            added.1 && BookOf(added.0, o.pair).asks == [o.Resting()]
            && m.trades == [] && BookOf(m.st, o.pair).asks == []
            && !Conserves(added.0, tokens, taker)
  {
    var st := Add(State(map[], map[]), o, now, cap).0;
    assert BookOf(st, o.pair).asks == [] + [o.Resting()] == [o.Resting()];
    var r := MatchOpposite(BookOf(st, o.pair), tokens, taker);
    assert r.book == [o.Resting()];
    assert [o.Resting()][..0] == [] && Trim([o.Resting()]) == [];
    assert TotalLeft([o.Resting()]) == o.Left();
  }

  ghost predicate StateNoneMarked(st: State) {
    forall p :: p in st.pairs ==> NoneMarked(st.pairs[p].bids) && NoneMarked(st.pairs[p].asks)
  }

  lemma {:induction false} MatchMarksNothing(
    isBids: bool, book: seq<Order>, taker: Order, left: int, tokens: PairTokens, seqNo: nat)
    requires NoneMarked(book)
    ensures NoneMarked(MatchSide(isBids, book, taker, left, tokens, seqNo).book)
  {
    if book == [] || left <= 0 || !Crosses(isBids, taker, book[0]) {
    } else if book[0].Left() <= 0 {
      MatchMarksNothing(isBids, book[1..], taker, left, tokens, seqNo);
    } else if book[0].Left() <= left {
      MatchMarksNothing(isBids, book[1..], taker, left - book[0].Left(), tokens, seqNo + 1);
    }
  }

  lemma InsertMarksNothing(isBids: bool, s: seq<Order>, o: Order)
    requires NoneMarked(s) && o.status != Filled
    ensures NoneMarked(Insert(isBids, s, o))
  {
    InsertElements(isBids, s, o);
    forall x | x in Insert(isBids, s, o)
      ensures x.status != Filled
    {
      assert x in multiset(Insert(isBids, s, o));
    }
  }

  lemma MatchKeepsUnmarked(st: State, tokens: map<string, PairTokens>, taker: Order)
    requires StateNoneMarked(st)
    ensures StateNoneMarked(Match(st, tokens, taker).st)
  {
    var b := BookOf(st, taker.pair);
    assert NoneMarked(b.bids) && NoneMarked(b.asks);
    MatchMarksNothing(taker.side != "buy", Opposite(b, taker), taker, taker.Left(), TokensOf(tokens, taker.pair), 0);
    TrimMembers(b.bids);
    TrimMembers(b.asks);
    TrimMembers(MatchOpposite(b, tokens, taker).book);
  }

  lemma RemovalKeepsUnmarked(b: Book, id: string)
    requires NoneMarked(b.bids) && NoneMarked(b.asks)
    ensures NoneMarked(RemoveFromBook(b, id).bids) && NoneMarked(RemoveFromBook(b, id).asks)
  {
    RemoveFirstMembers(b.bids, id);
    RemoveFirstMembers(b.asks, id);
  }

  lemma AddKeepsUnmarked(st: State, o: Order, now: int, cap: nat)
    requires StateNoneMarked(st) && o.status != Filled
    ensures StateNoneMarked(Add(st, o, now, cap).0)
  {
    var b := BookOf(st, o.pair);
    assert NoneMarked(b.bids) && NoneMarked(b.asks);
    var b' := RemoveFromBook(b, o.orderId);
    RemovalKeepsUnmarked(b, o.orderId);
    var isBids := o.side == "buy";
    var side := if isBids then b'.bids else b'.asks;
    var kept := if |side| >= cap && side != [] then side[..|side| - 1] else side;
    assert NoneMarked(kept);
    InsertMarksNothing(isBids, kept, o.Resting());
  }

  lemma {:induction false} KeptUnmarked(orders: seq<Order>, now: int)
    requires NoneMarked(orders)
    ensures NoneMarked(Kept(orders, now))
  {
    if orders != [] {
      KeptUnmarked(orders[..|orders| - 1], now);
    }
  }

  lemma ReplaceKeepsUnmarked(st: State, pair: string, bids: seq<Order>, asks: seq<Order>, now: int)
    requires StateNoneMarked(st) && NoneMarked(bids) && NoneMarked(asks)
    ensures StateNoneMarked(Replace(st, pair, bids, asks, now))
  {
    KeptUnmarked(bids, now);
    KeptUnmarked(asks, now);
    InsertAllSame(true, Kept(bids, now));
    InsertAllSame(false, Kept(asks, now));
  }

  lemma {:induction false} TrimIdentity(s: seq<Order>)
    requires NoneMarked(s)
    ensures Trim(s) == s
  {
    if s != [] {
      var s', last := s[..|s| - 1], s[|s| - 1];
      assert s == s' + [last] && last.status != Filled;
      TrimIdentity(s');
    }
  }

  /** When Match ends the taker is filled, the side is empty or its best price does not cross. */
  lemma MatchLeavesNothingToTrade(st: State, tokens: map<string, PairTokens>, taker: Order)
    requires StateInv(st) && taker.Complete() && taker.Left() > 0
    ensures var m := Match(st, tokens, taker);
            var after := Opposite(BookOf(m.st, taker.pair), taker);
            m.taker.Left() <= 0 || after == [] || !Crosses(taker.side != "buy", taker, after[0])
  {
    var isBids := taker.side != "buy";
    var b := BookOf(st, taker.pair);
    assert BookInv(b);
    MatchRunsOut(isBids, Opposite(b, taker), taker, taker.Left(), TokensOf(tokens, taker.pair), 0);
    MatchKeepsSide(isBids, Opposite(b, taker), taker, taker.Left(), TokensOf(tokens, taker.pair), 0);
    var left := MatchOpposite(b, tokens, taker).left;
    if left > 0 {
      TrimmedRunsOut(isBids, MatchOpposite(b, tokens, taker).book, taker);
    }
    assert Match(st, tokens, taker).taker.Left() == left;
  }

  lemma TrimmedRunsOut(isBids: bool, s: seq<Order>, taker: Order)
    requires Sorted(isBids, s) && (s == [] || !Crosses(isBids, taker, s[0]))
    ensures Trim(s) == [] || !Crosses(isBids, taker, Trim(s)[0])
  {
    TrimMembers(s);
    if Trim(s) != [] {
      var first := Trim(s)[0];
      assert first in Trim(s);
      var i :| 0 <= i < |s| && s[i] == first;
      if i > 0 {
        assert !Before(isBids, s[i], s[0]);
      }
    }
  }

  /** Every trade of a Match call is with an order of the taker's pair; other pairs are not touched. */
  lemma MatchIsLocal(st: State, tokens: map<string, PairTokens>, taker: Order)
    ensures var m := Match(st, tokens, taker);
            (forall t :: t in m.trades ==> t.pair == taker.pair)
            && (forall p :: p != taker.pair ==> BookOf(m.st, p) == BookOf(st, p))
            && m.st.index == st.index
  {
    if taker.Complete() && taker.Left() > 0 {
      var isBids := taker.side != "buy";
      TradesPair(isBids, Opposite(BookOf(st, taker.pair), taker), taker, taker.Left(), TokensOf(tokens, taker.pair), 0);
    }
  }

  lemma {:induction false} TradesPair(
    isBids: bool, book: seq<Order>, taker: Order, left: int, tokens: PairTokens, seqNo: nat)
    ensures forall t :: t in MatchSide(isBids, book, taker, left, tokens, seqNo).trades ==>
              t.pair == taker.pair && t.takerOrderId == taker.orderId
  {
    if book == [] || left <= 0 || !Crosses(isBids, taker, book[0]) {
    } else if book[0].Left() <= 0 {
      TradesPair(isBids, book[1..], taker, left, tokens, seqNo);
    } else if book[0].Left() <= left {
      TradesPair(isBids, book[1..], taker, left - book[0].Left(), tokens, seqNo + 1);
    }
  }
}
