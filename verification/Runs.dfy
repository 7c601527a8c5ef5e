/**
 Laws over whole runs of the engine: the book invariant holds in every reachable state, and
 loading a book in bulk is the same as adding its orders one by one.
 */
module Runs {
  import opened Orders
  import opened Matching
  import opened Books

  // ----- cancelling, by pair or by the ID index -----

  /** One RemoveOrder call; with no pair known the books are searched in no particular order. */
  ghost predicate Removal(st: State, pair: string, id: string, st': State, ok: bool) {
    var p := if pair != "" then pair else if id in st.index then st.index[id] else "";
    var index := if pair == "" then st.index - {id} else st.index;
    if p == "" then
      (ok ==> exists q :: q in st.pairs && Rests(st.pairs[q], id)
                          && st' == State(st.pairs[q := RemoveFromBook(st.pairs[q], id)], index))
      && (!ok ==> st' == State(st.pairs, index) && forall q :: q in st.pairs ==> !Rests(st.pairs[q], id))
    else if p !in st.pairs then !ok && st' == State(st.pairs, index)
    else
      ok == Rests(st.pairs[p], id)
      && st' == State(st.pairs[p := RemoveFromBook(st.pairs[p], id)], if ok then index - {id} else index)
  }

  // ----- runs -----

  datatype Op =
    | AddOp(order: Order, now: int)
    | RemoveOp(pair: string, id: string)
    | ReplaceOp(pair: string, bids: seq<Order>, asks: seq<Order>, now: int)
    | MatchOp(taker: Order)

  ghost predicate Step(st: State, op: Op, st': State, tokens: map<string, PairTokens>, cap: nat) {
    match op
    case AddOp(o, now) => st' == Add(st, o, now, cap).0
    case RemoveOp(pair, id) => exists ok :: Removal(st, pair, id, st', ok)
    case ReplaceOp(pair, bids, asks, now) => st' == Replace(st, pair, bids, asks, now)
    case MatchOp(taker) => st' == Match(st, tokens, taker).st
  }

  /** A snapshot that replaces a book leaves each ID to rest once. */
  predicate SnapshotIdsDistinct(op: Op) {
    op.ReplaceOp? && op.pair != "" ==> KeptIdsDistinct(op.bids, op.asks, op.now)
  }

  ghost predicate IsRun(states: seq<State>, ops: seq<Op>, tokens: map<string, PairTokens>, cap: nat) {
    |states| == |ops| + 1
    && states[0] == State(map[], map[])
    && forall i :: 0 <= i < |ops| ==> Step(states[i], ops[i], states[i + 1], tokens, cap)
  }

  lemma StepKeepsInvariant(st: State, op: Op, st': State, tokens: map<string, PairTokens>, cap: nat)
    requires StateInv(st) && Step(st, op, st', tokens, cap)
    ensures StateInv(st')
    ensures StateIdsDistinct(st) ==> (StateIdsDistinct(st') <==> SnapshotIdsDistinct(op))
  {
    match op
    case AddOp(o, now) => AddKeepsInvariant(st, o, now, cap);
    case ReplaceOp(pair, bids, asks, now) => ReplaceKeepsInvariant(st, pair, bids, asks, now);
    case MatchOp(taker) => MatchKeepsInvariant(st, tokens, taker);
    case RemoveOp(pair, id) =>
      forall q | q in st.pairs
        ensures BookInv(RemoveFromBook(st.pairs[q], id))
        ensures IdsDistinct(st.pairs[q]) ==> IdsDistinct(RemoveFromBook(st.pairs[q], id))
      {
        RemoveKeepsBook(st.pairs[q], id);
      }
  }

  /**
   In every reachable state both sides of every book are in price-time order and hold only orders
   with something left.
   */
  lemma {:induction false} EveryStateIsValid(
    states: seq<State>, ops: seq<Op>, tokens: map<string, PairTokens>, cap: nat, k: nat)
    requires IsRun(states, ops, tokens, cap) && k <= |ops|
    ensures StateInv(states[k])
  {
    if k > 0 {
      EveryStateIsValid(states, ops, tokens, cap, k - 1);
      StepKeepsInvariant(states[k - 1], ops[k - 1], states[k], tokens, cap);
    }
  }

  lemma {:induction false} IdsStayDistinct(
    states: seq<State>, ops: seq<Op>, tokens: map<string, PairTokens>, cap: nat, k: nat)
    requires IsRun(states, ops, tokens, cap) && k <= |ops|
    requires forall i :: 0 <= i < |ops| ==> SnapshotIdsDistinct(ops[i])
    ensures StateIdsDistinct(states[k])
  {
    if k > 0 {
      IdsStayDistinct(states, ops, tokens, cap, k - 1);
      EveryStateIsValid(states, ops, tokens, cap, k - 1);
      StepKeepsInvariant(states[k - 1], ops[k - 1], states[k], tokens, cap);
    }
  }

  /**
   Order IDs are unique within each pair in every state of a run if and only if every bulk snapshot
   of the run leaves each ID to rest once.
   */
  lemma IdsDistinctIff(states: seq<State>, ops: seq<Op>, tokens: map<string, PairTokens>, cap: nat)
    requires IsRun(states, ops, tokens, cap)
    ensures (forall k :: 0 <= k < |states| ==> StateIdsDistinct(states[k]))
            <==> forall i :: 0 <= i < |ops| ==> SnapshotIdsDistinct(ops[i])
  {
    if forall i :: 0 <= i < |ops| ==> SnapshotIdsDistinct(ops[i]) {
      forall k | 0 <= k < |states|
        ensures StateIdsDistinct(states[k])
      {
        IdsStayDistinct(states, ops, tokens, cap, k);
      }
    }
    if forall k :: 0 <= k < |states| ==> StateIdsDistinct(states[k]) {
      forall i | 0 <= i < |ops|
        ensures SnapshotIdsDistinct(ops[i])
      {
        EveryStateIsValid(states, ops, tokens, cap, i);
        assert StateIdsDistinct(states[i]) && StateIdsDistinct(states[i + 1]);
        StepKeepsInvariant(states[i], ops[i], states[i + 1], tokens, cap);
      }
    }
  }

  // ----- matches in a run -----

  /** The orders a call brings in are not marked filled. */
  predicate BringsNoneMarked(op: Op) {
    match op
    case AddOp(o, _) => o.status != Filled
    case ReplaceOp(_, bids, asks, _) => NoneMarked(bids) && NoneMarked(asks)
    case _ => true
  }

  lemma StepKeepsUnmarked(st: State, op: Op, st': State, tokens: map<string, PairTokens>, cap: nat)
    requires StateNoneMarked(st) && Step(st, op, st', tokens, cap) && BringsNoneMarked(op)
    ensures StateNoneMarked(st')
  {
    match op
    case AddOp(o, now) => AddKeepsUnmarked(st, o, now, cap);
    case ReplaceOp(pair, bids, asks, now) => ReplaceKeepsUnmarked(st, pair, bids, asks, now);
    case MatchOp(taker) => MatchKeepsUnmarked(st, tokens, taker);
    case RemoveOp(pair, id) =>
      forall q | q in st.pairs
        ensures NoneMarked(RemoveFromBook(st.pairs[q], id).bids) && NoneMarked(RemoveFromBook(st.pairs[q], id).asks)
      {
        RemovalKeepsUnmarked(st.pairs[q], id);
      }
  }

  lemma {:induction false} RunsStayUnmarked(
    states: seq<State>, ops: seq<Op>, tokens: map<string, PairTokens>, cap: nat, k: nat)
    requires IsRun(states, ops, tokens, cap) && k <= |ops|
    requires forall i :: 0 <= i < |ops| ==> BringsNoneMarked(ops[i])
    ensures StateNoneMarked(states[k])
  {
    if k > 0 {
      RunsStayUnmarked(states, ops, tokens, cap, k - 1);
      StepKeepsUnmarked(states[k - 1], ops[k - 1], states[k], tokens, cap);
    }
  }

  /** If no order ever brought in is marked filled, every match of the run conserves quantity. */
  lemma MatchesOfARunConserve(
    states: seq<State>, ops: seq<Op>, tokens: map<string, PairTokens>, cap: nat, k: nat)
    requires IsRun(states, ops, tokens, cap) && k < |ops| && ops[k].MatchOp?
    requires forall i :: 0 <= i < |ops| ==> BringsNoneMarked(ops[i])
    requires ops[k].taker.Complete() && ops[k].taker.Left() > 0
    ensures Conserves(states[k], tokens, ops[k].taker)
  {
    var taker := ops[k].taker;
    EveryStateIsValid(states, ops, tokens, cap, k);
    RunsStayUnmarked(states, ops, tokens, cap, k);
    ConservesForEveryTaker(states[k], tokens, taker.pair, taker.side);
  }

  // ----- bulk and incremental loading -----

  function AddAll(st: State, orders: seq<Order>, now: int, cap: nat): State {
    if orders == [] then st
    else Add(AddAll(st, orders[..|orders| - 1], now, cap), orders[|orders| - 1], now, cap).0
  }

  function SideOf(orders: seq<Order>, buy: bool): seq<Order> {
    if orders == [] then []
    else
      var last := orders[|orders| - 1];
      SideOf(orders[..|orders| - 1], buy) + if (last.side == "buy") == buy then [last] else []
  }

  /** An order AddOrder accepts for `pair` at time `now`. */
  predicate WellFormed(o: Order, pair: string, now: int) {
    o.Complete() && o.pair == pair && !o.Expired(now) && o.Left() > 0
  }

  lemma {:induction false} SideOfMembers(orders: seq<Order>, buy: bool)
    ensures forall o :: o in SideOf(orders, buy) ==> o in orders
    ensures |SideOf(orders, true)| + |SideOf(orders, false)| == |orders|
  {
    if orders != [] {
      SideOfMembers(orders[..|orders| - 1], buy);
    }
  }

  /** The IDs on the loaded side are IDs of the loaded orders. */
  lemma LoadedIds(orders: seq<Order>, buy: bool, now: int, id: string)
    requires forall o :: o in orders ==> o.orderId != id
    ensures forall o :: o in InsertAll(buy, Kept(SideOf(orders, buy), now)) ==> o.orderId != id
  {
    SideOfMembers(orders, buy);
    KeptPositive(SideOf(orders, buy), now);
    InsertAllSame(buy, Kept(SideOf(orders, buy), now));
  }

  lemma {:induction false} LoadedSize(s: seq<Order>, buy: bool, now: int)
    ensures |InsertAll(buy, Kept(s, now))| <= |s|
  {
    InsertAllElements(buy, Kept(s, now));
    assert |multiset(InsertAll(buy, Kept(s, now)))| == |multiset(Kept(s, now))|;
    KeptSize(s, now);
  }

  lemma {:induction false} KeptSize(s: seq<Order>, now: int)
    ensures |Kept(s, now)| <= |s|
  {
    if s != [] {
      KeptSize(s[..|s| - 1], now);
    }
  }

  /** One more acceptable order on one side. */
  lemma SideOneMore(orders: seq<Order>, o: Order, buy: bool, now: int, cap: nat)
    requires WellFormed(o, o.pair, now) && (o.side == "buy") == buy
    requires |SideOf(orders, buy)| < cap
    ensures InsertAll(buy, Kept(SideOf(orders + [o], buy), now))
            == AddToSide(buy, InsertAll(buy, Kept(SideOf(orders, buy), now)), o.Resting(), cap)
    ensures SideOf(orders + [o], !buy) == SideOf(orders, !buy)
  {
    assert (orders + [o])[..|orders|] == orders;
    var s := SideOf(orders, buy);
    assert SideOf(orders + [o], buy) == s + [o];
    assert (s + [o])[..|s|] == s;
    var k := Kept(s, now);
    assert Kept(s + [o], now) == k + [o.Resting()];
    assert (k + [o.Resting()])[..|k|] == k;
    LoadedSize(s, buy, now);
  }

  ghost predicate Loadable(orders: seq<Order>, pair: string, now: int, cap: nat) {
    DistinctIds(orders)
    && (forall o :: o in orders ==> WellFormed(o, pair, now))
    && |SideOf(orders, true)| <= cap && |SideOf(orders, false)| <= cap
  }

  lemma LoadableButLast(orders: seq<Order>, pair: string, now: int, cap: nat)
    requires orders != [] && Loadable(orders, pair, now, cap)
    ensures Loadable(orders[..|orders| - 1], pair, now, cap)
    ensures forall o :: o in orders[..|orders| - 1] ==> o.orderId != orders[|orders| - 1].orderId
    ensures WellFormed(orders[|orders| - 1], pair, now)
    ensures |SideOf(orders[..|orders| - 1], orders[|orders| - 1].side == "buy")| < cap
  {
  }

  /** The book of `pair` once `orders` have been loaded into an empty one. */
  function LoadedBook(orders: seq<Order>, now: int): Book {
    Book(InsertAll(true, Kept(SideOf(orders, true), now)), InsertAll(false, Kept(SideOf(orders, false), now)))
  }

  lemma LoadOneMore(orders: seq<Order>, o: Order, pair: string, now: int, cap: nat)
    requires Loadable(orders + [o], pair, now, cap)
    ensures o.Complete() && !o.Expired(now) && o.Left() > 0 && o.pair == pair
    ensures AddToBook(RemoveFromBook(LoadedBook(orders, now), o.orderId), o.Resting(), cap)
            == LoadedBook(orders + [o], now)
  {
    var b := LoadedBook(orders, now);
    assert (orders + [o])[..|orders|] == orders;
    LoadableButLast(orders + [o], pair, now, cap);
    LoadedIds(orders, true, now, o.orderId);
    LoadedIds(orders, false, now, o.orderId);
    RemoveAbsent(b.bids, o.orderId);
    RemoveAbsent(b.asks, o.orderId);
    SideOneMore(orders, o, o.side == "buy", now, cap);
  }

  lemma AddStep(before: State, orders: seq<Order>, o: Order, pair: string, now: int, cap: nat)
    requires Loadable(orders + [o], pair, now, cap)
    requires BookOf(before, pair) == LoadedBook(orders, now)
    ensures Add(before, o, now, cap).0
            == State(before.pairs[pair := LoadedBook(orders + [o], now)], before.index[o.orderId := pair])
  {
    LoadOneMore(orders, o, pair, now, cap);
  }

  lemma IndexStep(index: map<string, string>, orders: seq<Order>, o: Order, pair: string)
    ensures Indexed(index, Ids(orders), pair)[o.orderId := pair] == Indexed(index, Ids(orders + [o]), pair)
  {
    assert Ids(orders + [o]) == Ids(orders) + {o.orderId};
  }

  /** `r` is `st` with the orders `ids`, if any, loaded into the empty book of `pair`, giving `book`. */
  ghost predicate LoadedFrom(st: State, r: State, ids: set<string>, book: Book, pair: string) {
    BookOf(r, pair) == book
    && r.index == Indexed(st.index, ids, pair)
    && r.pairs == if ids == {} then st.pairs else st.pairs[pair := book]
  }

  lemma LoadedFromStep(
    st: State, r: State, r': State, ids: set<string>, id: string, book: Book, book': Book, pair: string)
    requires LoadedFrom(st, r, ids, book, pair)
    requires r' == State(r.pairs[pair := book'], Indexed(st.index, ids + {id}, pair))
    ensures LoadedFrom(st, r', ids + {id}, book', pair)
  {
    assert r.pairs[pair := book'] == st.pairs[pair := book'];
    assert id in ids + {id};
  }

  lemma {:induction false} AddAllLoads(st: State, orders: seq<Order>, pair: string, now: int, cap: nat)
    requires Loadable(orders, pair, now, cap)
    requires BookOf(st, pair) == EMPTY_BOOK
    ensures LoadedFrom(st, AddAll(st, orders, now, cap), Ids(orders), LoadedBook(orders, now), pair)
  {
    if orders == [] {
      assert Ids(orders) == {};
    } else {
      var orders', o := orders[..|orders| - 1], orders[|orders| - 1];
      assert orders == orders' + [o];
      assert Ids(orders) == Ids(orders') + {o.orderId};
      LoadableButLast(orders, pair, now, cap);
      AddAllLoads(st, orders', pair, now, cap);
      var r := AddAll(st, orders', now, cap);
      AddStep(r, orders', o, pair, now, cap);
      IndexStep(st.index, orders', o, pair);
      LoadedFromStep(st, r, AddAll(st, orders, now, cap), Ids(orders'), o.orderId,
                     LoadedBook(orders', now), LoadedBook(orders, now), pair);
    }
  }

  lemma {:induction false} KeptIds(s: seq<Order>, now: int)
    requires forall o :: o in s ==> o.orderId != "" && !o.Expired(now) && o.Left() > 0
    ensures Ids(Kept(s, now)) == Ids(s)
  {
    if s != [] {
      var s', last := s[..|s| - 1], s[|s| - 1];
      KeptIds(s', now);
      assert s == s' + [last];
      assert Ids(s) == Ids(s') + {last.orderId};
      assert Ids(Kept(s, now)) == Ids(Kept(s', now)) + {last.orderId};
    }
  }

  lemma {:induction false} SideOfCovers(orders: seq<Order>)
    ensures forall o :: o in orders ==> o in SideOf(orders, o.side == "buy")
  {
    if orders != [] {
      SideOfCovers(orders[..|orders| - 1]);
    }
  }

  /**
   ReplaceOrderbook on an empty pair and AddOrder on each of the same orders, in any interleaving
   of buys and sells, give the same engine: same books, same priorities, same index.
   */
  lemma BulkEqualsIncremental(st: State, orders: seq<Order>, pair: string, now: int, cap: nat)
    requires orders != [] && Loadable(orders, pair, now, cap)
    requires BookOf(st, pair) == EMPTY_BOOK
    ensures Replace(st, pair, SideOf(orders, true), SideOf(orders, false), now) == AddAll(st, orders, now, cap)
  {
    AddAllLoads(st, orders, pair, now, cap);
    LoadedIdsExact(orders, pair, now);
    assert orders[0] in orders;
    assert orders[0].orderId in Ids(orders) && pair != "";
    assert st.index - Ids(EMPTY_BOOK.bids) - Ids(EMPTY_BOOK.asks) == st.index;
  }

  lemma LoadedIdsExact(orders: seq<Order>, pair: string, now: int)
    requires forall o :: o in orders ==> WellFormed(o, pair, now)
    ensures Ids(Kept(SideOf(orders, true), now)) + Ids(Kept(SideOf(orders, false), now)) == Ids(orders)
  {
    SideOfMembers(orders, true);
    SideOfMembers(orders, false);
    SideOfCovers(orders);
    KeptIds(SideOf(orders, true), now);
    KeptIds(SideOf(orders, false), now);
  }
}
