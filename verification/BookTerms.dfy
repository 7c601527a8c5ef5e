/**
 What adding, replacing and cancelling come to, written out in the fields of the orders: which orders
 come to rest, where they stand, and what the ID index says afterwards.
 */
module BookTerms {
  import opened Options
  import opened Orders
  import opened Matching
  import opened Books
  import opened Runs

  /** An order is good up to and including its last second; zero or less means it does not expire. */
  predicate InTime(o: Order, now: int) {
    o.expiresAt <= 0 || now <= o.expiresAt
  }

  /** The copy that rests: what is left becomes the amount. */
  function Fresh(o: Order): Order {
    o.(filled := 0, amount := Some(o.amount.GetOr(0) - o.filled))
  }

  // ----- order within a book -----

  /** `a` stands before a later `b`: at a better price, or at the same price no later. */
  predicate Ahead(bids: bool, a: Order, b: Order) {
    (if bids then a.Price() > b.Price() else a.Price() < b.Price())
    || (a.Price() == b.Price() && a.createdAt <= b.createdAt)
  }

  /**
   In every state of a run: bids stand from the highest price down, asks from the lowest up, equal
   prices by time, and every resting order has something left.
   */
  lemma BooksInPriceTimeOrder(
    states: seq<State>, ops: seq<Op>, tokens: map<string, PairTokens>, cap: nat, k: nat, pair: string)
    requires IsRun(states, ops, tokens, cap) && k <= |ops| && pair in states[k].pairs
    ensures var b := states[k].pairs[pair];
            (forall i, j :: 0 <= i < j < |b.bids| ==> Ahead(true, b.bids[i], b.bids[j]))
            && (forall i, j :: 0 <= i < j < |b.asks| ==> Ahead(false, b.asks[i], b.asks[j]))
            && forall o :: o in b.bids || o in b.asks ==> o.amount.GetOr(0) > o.filled
  {
    EveryStateIsValid(states, ops, tokens, cap, k);
    var b := states[k].pairs[pair];
    assert BookInv(b);
    SortedIsAhead(true, b.bids);
    SortedIsAhead(false, b.asks);
  }

  lemma SortedIsAhead(bids: bool, s: seq<Order>)
    ensures Sorted(bids, s) <==> forall i, j :: 0 <= i < j < |s| ==> Ahead(bids, s[i], s[j])
  {
    if forall i, j :: 0 <= i < j < |s| ==> Ahead(bids, s[i], s[j]) {
      forall i, j | 0 <= i < j < |s|
        ensures !Before(bids, s[j], s[i])
      {
        assert Ahead(bids, s[i], s[j]);
      }
    }
  }

  // ----- adding -----

  /** `r` is `s` with `o` put behind everything that is ahead of it and before everything else. */
  ghost predicate PutInPlace(bids: bool, s: seq<Order>, o: Order, r: seq<Order>) {
    exists k: nat ::
      k <= |s| && r == s[..k] + [o] + s[k..]
      && (forall i :: 0 <= i < k ==> Ahead(bids, s[i], o)) && forall i :: k <= i < |s| ==> !Ahead(bids, s[i], o)
  }

  lemma AheadUnlessBefore(bids: bool, a: Order, b: Order)
    ensures Ahead(bids, a, b) <==> !Before(bids, b, a)
  {
  }

  lemma AheadOfAhead(bids: bool, a: Order, b: Order, c: Order)
    requires Ahead(bids, a, b) && Ahead(bids, b, c)
    ensures Ahead(bids, a, c)
  {
  }

  /** On a sorted side the orders ahead of `o` come first. */
  lemma Place(bids: bool, s: seq<Order>, o: Order) returns (k: nat)
    requires Sorted(bids, s)
    ensures k <= |s| && (forall i :: 0 <= i < k ==> Ahead(bids, s[i], o))
    ensures forall i :: k <= i < |s| ==> !Ahead(bids, s[i], o)
  {
    k := |s|;
    while k > 0 && !Ahead(bids, s[k - 1], o)
      invariant k <= |s| && forall i :: k <= i < |s| ==> !Ahead(bids, s[i], o)
    {
      k := k - 1;
    }
    forall i | 0 <= i < k
      ensures Ahead(bids, s[i], o)
    {
      if i < k - 1 {
        AheadUnlessBefore(bids, s[i], s[k - 1]);
        AheadOfAhead(bids, s[i], s[k - 1], o);
      }
    }
  }

  lemma InsertPutsInPlace(bids: bool, s: seq<Order>, o: Order)
    requires Sorted(bids, s)
    ensures PutInPlace(bids, s, o, Insert(bids, s, o))
  {
    var k := Place(bids, s, o);
    forall i | 0 <= i < |s|
      ensures Ahead(bids, s[i], o) <==> !Before(bids, o, s[i])
    {
      AheadUnlessBefore(bids, s[i], o);
    }
    InsertAt(bids, s, o, k);
  }

  function SideFor(b: Book, buy: bool): seq<Order> {
    if buy then b.bids else b.asks
  }

  /** The side without the first order of this ID, and without its last one if it is then full. */
  predicate MadeRoom(s: seq<Order>, id: string, cap: nat, r: seq<Order>) {
    var rest := RemoveFirst(s, id);
    r == if |rest| >= cap && |rest| > 0 then rest[..|rest| - 1] else rest
  }

  /** The order names everything and is still in time. */
  predicate Admissible(o: Order, now: int) {
    o.orderId != "" && o.pair != "" && o.side != "" && o.price.Some? && o.amount.Some? && InTime(o, now)
  }

  /** What AddOrder refuses, and what it changes all the same. */
  lemma NotAdded(st: State, o: Order, now: int, cap: nat)
    requires !Admissible(o, now) || o.amount.value <= o.filled
    ensures !Add(st, o, now, cap).1
    ensures var b := if o.pair in st.pairs then st.pairs[o.pair] else Book([], []);
            Add(st, o, now, cap).0
            == if !Admissible(o, now) then st
               else
                 st.(pairs := st.pairs[o.pair := Book(RemoveFirst(b.bids, o.orderId), RemoveFirst(b.asks, o.orderId))])
  {
    assert Admissible(o, now) <==> o.Complete() && !o.Expired(now);
  }

  /**
   AddOrder takes every order that names everything, is in time and has something left.  Its remainder
   comes to rest in its place by price and time, any order of the same ID is gone from the pair, a full
   side loses its last order, and the index files the ID under the pair.
   */
  lemma AddedOnTheseTerms(st: State, o: Order, now: int, cap: nat) returns (room: seq<Order>)
    requires StateInv(st) && Admissible(o, now) && o.amount.value > o.filled
    ensures var b := if o.pair in st.pairs then st.pairs[o.pair] else Book([], []);
            var (st', added), buy := Add(st, o, now, cap), o.side == "buy";
            added && st'.index == st.index[o.orderId := o.pair]
            && o.pair in st'.pairs && st'.pairs == st.pairs[o.pair := st'.pairs[o.pair]]
            && SideFor(st'.pairs[o.pair], !buy) == RemoveFirst(SideFor(b, !buy), o.orderId)
            && MadeRoom(SideFor(b, buy), o.orderId, cap, room)
            && PutInPlace(buy, room, Fresh(o), SideFor(st'.pairs[o.pair], buy))
  {
    var b, buy := BookOf(st, o.pair), o.side == "buy";
    BookOfKeeps(st, o.pair);
    room := SidePut(buy, SideFor(b, buy), o.orderId, cap, Fresh(o));
    assert o.Complete() && !o.Expired(now) && o.Resting() == Fresh(o);
  }

  lemma SidePut(bids: bool, s: seq<Order>, id: string, cap: nat, o: Order) returns (room: seq<Order>)
    requires Sorted(bids, s)
    ensures MadeRoom(s, id, cap, room) && PutInPlace(bids, room, o, AddToSide(bids, RemoveFirst(s, id), o, cap))
  {
    RemoveFirstKeeps(bids, s, id);
    var rest := RemoveFirst(s, id);
    room := if |rest| >= cap && |rest| > 0 then rest[..|rest| - 1] else rest;
    InsertPutsInPlace(bids, room, o);
  }

  // ----- replacing -----

  /** A snapshot's order that may rest. */
  predicate MayRest(o: Order, now: int) {
    o.orderId != "" && InTime(o, now) && o.amount.GetOr(0) > o.filled
  }

  /** How often `x` comes to rest from a snapshot's side. */
  function TimesResting(s: seq<Order>, now: int, x: Order): nat {
    |set i | 0 <= i < |s| && MayRest(s[i], now) && Fresh(s[i]) == x|
  }

  lemma RestingIndicesSnoc(s: seq<Order>, o: Order, now: int, x: Order)
    ensures TimesResting(s + [o], now, x) == TimesResting(s, now, x) + if MayRest(o, now) && Fresh(o) == x then 1 else 0
  {
    var t := s + [o];
    var before := set i | 0 <= i < |s| && MayRest(s[i], now) && Fresh(s[i]) == x;
    var after := set i | 0 <= i < |t| && MayRest(t[i], now) && Fresh(t[i]) == x;
    assert after == before + if MayRest(o, now) && Fresh(o) == x then {|s|} else {};
  }

  lemma KeptSnoc(s: seq<Order>, o: Order, now: int)
    ensures Kept(s + [o], now) == if MayRest(o, now) then Kept(s, now) + [Fresh(o)] else Kept(s, now)
  {
    KeptOneMore(s, o, now);
    assert o.Resting() == Fresh(o);
  }

  lemma {:induction false} KeptCounts(s: seq<Order>, now: int, x: Order)
    ensures multiset(Kept(s, now))[x] == TimesResting(s, now, x)
  {
    if s != [] {
      var init, last := s[..|s| - 1], s[|s| - 1];
      assert s == init + [last];
      KeptCounts(init, now, x);
      RestingIndicesSnoc(init, last, now, x);
      KeptSnoc(init, last, now);
    }
  }

  /** Some order of the snapshot that may rest has this ID. */
  ghost predicate Brings(bids: seq<Order>, asks: seq<Order>, now: int, id: string) {
    exists o :: (o in bids || o in asks) && MayRest(o, now) && o.orderId == id
  }

  lemma {:induction false} KeptIds(s: seq<Order>, now: int, id: string)
    ensures id in Ids(Kept(s, now)) <==> exists o :: o in s && MayRest(o, now) && o.orderId == id
  {
    if s != [] {
      var init, last := s[..|s| - 1], s[|s| - 1];
      assert s == init + [last];
      KeptIds(init, now, id);
      KeptSnoc(init, last, now);
    }
  }

  /**
   ReplaceOrderbook puts in the pair's book exactly the snapshot's orders that are identified, in time
   and have something left, each with its remainder as amount and side by side in order of price and
   time; other books stay.
   */
  lemma ReplacedOnTheseTerms(st: State, pair: string, bids: seq<Order>, asks: seq<Order>, now: int, x: Order)
    requires pair != ""
    ensures var st' := Replace(st, pair, bids, asks, now);
            pair in st'.pairs && st'.pairs == st.pairs[pair := st'.pairs[pair]]
            && multiset(st'.pairs[pair].bids)[x] == TimesResting(bids, now, x)
            && multiset(st'.pairs[pair].asks)[x] == TimesResting(asks, now, x)
            && (forall i, j :: 0 <= i < j < |st'.pairs[pair].bids| ==>
                  Ahead(true, st'.pairs[pair].bids[i], st'.pairs[pair].bids[j]))
            && forall i, j :: 0 <= i < j < |st'.pairs[pair].asks| ==>
                  Ahead(false, st'.pairs[pair].asks[i], st'.pairs[pair].asks[j])
  {
    KeptCounts(bids, now, x);
    KeptCounts(asks, now, x);
    InsertAllElements(true, Kept(bids, now));
    InsertAllElements(false, Kept(asks, now));
    ReplacedBookValid(bids, asks, now);
    SortedIsAhead(true, InsertAll(true, Kept(bids, now)));
    SortedIsAhead(false, InsertAll(false, Kept(asks, now)));
  }

  /** Without a pair nothing is replaced. */
  lemma NotReplaced(st: State, bids: seq<Order>, asks: seq<Order>, now: int)
    ensures Replace(st, "", bids, asks, now) == st
  {
  }

  /** The index files the snapshot's resting IDs under the pair and forgets the ones the pair had before. */
  lemma ReplacedIndex(st: State, pair: string, bids: seq<Order>, asks: seq<Order>, now: int, id: string)
    requires pair != ""
    ensures var before, after := st.index, Replace(st, pair, bids, asks, now).index;
            var had := pair in st.pairs && Rests(st.pairs[pair], id);
            (id in after <==> Brings(bids, asks, now, id) || (id in before && !had))
            && (id in after ==> after[id] == if Brings(bids, asks, now, id) then pair else before[id])
  {
    KeptIds(bids, now, id);
    KeptIds(asks, now, id);
    assert Brings(bids, asks, now, id) <==> id in Ids(Kept(bids, now)) || id in Ids(Kept(asks, now));
  }

  // ----- cancelling -----

  /** `st'` is `st` without the first order of this ID on either side of a pair's book. */
  predicate CutFrom(st: State, pair: string, id: string, st': State) {
    pair in st.pairs
    && st'.pairs == st.pairs[pair := Book(RemoveFirst(st.pairs[pair].bids, id), RemoveFirst(st.pairs[pair].asks, id))]
  }

  /**
   RemoveOrder looks under the pair it is given, or else under the one the index names, or else
   everywhere.  It says whether it found the order; if so the order is cut out there and the index
   forgets it.  A call without a pair makes the index forget the ID in any case.
   */
  lemma CancelledOnTheseTerms(st: State, pair: string, id: string, st': State, ok: bool)
    requires Removal(st, pair, id, st', ok)
    ensures var named := if pair == "" && id in st.index then st.index[id] else pair;
            (ok <==> if named == "" then exists q :: q in st.pairs && Rests(st.pairs[q], id)
                     else named in st.pairs && Rests(st.pairs[named], id))
            && (ok ==> exists q :: (named == "" || q == named) && CutFrom(st, q, id, st'))
            && (!ok ==> st'.pairs == st.pairs)
            && st'.index == if ok || pair == "" then st.index - {id} else st.index
  {
    var named := if pair == "" && id in st.index then st.index[id] else pair;
    if ok && named != "" {
      assert CutFrom(st, named, id, st');
    } else if ok {
      var q :| q in st.pairs && Rests(st.pairs[q], id) && st'.pairs == st.pairs[q := RemoveFromBook(st.pairs[q], id)];
      assert CutFrom(st, q, id, st');
    } else if named != "" && named in st.pairs {
      NothingToRemove(st.pairs[named], id);
      assert st.pairs[named := st.pairs[named]] == st.pairs;
    }
  }
}
