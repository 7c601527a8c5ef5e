/**
 Limit orders, price-time priority, and the stable order a side of the book is kept in.

 Prices and amounts are exact fixed-point integers.  A field the Go code compares with the
 empty string is an Option; reading an empty or unparsable number gives zero, as `bigNew` does.
 */
module Orders {
  import opened Options

  datatype Status = Open | Partial | Filled | Cancelled

  datatype Order = Order(
    orderId: string,
    trader: string,
    pair: string,
    side: string,
    price: Option<int>,
    amount: Option<int>,
    filled: int,
    status: Status,
    createdAt: int,
    expiresAt: int)
  {
    function Price(): int {
      price.GetOr(0)
    }

    /** What is still to be traded. */
    function Left(): int {
      amount.GetOr(0) - filled
    }

    /** None of the fields AddOrder and Match insist on is empty. */
    predicate Complete() {
      orderId != "" && pair != "" && side != "" && price.Some? && amount.Some?
    }

    predicate Expired(now: int) {
      expiresAt > 0 && now > expiresAt
    }

    /** The private copy that is put in a book: the remainder becomes the amount. */
    function Resting(): Order {
      this.(filled := 0, amount := Some(Left()))
    }
  }

  /** Bids are best at the highest price, asks at the lowest: a lower rank is a better price. */
  function Rank(isBids: bool, price: int): int {
    if isBids then -price else price
  }

  /** Strict price-time priority of `a` over `b`. */
  predicate Before(isBids: bool, a: Order, b: Order) {
    Rank(isBids, a.Price()) < Rank(isBids, b.Price())
    || (a.Price() == b.Price() && a.createdAt < b.createdAt)
  }

  predicate Sorted(isBids: bool, s: seq<Order>) {
    forall i, j :: 0 <= i < j < |s| ==> !Before(isBids, s[j], s[i])
  }

  predicate Positive(s: seq<Order>) {
    forall i :: 0 <= i < |s| ==> s[i].Left() > 0
  }

  /** No two positions hold the same order ID. */
  predicate DistinctIds(s: seq<Order>) {
    forall i, j :: 0 <= i < j < |s| ==> s[i].orderId != s[j].orderId
  }

  function TotalLeft(s: seq<Order>): int {
    if s == [] then 0 else s[0].Left() + TotalLeft(s[1..])
  }

  lemma {:induction false} TotalLeftSplit(a: seq<Order>, b: seq<Order>)
    ensures TotalLeft(a + b) == TotalLeft(a) + TotalLeft(b)
  {
    if a == [] {
      assert a + b == b;
    } else {
      TotalLeftSplit(a[1..], b);
      assert (a + b)[1..] == a[1..] + b;
    }
  }

  // ----- stable sorting -----

  /** The orders of `s` with one price and one creation time, in their order in `s`. */
  function Tier(s: seq<Order>, price: int, at: int): seq<Order> {
    if s == [] then []
    else
      var last := s[|s| - 1];
      Tier(s[..|s| - 1], price, at)
      + if last.Price() == price && last.createdAt == at then [last] else []
  }

  ghost predicate SameTiers(a: seq<Order>, b: seq<Order>) {
    forall price, at :: Tier(a, price, at) == Tier(b, price, at)
  }

  /** `output` is `input` rearranged into priority order, ties kept in their original order. */
  ghost predicate IsStableSort(isBids: bool, input: seq<Order>, output: seq<Order>) {
    Sorted(isBids, output) && SameTiers(output, input)
  }

  lemma {:induction false} TierMember(s: seq<Order>, i: nat)
    requires i < |s|
    ensures Tier(s, s[i].Price(), s[i].createdAt) != []
  {
    if i < |s| - 1 {
      TierMember(s[..|s| - 1], i);
    }
  }

  lemma {:induction false} TierSound(s: seq<Order>, price: int, at: int)
    ensures forall o :: o in Tier(s, price, at) ==> o in s && o.Price() == price && o.createdAt == at
  {
    if s != [] {
      TierSound(s[..|s| - 1], price, at);
    }
  }

  lemma TierLast(s: seq<Order>)
    requires s != []
    ensures var last := s[|s| - 1];
            var t := Tier(s, last.Price(), last.createdAt);
            t != [] && t[|t| - 1] == last
  {
  }

  /** Elements of one tier tie; the last of a sorted side is in its lowest tier. */
  lemma LastIsLowest(isBids: bool, a: seq<Order>, o: Order)
    requires a != [] && Sorted(isBids, a)
    requires Tier(a, o.Price(), o.createdAt) != []
    ensures !Before(isBids, a[|a| - 1], o)
  {
    TierSound(a, o.Price(), o.createdAt);
    var o' := Tier(a, o.Price(), o.createdAt)[0];
    var i :| 0 <= i < |a| && a[i] == o';
  }

  /** Two sorted rearrangements with the same tiers end in the same order. */
  lemma SameLast(isBids: bool, a: seq<Order>, b: seq<Order>)
    requires a != [] && b != []
    requires Sorted(isBids, a) && Sorted(isBids, b)
    requires var x := a[|a| - 1]; Tier(a, x.Price(), x.createdAt) == Tier(b, x.Price(), x.createdAt)
    requires var y := b[|b| - 1]; Tier(a, y.Price(), y.createdAt) == Tier(b, y.Price(), y.createdAt)
    ensures a[|a| - 1] == b[|b| - 1]
  {
    var x, y := a[|a| - 1], b[|b| - 1];
    TierLast(a);
    TierLast(b);
    LastIsLowest(isBids, b, x);
    LastIsLowest(isBids, a, y);
    assert x.Price() == y.Price() && x.createdAt == y.createdAt;
  }

  lemma TierButLast(s: seq<Order>, price: int, at: int)
    requires s != []
    ensures var last := s[|s| - 1];
            var n := if last.Price() == price && last.createdAt == at then 1 else 0;
            n <= |Tier(s, price, at)|
            && Tier(s[..|s| - 1], price, at) == Tier(s, price, at)[..|Tier(s, price, at)| - n]
  {
  }

  lemma SameButLast(a: seq<Order>, b: seq<Order>)
    requires a != [] && b != [] && a[|a| - 1] == b[|b| - 1]
    requires SameTiers(a, b)
    ensures SameTiers(a[..|a| - 1], b[..|b| - 1])
  {
    var a', b' := a[..|a| - 1], b[..|b| - 1];
    forall price, at
      ensures Tier(a', price, at) == Tier(b', price, at)
    {
      TierButLast(a, price, at);
      TierButLast(b, price, at);
    }
  }

  lemma SameEmptiness(a: seq<Order>, b: seq<Order>)
    requires SameTiers(a, b)
    ensures a == [] <==> b == []
  {
    if a != [] {
      TierMember(a, |a| - 1);
    }
    if b != [] {
      TierMember(b, |b| - 1);
    }
  }

  /** A stable sort is determined by its input. */
  lemma {:induction false} StableSortUnique(isBids: bool, a: seq<Order>, b: seq<Order>)
    requires Sorted(isBids, a) && Sorted(isBids, b)
    requires SameTiers(a, b)
    ensures a == b
  {
    SameEmptiness(a, b);
    if a != [] {
      SameLast(isBids, a, b);
      SameButLast(a, b);
      StableSortUnique(isBids, a[..|a| - 1], b[..|b| - 1]);
      assert a == a[..|a| - 1] + [a[|a| - 1]] && b == b[..|b| - 1] + [b[|b| - 1]];
    }
  }

  /** Where one new order settles when it bubbles left past every order it strictly precedes. */
  function Insert(isBids: bool, s: seq<Order>, o: Order): (r: seq<Order>)
    ensures |r| == |s| + 1
  {
    if s == [] then [o]
    else
      var last := s[|s| - 1];
      if Before(isBids, o, last) then Insert(isBids, s[..|s| - 1], o) + [last] else s + [o]
  }

  lemma {:induction false} InsertElements(isBids: bool, s: seq<Order>, o: Order)
    ensures multiset(Insert(isBids, s, o)) == multiset(s) + multiset{o}
  {
    if s != [] {
      var s', last := s[..|s| - 1], s[|s| - 1];
      assert s == s' + [last];
      if Before(isBids, o, last) {
        InsertElements(isBids, s', o);
      }
    }
  }

  lemma LastStaysLast(isBids: bool, s: seq<Order>, o: Order)
    requires s != [] && Sorted(isBids, s) && Before(isBids, o, s[|s| - 1])
    ensures var r := Insert(isBids, s[..|s| - 1], o);
            forall i :: 0 <= i < |r| ==> !Before(isBids, s[|s| - 1], r[i])
  {
    var s', last := s[..|s| - 1], s[|s| - 1];
    var r := Insert(isBids, s', o);
    InsertElements(isBids, s', o);
    forall i | 0 <= i < |r|
      ensures !Before(isBids, last, r[i])
    {
      assert r[i] in multiset(r);
    }
  }

  lemma {:induction false} InsertSorted(isBids: bool, s: seq<Order>, o: Order)
    requires Sorted(isBids, s)
    ensures Sorted(isBids, Insert(isBids, s, o))
  {
    if s != [] {
      var s', last := s[..|s| - 1], s[|s| - 1];
      if Before(isBids, o, last) {
        InsertSorted(isBids, s', o);
        LastStaysLast(isBids, s, o);
        assert Insert(isBids, s, o) == Insert(isBids, s', o) + [last];
      }
    }
  }

  lemma {:induction false} InsertTier(isBids: bool, s: seq<Order>, o: Order, price: int, at: int)
    ensures Tier(Insert(isBids, s, o), price, at) == Tier(s + [o], price, at)
  {
    assert (s + [o])[..|s|] == s;
    if s != [] {
      var s', last := s[..|s| - 1], s[|s| - 1];
      if Before(isBids, o, last) {
        InsertTier(isBids, s', o, price, at);
        var r := Insert(isBids, s', o);
        assert (r + [last])[..|r|] == r;
        assert (s' + [o])[..|s'|] == s';
      }
    }
  }

  /** `s` with `o` squeezed in at position `at`. */
  function Slot(s: seq<Order>, o: Order, at: nat): (r: seq<Order>)
    requires at <= |s|
    ensures |r| == |s| + 1 && r[at] == o
  {
    s[..at] + [o] + s[at..]
  }

  /** Swapping the new order with its left neighbour moves its slot by one. */
  lemma SlotStep(s: seq<Order>, o: Order, i: nat)
    requires i < |s|
    ensures Slot(s, o, i + 1)[i] == s[i]
    ensures Slot(s, o, i + 1)[i := o][i + 1 := s[i]] == Slot(s, o, i)
  {
  }

  lemma {:induction false} InsertAt(isBids: bool, s: seq<Order>, o: Order, at: nat)
    requires at <= |s| && (at == 0 || !Before(isBids, o, s[at - 1]))
    requires forall k :: at <= k < |s| ==> Before(isBids, o, s[k])
    ensures Insert(isBids, s, o) == Slot(s, o, at)
  {
    if at < |s| {
      InsertAt(isBids, s[..|s| - 1], o, at);
    }
  }

  /** Inserting the orders of `s` one after the other into an empty side. */
  function InsertAll(isBids: bool, s: seq<Order>): seq<Order> {
    if s == [] then [] else Insert(isBids, InsertAll(isBids, s[..|s| - 1]), s[|s| - 1])
  }

  lemma {:induction false} InsertAllIsStableSort(isBids: bool, s: seq<Order>)
    ensures IsStableSort(isBids, s, InsertAll(isBids, s))
  {
    if s != [] {
      var s', last := s[..|s| - 1], s[|s| - 1];
      InsertAllIsStableSort(isBids, s');
      var r := InsertAll(isBids, s');
      InsertSorted(isBids, r, last);
      forall price, at
        ensures Tier(Insert(isBids, r, last), price, at) == Tier(s, price, at)
      {
        InsertTier(isBids, r, last, price, at);
        assert (r + [last])[..|r|] == r;
      }
    }
  }

  /** Incremental insertion and a stable sort are the same thing, in both directions. */
  lemma StableSortIsInsertAll(isBids: bool, input: seq<Order>, output: seq<Order>)
    ensures IsStableSort(isBids, input, output) <==> output == InsertAll(isBids, input)
  {
    InsertAllIsStableSort(isBids, input);
    if IsStableSort(isBids, input, output) {
      StableSortUnique(isBids, output, InsertAll(isBids, input));
    }
  }

  lemma {:induction false} InsertAllElements(isBids: bool, s: seq<Order>)
    ensures multiset(InsertAll(isBids, s)) == multiset(s)
  {
    if s != [] {
      InsertAllElements(isBids, s[..|s| - 1]);
      InsertElements(isBids, InsertAll(isBids, s[..|s| - 1]), s[|s| - 1]);
      assert s == s[..|s| - 1] + [s[|s| - 1]];
    }
  }

  /** Sorting what is already in order changes nothing. */
  lemma SortedIsFixed(isBids: bool, s: seq<Order>)
    requires Sorted(isBids, s)
    ensures InsertAll(isBids, s) == s
  {
    StableSortIsInsertAll(isBids, s, s);
  }

  // ----- the in-place algorithms -----

  /** Moves `orders[n]` left within the sorted prefix, one swap at a time. */
  method BubbleDown(orders: array<Order>, n: nat, isBids: bool)
    requires n < orders.Length
    modifies orders
    ensures orders[..n + 1] == Insert(isBids, old(orders[..n]), old(orders[n]))
    ensures orders[n + 1..] == old(orders[n + 1..])
  {
    ghost var before := orders[..n];
    var newOrder := orders[n];
    var i := n - 1;
    while i >= 0
      invariant -1 <= i < n
      invariant orders[..n + 1] == Slot(before, newOrder, i + 1)
      invariant forall k :: i < k < n ==> Before(isBids, newOrder, before[k])
      invariant orders[n + 1..] == old(orders[n + 1..])
    {
      ghost var current := orders[..n + 1];
      SlotStep(before, newOrder, i);
      assert orders[i] == current[i] && orders[i + 1] == current[i + 1];
      if !Before(isBids, newOrder, orders[i]) {
        break;
      }
      orders[i + 1], orders[i] := orders[i], orders[i + 1];
      assert orders[..n + 1] == current[i := newOrder][i + 1 := before[i]];
      i := i - 1;
    }
    InsertAt(isBids, before, newOrder, i + 1);
  }

  /** Puts a freshly appended order in its place. */
  method InsertOrderSorted(orders: array<Order>, isBids: bool)
    modifies orders
    ensures orders.Length == 0 ==> orders[..] == old(orders[..])
    ensures orders.Length > 0 ==>
              orders[..] == Insert(isBids, old(orders[..orders.Length - 1]), old(orders[orders.Length - 1]))
  {
    if orders.Length <= 1 {
      return;
    }
    BubbleDown(orders, orders.Length - 1, isBids);
    assert orders[..orders.Length] == orders[..];
  }

  /** Sorts a whole side in place; the result is the stable sort of what was there. */
  method SortOrdersOptimized(orders: array<Order>, isBids: bool)
    modifies orders
    ensures IsStableSort(isBids, old(orders[..]), orders[..])
  {
    ghost var input := orders[..];
    for n := 0 to orders.Length
      invariant orders[..n] == InsertAll(isBids, input[..n])
      invariant orders[n..] == input[n..]
    {
      assert orders[n] == orders[n..][0] == input[n];
      assert input[..n + 1][..n] == input[..n];
      assert orders[n + 1..] == orders[n..][1..];
      BubbleDown(orders, n, isBids);
    }
    assert input[..orders.Length] == input && orders[..orders.Length] == orders[..];
    InsertAllIsStableSort(isBids, input);
  }

  /** A sorted copy of a side. */
  method SortSide(side: seq<Order>, isBids: bool) returns (r: seq<Order>)
    ensures r == InsertAll(isBids, side)
  {
    var orders := new Order[|side|](i requires 0 <= i < |side| => side[i]);
    assert orders[..] == side;
    SortOrdersOptimized(orders, isBids);
    r := orders[..];
    StableSortIsInsertAll(isBids, side, r);
  }
}
