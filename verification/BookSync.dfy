/**
 Leader-to-follower book synchronisation: the snapshot hash, the sync handler, and convergence.
 The hash function is a parameter; messages are values, since they travel as JSON.
 */
module BookSync {
  import opened Options
  import opened Orders
  import opened Matching
  import opened Books
  import opened Runs
  import opened Engine

  datatype SyncMessage = SyncMessage(
    pair: string, snapshotHash: string, bids: seq<Order>, asks: seq<Order>, leaderId: string)

  // ----- the text a snapshot hash is taken of -----

  function Digit(d: nat): char
    requires d < 10
  {
    ('0' as int + d) as char
  }

  function Decimal(n: nat): (r: string)
    ensures |r| >= 1 && (n >= 10 ==> |r| >= 2)
  {
    if n < 10 then [Digit(n)] else Decimal(n / 10) + [Digit(n % 10)]
  }

  /** Every token preceded by a dash. */
  function Dashed(tokens: seq<string>): string {
    if tokens == [] then "" else "-" + tokens[0] + Dashed(tokens[1..])
  }

  function IdsOf(s: seq<Order>): seq<string> {
    seq(|s|, i requires 0 <= i < |s| => s[i].orderId)
  }

  function SnapshotTokens(b: Book): seq<string> {
    [Decimal(|b.bids|), Decimal(|b.asks|)] + IdsOf(b.bids) + IdsOf(b.asks)
  }

  function SnapshotData(pair: string, b: Book): string {
    pair + Dashed(SnapshotTokens(b))
  }

  lemma {:induction false} DashedConcat(a: seq<string>, b: seq<string>)
    ensures Dashed(a + b) == Dashed(a) + Dashed(b)
  {
    if a == [] {
      assert a + b == b;
    } else {
      DashedConcat(a[1..], b);
      assert (a + b)[1..] == a[1..] + b;
    }
  }

  function Dashes(s: string): nat {
    if s == "" then 0 else (if s[0] == '-' then 1 else 0) + Dashes(s[1..])
  }

  lemma {:induction false} DashesConcat(a: string, b: string)
    ensures Dashes(a + b) == Dashes(a) + Dashes(b)
  {
    if a == "" {
      assert a + b == b;
    } else {
      DashesConcat(a[1..], b);
      assert (a + b)[1..] == a[1..] + b;
    }
  }

  /** A token that runs on past a dash holds more dashes. */
  lemma LongerToken(a: string, b: string, x: string, y: string)
    requires a + x == b + y && |a| < |b| && (x == "" || x[0] == '-')
    ensures Dashes(b) > Dashes(a)
  {
    var more := x[..|b| - |a|];
    assert (a + x)[..|b|] == a + more && (b + y)[..|b|] == b;
    DashesConcat(a, more);
  }

  /** A token before a dash, or before the end, can be read off if one knows how many dashes it holds. */
  lemma FirstToken(a: string, b: string, x: string, y: string)
    requires Dashes(a) == Dashes(b) && a + x == b + y
    requires (x == "" || x[0] == '-') && (y == "" || y[0] == '-')
    ensures a == b && x == y
  {
    if |a| < |b| {
      LongerToken(a, b, x, y);
    } else if |b| < |a| {
      LongerToken(b, a, y, x);
    } else {
      assert (a + x)[..|a|] == a && (b + y)[..|b|] == b;
      assert (a + x)[|a|..] == x && (b + y)[|b|..] == y;
    }
  }

  lemma {:induction false} DashedInjective(a: seq<string>, b: seq<string>)
    requires Dashed(a) == Dashed(b)
    requires forall i :: 0 <= i < |a| && i < |b| ==> Dashes(a[i]) == Dashes(b[i])
    ensures a == b
  {
    if a != [] && b != [] {
      var x, y := Dashed(a[1..]), Dashed(b[1..]);
      assert Dashed(a)[1..] == a[0] + x && Dashed(b)[1..] == b[0] + y;
      FirstToken(a[0], b[0], x, y);
      forall i | 0 <= i < |a[1..]| && i < |b[1..]|
        ensures Dashes(a[1..][i]) == Dashes(b[1..][i])
      {
        assert a[1..][i] == a[i + 1] && b[1..][i] == b[i + 1];
      }
      DashedInjective(a[1..], b[1..]);
      assert a == [a[0]] + a[1..] && b == [b[0]] + b[1..];
    }
  }

  lemma {:induction false} DecimalFacts(m: nat, n: nat)
    ensures Dashes(Decimal(m)) == 0
    ensures Decimal(m) == Decimal(n) ==> m == n
    decreases m
  {
    if m >= 10 {
      DecimalFacts(m / 10, n / 10);
      DashesConcat(Decimal(m / 10), [Digit(m % 10)]);
    }
    assert Dashes([Digit(m % 10)]) == 0;
    if Decimal(m) == Decimal(n) {
      var w := Decimal(m);
      assert w[|w| - 1] == Digit(m % 10) && w[|w| - 1] == Digit(n % 10);
      if m >= 10 && n >= 10 {
        assert w[..|w| - 1] == Decimal(m / 10) && w[..|w| - 1] == Decimal(n / 10);
      }
    }
  }

  /** The decimal number a text spells. */
  function Spelled(s: string): int {
    if s == "" then 0 else Spelled(s[..|s| - 1]) * 10 + (s[|s| - 1] as int - '0' as int)
  }

  /** Numbers are written in the digits 0 to 9, without leading zeros. */
  lemma {:induction false} DecimalSpells(n: nat)
    ensures var s := Decimal(n);
            Spelled(s) == n && (forall i :: 0 <= i < |s| ==> '0' <= s[i] <= '9') && (|s| > 1 ==> s[0] != '0')
  {
    if n >= 10 {
      DecimalSpells(n / 10);
      assert Decimal(n)[..|Decimal(n)| - 1] == Decimal(n / 10);
      if |Decimal(n / 10)| == 1 {
        assert Decimal(n / 10) == [Digit(n / 10)];
      }
    } else {
      assert Spelled([]) == 0 && [Digit(n)][..0] == [];
    }
  }

  /** The text is the pair, the number of bids, the number of asks and the IDs, joined by dashes. */
  lemma SnapshotSpelledOut(pair: string, b: Book, id: string)
    ensures SnapshotData(pair, Book([], [])) == pair + "-0-0"
    ensures SnapshotData(pair, b)
            == pair + "-" + Decimal(|b.bids|) + "-" + Decimal(|b.asks|) + Dashed(IdsOf(b.bids)) + Dashed(IdsOf(b.asks))
    ensures Dashed([]) == "" && Dashed([id]) == "-" + id
  {
    var counts, bids, asks := [Decimal(|b.bids|), Decimal(|b.asks|)], IdsOf(b.bids), IdsOf(b.asks);
    DashedConcat(counts + bids, asks);
    DashedConcat(counts, bids);
    assert counts[1..][1..] == [] && counts[1..][0] == counts[1];
    assert Dashed(counts) == "-" + counts[0] + ("-" + counts[1]);
    assert [id][1..] == [];
    assert IdsOf([]) == [];
    assert SnapshotTokens(Book([], [])) == ["0", "0"];
    assert ["0", "0"][1..] == ["0"] && ["0"][1..] == [];
    assert Dashed(["0", "0"]) == "-" + "0" + ("-" + "0");
  }

  /** Every ID in the book holds so many dashes, as IDs of one format do. */
  ghost predicate DashesPerId(b: Book, dashes: nat) {
    forall o :: o in b.bids || o in b.asks ==> Dashes(o.orderId) == dashes
  }

  /**
   Two books of a pair give the same snapshot text if they list the same IDs in the same order,
   and, when all IDs hold the same number of dashes, only if they do.  Remainders do not matter.
   */
  lemma SnapshotIsIds(pair: string, a: Book, b: Book, dashes: nat)
    ensures IdsOf(a.bids) == IdsOf(b.bids) && IdsOf(a.asks) == IdsOf(b.asks) ==>
              SnapshotData(pair, a) == SnapshotData(pair, b)
    ensures DashesPerId(a, dashes) && DashesPerId(b, dashes) && SnapshotData(pair, a) == SnapshotData(pair, b) ==>
              IdsOf(a.bids) == IdsOf(b.bids) && IdsOf(a.asks) == IdsOf(b.asks)
  {
    if IdsOf(a.bids) == IdsOf(b.bids) && IdsOf(a.asks) == IdsOf(b.asks) {
      assert |a.bids| == |IdsOf(a.bids)| == |b.bids| && |a.asks| == |IdsOf(a.asks)| == |b.asks|;
    }
    if DashesPerId(a, dashes) && DashesPerId(b, dashes) && SnapshotData(pair, a) == SnapshotData(pair, b) {
      var s, t := SnapshotTokens(a), SnapshotTokens(b);
      assert Dashed(s) == SnapshotData(pair, a)[|pair|..] && Dashed(t) == SnapshotData(pair, b)[|pair|..];
      TokenDashes(a, dashes);
      TokenDashes(b, dashes);
      DashedInjective(s, t);
      SameTokens(a, b);
    }
  }

  /** The counts in front say where the bids end. */
  lemma SameTokens(a: Book, b: Book)
    requires SnapshotTokens(a) == SnapshotTokens(b)
    ensures IdsOf(a.bids) == IdsOf(b.bids) && IdsOf(a.asks) == IdsOf(b.asks)
  {
    var s, t := SnapshotTokens(a), SnapshotTokens(b);
    assert s[0] == t[0] && s[1] == t[1];
    DecimalFacts(|a.bids|, |b.bids|);
    DecimalFacts(|a.asks|, |b.asks|);
    assert IdsOf(a.bids) == s[2..2 + |a.bids|] && IdsOf(b.bids) == t[2..2 + |b.bids|];
    assert IdsOf(a.asks) == s[2 + |a.bids|..] && IdsOf(b.asks) == t[2 + |b.bids|..];
  }

  lemma TokenDashes(b: Book, dashes: nat)
    requires DashesPerId(b, dashes)
    ensures forall i :: 0 <= i < |SnapshotTokens(b)| ==> Dashes(SnapshotTokens(b)[i]) == if i < 2 then 0 else dashes
  {
    DecimalFacts(|b.bids|, 0);
    DecimalFacts(|b.asks|, 0);
    forall i | 0 <= i < |SnapshotTokens(b)|
      ensures Dashes(SnapshotTokens(b)[i]) == if i < 2 then 0 else dashes
    {
      if i >= 2 + |b.bids| {
        assert b.asks[i - 2 - |b.bids|] in b.asks;
      } else if i >= 2 {
        assert b.bids[i - 2] in b.bids;
      }
    }
  }

  /** An ID with so many dashes. */
  function Hyphenated(dashes: nat): string {
    if dashes == 0 then "a" else "a-" + Hyphenated(dashes - 1)
  }

  lemma {:induction false} HyphenatedDashes(d: nat)
    ensures Dashes(Hyphenated(d)) == d
  {
    if d == 0 {
      assert "a"[1..] == "";
    } else {
      HyphenatedDashes(d - 1);
      DashesConcat("a-", Hyphenated(d - 1));
      assert "a-"[1..] == "-" && "-"[1..] == "";
    }
  }

  /** Joined by a dash, two such IDs read the same in either order. */
  lemma {:induction false} HyphenatedJoin(d: nat, e: nat)
    ensures Hyphenated(d) + "-" + Hyphenated(e) == Hyphenated(d + e + 1)
  {
    if d == 0 {
      assert "a" + "-" == "a-";
    } else {
      HyphenatedJoin(d - 1, e);
      assert Hyphenated(d) + "-" + Hyphenated(e) == "a-" + (Hyphenated(d - 1) + "-" + Hyphenated(e));
    }
  }

  /** A book of two bids with these IDs. */
  function TwoBids(o: Order, first: string, second: string): Book {
    Book([o.(orderId := first), o.(orderId := second)], [])
  }

  lemma TwoBidsText(pair: string, o: Order, x: string, y: string)
    ensures SnapshotData(pair, TwoBids(o, x, y)) == pair + (Dashed([Decimal(2), Decimal(0)]) + ("-" + (x + "-" + y)))
  {
    var counts := [Decimal(2), Decimal(0)];
    assert SnapshotTokens(TwoBids(o, x, y)) == counts + [x, y];
    DashedConcat(counts, [x, y]);
    assert [x, y][1..] == [y] && [y][1..] == [];
    assert Dashed([y]) == "-" + y;
    assert Dashed([x, y]) == "-" + x + ("-" + y) == "-" + (x + "-" + y);
  }

  /** Two IDs with different numbers of dashes: listed in either order, one text. */
  lemma DashesAreAmbiguous(pair: string, o: Order, d: nat, e: nat)
    requires d != e
    ensures var a := TwoBids(o, Hyphenated(d), Hyphenated(e));
            var b := TwoBids(o, Hyphenated(e), Hyphenated(d));
            Dashes(Hyphenated(d)) == d && Dashes(Hyphenated(e)) == e
            && IdsOf(a.bids) != IdsOf(b.bids) && SnapshotData(pair, a) == SnapshotData(pair, b)
  {
    var x, y := Hyphenated(d), Hyphenated(e);
    HyphenatedDashes(d);
    HyphenatedDashes(e);
    HyphenatedJoin(d, e);
    HyphenatedJoin(e, d);
    TwoBidsText(pair, o, x, y);
    TwoBidsText(pair, o, y, x);
    assert IdsOf(TwoBids(o, x, y).bids)[0] == x && IdsOf(TwoBids(o, y, x).bids)[0] == y;
  }

  /** The numbers of dashes in the IDs of a book are among those admitted. */
  ghost predicate InFormat(b: Book, admitted: iset<nat>) {
    forall o :: o in b.bids || o in b.asks ==> Dashes(o.orderId) in admitted
  }

  /** Books whose IDs are of these formats have the same text only if they list the same IDs. */
  ghost predicate ToldApart(pair: string, admitted: iset<nat>) {
    forall a, b :: InFormat(a, admitted) && InFormat(b, admitted) && SnapshotData(pair, a) == SnapshotData(pair, b) ==>
      IdsOf(a.bids) == IdsOf(b.bids) && IdsOf(a.asks) == IdsOf(b.asks)
  }

  lemma OneFormatToldApart(pair: string, admitted: iset<nat>, a: Book, b: Book)
    requires forall d, e :: d in admitted && e in admitted ==> d == e
    requires InFormat(a, admitted) && InFormat(b, admitted) && SnapshotData(pair, a) == SnapshotData(pair, b)
    ensures IdsOf(a.bids) == IdsOf(b.bids) && IdsOf(a.asks) == IdsOf(b.asks)
  {
    if d :| d in admitted {
      SnapshotIsIds(pair, a, b, d);
    } else {
      SnapshotIsIds(pair, a, b, 0);
    }
  }

  const SOME_ORDER := Order("", "", "", "buy", Some(1), Some(1), 0, Open, 0, 0)

  /** Snapshot texts tell the ID lists of all books apart if and only if IDs come in one dash count. */
  lemma ToldApartIffOneFormat(pair: string, admitted: iset<nat>)
    ensures ToldApart(pair, admitted) <==> forall d, e :: d in admitted && e in admitted ==> d == e
  {
    if forall d, e :: d in admitted && e in admitted ==> d == e {
      forall a, b
        | InFormat(a, admitted) && InFormat(b, admitted) && SnapshotData(pair, a) == SnapshotData(pair, b)
        ensures IdsOf(a.bids) == IdsOf(b.bids) && IdsOf(a.asks) == IdsOf(b.asks)
      {
        OneFormatToldApart(pair, admitted, a, b);
      }
    } else {
      var d, e :| d in admitted && e in admitted && d != e;
      DashesAreAmbiguous(pair, SOME_ORDER, d, e);
      var a := TwoBids(SOME_ORDER, Hyphenated(d), Hyphenated(e));
      var b := TwoBids(SOME_ORDER, Hyphenated(e), Hyphenated(d));
      assert InFormat(a, admitted) && InFormat(b, admitted);
    }
  }

  /** Equal snapshots do not mean equal books: a follower whose remainders differ counts as in sync. */
  lemma RemaindersAreNotCompared(pair: string, o: Order, left: int)
    ensures SnapshotData(pair, Book([o], [])) == SnapshotData(pair, Book([o.(amount := Some(left), filled := 0)], []))
  {
    SnapshotIsIds(pair, Book([o], []), Book([o.(amount := Some(left), filled := 0)], []), 0);
    assert IdsOf([o]) == IdsOf([o.(amount := Some(left), filled := 0)]);
  }

  // ----- a follower that applies a snapshot -----

  /** A leader's book that may be sent: in order, identified, and nothing in it expired. */
  ghost predicate Sendable(b: Book, now: int) {
    BookInv(b) && forall o :: o in b.bids || o in b.asks ==> o.orderId != "" && !o.Expired(now)
  }

  function Rested(s: seq<Order>): seq<Order> {
    seq(|s|, i requires 0 <= i < |s| => s[i].Resting())
  }

  lemma {:induction false} KeptIsRested(s: seq<Order>, now: int)
    requires Positive(s) && forall o :: o in s ==> o.orderId != "" && !o.Expired(now)
    ensures Kept(s, now) == Rested(s)
  {
    if s != [] {
      var s', last := s[..|s| - 1], s[|s| - 1];
      KeptIsRested(s', now);
      assert s == s' + [last];
      KeptOneMore(s', last, now);
      assert Rested(s) == Rested(s') + [last.Resting()];
    }
  }

  lemma RestedSide(isBids: bool, s: seq<Order>, now: int)
    requires Sorted(isBids, s) && Positive(s) && forall o :: o in s ==> o.orderId != "" && !o.Expired(now)
    ensures InsertAll(isBids, Kept(s, now)) == Rested(s)
    ensures IdsOf(Rested(s)) == IdsOf(s)
  {
    KeptIsRested(s, now);
    forall i, j | 0 <= i < j < |s|
      ensures !Before(isBids, Rested(s)[j], Rested(s)[i])
    {
      assert !Before(isBids, s[j], s[i]);
    }
    SortedIsFixed(isBids, Rested(s));
  }

  /**
   Whatever the follower held before, a full snapshot leaves it with the leader's IDs in the
   leader's order, each with the leader's remainder, price and time, and with the leader's hash.
   */
  lemma FollowerConverges(follower: State, pair: string, leader: Book, now: int)
    requires pair != "" && Sendable(leader, now)
    ensures var b := BookOf(Replace(follower, pair, leader.bids, leader.asks, now), pair);
            b == Book(Rested(leader.bids), Rested(leader.asks))
            && IdsOf(b.bids) == IdsOf(leader.bids) && IdsOf(b.asks) == IdsOf(leader.asks)
            && SnapshotData(pair, b) == SnapshotData(pair, leader)
  {
    RestedSide(true, leader.bids, now);
    RestedSide(false, leader.asks, now);
    SnapshotIsIds(pair, BookOf(Replace(follower, pair, leader.bids, leader.asks, now), pair), leader, 0);
  }

  // ----- level snapshots -----

  datatype Level = Level(price: int, quantity: int)

  /** The remainder resting at one price; orders without a price or a remainder do not count. */
  function AtPrice(s: seq<Order>, price: int): int {
    if s == [] then 0
    else
      var last := s[|s| - 1];
      AtPrice(s[..|s| - 1], price)
      + if last.price == Some(price) && last.Left() > 0 then last.Left() else 0
  }

  /** Remainders at a price add up order by order. */
  lemma {:induction false} AtPriceAddsUp(a: seq<Order>, b: seq<Order>, o: Order, price: int)
    ensures AtPrice([], price) == 0
    ensures AtPrice([o], price)
            == if o.price == Some(price) && o.amount.GetOr(0) > o.filled then o.amount.GetOr(0) - o.filled else 0
    ensures AtPrice(a + b, price) == AtPrice(a, price) + AtPrice(b, price)
  {
    assert AtPrice([o][..0], price) == 0;
    if b == [] {
      assert a + b == a;
    } else {
      AtPriceAddsUp(a, b[..|b| - 1], o, price);
      assert (a + b)[..|a + b| - 1] == a + b[..|b| - 1];
    }
  }

  lemma {:induction false} AtPriceNonNegative(s: seq<Order>, price: int)
    ensures AtPrice(s, price) >= 0
  {
    if s != [] {
      AtPriceNonNegative(s[..|s| - 1], price);
    }
  }

  /** Strictly improving ranks: no price occurs twice. */
  predicate Ladder(isBids: bool, levels: seq<Level>) {
    forall i, j :: 0 <= i < j < |levels| ==> Rank(isBids, levels[i].price) < Rank(isBids, levels[j].price)
  }

  /** A ladder with one level for each price with something resting, holding all of it. */
  ghost predicate AreLevels(isBids: bool, s: seq<Order>, levels: seq<Level>) {
    Ladder(isBids, levels)
    && forall l :: l in levels <==> l.quantity == AtPrice(s, l.price) > 0
  }

  ghost predicate Lists(m: map<int, int>, keys: seq<int>) {
    (forall p :: p in m <==> p in keys) && forall i, j :: 0 <= i < j < |keys| ==> keys[i] != keys[j]
  }

  /** The remainders by price, with the prices listed in some order. */
  method Collect(orders: seq<Order>) returns (m: map<int, int>, keys: seq<int>)
    ensures Lists(m, keys)
    ensures forall p :: p in m <==> AtPrice(orders, p) > 0
    ensures forall p :: p in m ==> m[p] == AtPrice(orders, p)
  {
    m, keys := map[], [];
    for i := 0 to |orders|
      invariant Lists(m, keys)
      invariant forall p :: p in m <==> AtPrice(orders[..i], p) > 0
      invariant forall p :: p in m ==> m[p] == AtPrice(orders[..i], p)
    {
      var o := orders[i];
      assert orders[..i + 1][..i] == orders[..i];
      if o.price.Some? && o.Left() > 0 {
        var p := o.price.value;
        AtPriceNonNegative(orders[..i], p);
        if p !in m {
          m, keys := m[p := 0], keys + [p];
        }
        m := m[p := m[p] + o.Left()];
      }
    }
    assert orders[..|orders|] == orders;
  }

  /** Collects remainders by price in a map, then lists and sorts them. */
  method Aggregate(orders: seq<Order>, isBids: bool) returns (levels: seq<Level>)
    ensures AreLevels(isBids, orders, levels)
  {
    var m, keys := Collect(orders);
    levels := [];
    for i := 0 to |keys|
      invariant Ladder(isBids, levels)
      invariant forall l :: l in levels <==> l.price in keys[..i] && l.quantity == m[l.price]
    {
      assert keys[i] in keys;
      var l := Level(keys[i], m[keys[i]]);
      assert keys[..i + 1] == keys[..i] + [keys[i]];
      InsertLevelMembers(levels, l, isBids);
      InsertLevelLadder(levels, l, isBids);
      levels := InsertLevel(levels, l, isBids);
    }
    assert keys[..|keys|] == keys;
  }

  function InsertLevel(levels: seq<Level>, l: Level, isBids: bool): seq<Level> {
    if levels == [] || Rank(isBids, l.price) < Rank(isBids, levels[0].price) then [l] + levels
    else [levels[0]] + InsertLevel(levels[1..], l, isBids)
  }

  lemma {:induction false} InsertLevelMembers(levels: seq<Level>, l: Level, isBids: bool)
    ensures forall x :: x in InsertLevel(levels, l, isBids) <==> x in levels || x == l
  {
    if levels != [] && Rank(isBids, l.price) >= Rank(isBids, levels[0].price) {
      InsertLevelMembers(levels[1..], l, isBids);
      assert levels == [levels[0]] + levels[1..];
    }
  }

  lemma InsertLevelAbove(top: Level, levels: seq<Level>, l: Level, isBids: bool)
    requires Ladder(isBids, [top] + levels) && Rank(isBids, top.price) < Rank(isBids, l.price)
    ensures forall x :: x in InsertLevel(levels, l, isBids) ==> Rank(isBids, top.price) < Rank(isBids, x.price)
  {
    InsertLevelMembers(levels, l, isBids);
    forall x | x in levels
      ensures Rank(isBids, top.price) < Rank(isBids, x.price)
    {
      var i :| 0 <= i < |levels| && levels[i] == x;
      assert ([top] + levels)[0] == top && ([top] + levels)[i + 1] == x;
    }
  }

  lemma {:induction false} InsertLevelLadder(levels: seq<Level>, l: Level, isBids: bool)
    requires Ladder(isBids, levels) && forall x :: x in levels ==> x.price != l.price
    ensures Ladder(isBids, InsertLevel(levels, l, isBids))
  {
    if levels != [] && Rank(isBids, l.price) >= Rank(isBids, levels[0].price) {
      var rest := levels[1..];
      InsertLevelLadder(rest, l, isBids);
      assert levels[0] in levels && levels == [levels[0]] + rest;
      InsertLevelAbove(levels[0], rest, l, isBids);
    }
  }

  datatype LevelSnapshot = LevelSnapshot(pair: string, bids: seq<Level>, asks: seq<Level>)

  /** Bids from the highest price down, asks from the lowest up. */
  method OrdersToLevelSnapshot(pair: string, bids: seq<Order>, asks: seq<Order>) returns (r: Option<LevelSnapshot>)
    ensures r.Some? <==> pair != ""
    ensures r.Some? ==>
              r.value.pair == pair && AreLevels(true, bids, r.value.bids) && AreLevels(false, asks, r.value.asks)
  {
    if pair == "" {
      return None;
    }
    var bidLevels := Aggregate(bids, true);
    var askLevels := Aggregate(asks, false);
    return Some(LevelSnapshot(pair, bidLevels, askLevels));
  }

  // ----- the manager -----

  datatype Handled = Invalid | Ignored | InSync | Applied | Requested

  class OrderbookSyncManager {
    const engine: Engine
    const localPeerId: string
    const sha: string -> string
    /** The leader the consensus engine reports. */
    var leader: string
    var syncedPairs: set<string>
    var lastSyncTime: map<string, int>
    var syncConflicts: map<string, int>
    var networkPartition: bool

    constructor (engine: Engine, localPeerId: string, sha: string -> string, leader: string)
      ensures this.engine == engine && this.localPeerId == localPeerId && this.sha == sha && this.leader == leader
      ensures syncedPairs == {} && lastSyncTime == map[] && syncConflicts == map[] && !networkPartition
    {
      this.engine, this.localPeerId, this.sha, this.leader := engine, localPeerId, sha, leader;
      syncedPairs, lastSyncTime, syncConflicts, networkPartition := {}, map[], map[], false;
    }

    function Conflicts(pair: string): int
      reads this`syncConflicts
    {
      if pair in syncConflicts then syncConflicts[pair] else 0
    }

    /** The hash of the books this node holds for a pair. */
    ghost function LocalHash(pair: string): string
      reads engine`pairs, engine`orderIDToPair, engine.pairs.Values
    {
      sha(SnapshotData(pair, BookOf(engine.Abs(), pair)))
    }

    method SnapshotHash(pair: string, bids: seq<Order>, asks: seq<Order>) returns (hash: string)
      ensures hash == sha(SnapshotData(pair, Book(bids, asks)))
    {
      var counts := [Decimal(|bids|), Decimal(|asks|)];
      var data := pair + Dashed(counts);
      assert counts + IdsOf(bids[..0]) == counts;
      for i := 0 to |bids|
        invariant data == pair + Dashed(counts + IdsOf(bids[..i]))
      {
        assert counts + IdsOf(bids[..i + 1]) == counts + IdsOf(bids[..i]) + [bids[i].orderId];
        DashedConcat(counts + IdsOf(bids[..i]), [bids[i].orderId]);
        data := data + "-" + bids[i].orderId;
      }
      assert bids[..|bids|] == bids && asks[..|asks|] == asks;
      assert counts + IdsOf(bids) + IdsOf(asks[..0]) == counts + IdsOf(bids);
      for i := 0 to |asks|
        invariant data == pair + Dashed(counts + IdsOf(bids) + IdsOf(asks[..i]))
      {
        assert counts + IdsOf(bids) + IdsOf(asks[..i + 1])
            == counts + IdsOf(bids) + IdsOf(asks[..i]) + [asks[i].orderId];
        DashedConcat(counts + IdsOf(bids) + IdsOf(asks[..i]), [asks[i].orderId]);
        data := data + "-" + asks[i].orderId;
      }
      return sha(data);
    }

    /** The leader's answer to a request for a full book. */
    method HandleOrderbookRequest(pair: string) returns (reply: Option<SyncMessage>)
      requires engine.Valid()
      ensures reply.Some? <==> pair != "" && leader == localPeerId
      ensures reply.Some? ==>
                var b := BookOf(engine.Abs(), pair);
                reply.value == SyncMessage(pair, LocalHash(pair), b.bids, b.asks, localPeerId)
    {
      if pair == "" || leader != localPeerId {
        return None;
      }
      var bids, asks := engine.GetOrderbook(pair);
      var hash := SnapshotHash(pair, bids, asks);
      return Some(SyncMessage(pair, hash, bids, asks, localPeerId));
    }

    /** A pair whose book has just been replaced is synced and has no conflicts on record. */
    method MarkSynced(pair: string, now: int)
      modifies this`syncedPairs, this`lastSyncTime, this`syncConflicts, this`networkPartition
      ensures syncedPairs == old(syncedPairs) + {pair} && lastSyncTime == old(lastSyncTime)[pair := now]
      ensures if old(Conflicts(pair)) > 0 then syncConflicts == old(syncConflicts)[pair := 0] && !networkPartition
              else syncConflicts == old(syncConflicts) && networkPartition == old(networkPartition)
    {
      syncedPairs := syncedPairs + {pair};
      lastSyncTime := lastSyncTime[pair := now];
      if Conflicts(pair) > 0 {
        syncConflicts := syncConflicts[pair := 0];
        networkPartition := false;
      }
    }

    /** Replaces the local book by the one received. */
    method ApplySync(msg: SyncMessage, now: int)
      requires engine.Valid()
      modifies this`syncedPairs, this`lastSyncTime, this`syncConflicts, this`networkPartition
      modifies engine`pairs, engine`orderIDToPair
      ensures engine.Valid() && fresh(engine.pairs.Values - old(engine.pairs.Values))
      ensures engine.Abs() == Replace(old(engine.Abs()), msg.pair, msg.bids, msg.asks, now)
      ensures syncedPairs == old(syncedPairs) + {msg.pair} && lastSyncTime == old(lastSyncTime)[msg.pair := now]
      ensures if old(Conflicts(msg.pair)) > 0 then
                syncConflicts == old(syncConflicts)[msg.pair := 0] && !networkPartition
              else
                syncConflicts == old(syncConflicts) && networkPartition == old(networkPartition)
    {
      engine.ReplaceOrderbook(msg.pair, msg.bids, msg.asks, now);
      MarkSynced(msg.pair, now);
    }

    /** Records a mismatch; more than ten in a row look like a network partition. */
    method CountConflict(pair: string)
      modifies this`syncConflicts, this`networkPartition
      ensures syncConflicts == old(syncConflicts)[pair := old(Conflicts(pair)) + 1]
      ensures networkPartition == (old(networkPartition) || old(Conflicts(pair)) >= 10)
    {
      var conflictCount := Conflicts(pair) + 1;
      syncConflicts := syncConflicts[pair := conflictCount];
      if conflictCount > 10 {
        networkPartition := true;
      }
    }

    /** The books differ: take the ones received, if any, or else ask for them. */
    method Resolve(msg: SyncMessage, now: int) returns (r: Handled)
      requires engine.Valid()
      modifies this`syncedPairs, this`lastSyncTime, this`syncConflicts, this`networkPartition
      modifies engine`pairs, engine`orderIDToPair
      ensures engine.Valid() && fresh(engine.pairs.Values - old(engine.pairs.Values))
      ensures r == if msg.bids != [] || msg.asks != [] then Applied else Requested
      ensures engine.Abs() ==
              if r == Applied then Replace(old(engine.Abs()), msg.pair, msg.bids, msg.asks, now)
              else old(engine.Abs())
      ensures syncedPairs == if r == Applied then old(syncedPairs) + {msg.pair} else old(syncedPairs)
      ensures lastSyncTime == if r == Applied then old(lastSyncTime)[msg.pair := now] else old(lastSyncTime)
      ensures r == Requested ==>
                syncConflicts == old(syncConflicts)[msg.pair := old(Conflicts(msg.pair)) + 1]
                && networkPartition == (old(networkPartition) || old(Conflicts(msg.pair)) >= 10)
      ensures r == Applied && old(Conflicts(msg.pair)) >= 0 ==>
                syncConflicts == old(syncConflicts)[msg.pair := 0] && !networkPartition
    {
      CountConflict(msg.pair);
      assert engine.Valid() && engine.Abs() == old(engine.Abs());
      if |msg.bids| > 0 || |msg.asks| > 0 {
        ApplySync(msg, now);
        return Applied;
      }
      return Requested;
    }

    method HashOfLocal(pair: string) returns (hash: string)
      requires engine.Valid()
      ensures hash == old(LocalHash(pair))
    {
      var bids, asks := engine.GetOrderbook(pair);
      hash := SnapshotHash(pair, bids, asks);
    }

    /** Compares hashes first; only a difference leads to a replacement or a request. */
    method HandleSync(msg: SyncMessage, now: int) returns (r: Handled)
      requires engine.Valid()
      modifies this`syncedPairs, this`lastSyncTime, this`syncConflicts, this`networkPartition
      modifies engine`pairs, engine`orderIDToPair
      ensures engine.Valid() && fresh(engine.pairs.Values - old(engine.pairs.Values))
      ensures r == if msg.pair == "" then Invalid
                   else if msg.leaderId != old(leader) then Ignored
                   else if old(LocalHash(msg.pair)) == msg.snapshotHash then InSync
                   else if msg.bids != [] || msg.asks != [] then Applied
                   else Requested
      ensures engine.Abs() ==
              if r == Applied then Replace(old(engine.Abs()), msg.pair, msg.bids, msg.asks, now)
              else old(engine.Abs())
      ensures syncedPairs == if r == InSync || r == Applied then old(syncedPairs) + {msg.pair} else old(syncedPairs)
      ensures lastSyncTime == if r == Applied then old(lastSyncTime)[msg.pair := now] else old(lastSyncTime)
      ensures var conflicts := if msg.pair in old(syncConflicts) then old(syncConflicts)[msg.pair] else 0;
              (r == Requested ==>
                 syncConflicts == old(syncConflicts)[msg.pair := conflicts + 1]
                 && networkPartition == (old(networkPartition) || conflicts >= 10))
              && (r == Applied && conflicts >= 0 ==>
                    syncConflicts == old(syncConflicts)[msg.pair := 0] && !networkPartition)
      ensures r == Invalid || r == Ignored || r == InSync ==>
                syncConflicts == old(syncConflicts) && networkPartition == old(networkPartition)
    {
      if msg.pair == "" {
        return Invalid;
      }
      if msg.leaderId != leader {
        return Ignored;
      }
      var localHash := HashOfLocal(msg.pair);
      if localHash == msg.snapshotHash {
        syncedPairs := syncedPairs + {msg.pair};
        return InSync;
      }
      r := Resolve(msg, now);
    }
  }

  /**
   The whole exchange.  A follower out of step with the leader applies the leader's full snapshot
   and then holds the leader's book; delivered again, the same snapshot finds it in sync.
   */
  method SyncTwice(follower: OrderbookSyncManager, leaderBook: Book, pair: string, now: int, later: int)
    returns (first: Handled, second: Handled)
    requires follower.engine.Valid() && pair != "" && Sendable(leaderBook, now) && leaderBook != EMPTY_BOOK
    requires follower.LocalHash(pair) != follower.sha(SnapshotData(pair, leaderBook))
    modifies follower, follower.engine`pairs, follower.engine`orderIDToPair
    ensures follower.engine.Valid()
    ensures first == Applied && second == InSync
    ensures BookOf(follower.engine.Abs(), pair) == Book(Rested(leaderBook.bids), Rested(leaderBook.asks))
    ensures follower.LocalHash(pair) == follower.sha(SnapshotData(pair, leaderBook))
  {
    var msg := SyncMessage(
      pair, follower.sha(SnapshotData(pair, leaderBook)), leaderBook.bids, leaderBook.asks, follower.leader);
    FollowerConverges(follower.engine.Abs(), pair, leaderBook, now);
    first := follower.HandleSync(msg, now);
    second := follower.HandleSync(msg, later);
  }
}
