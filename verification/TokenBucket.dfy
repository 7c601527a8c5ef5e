/** The order rate limiter: one token bucket per key, and the record of recent hits beside it. */
module TokenBucket {
  import opened Options

  type Key = string

  /** Times are seconds; floating point is read as real arithmetic. */
  datatype Bucket = Bucket(tokens: real, lastUpdate: real, capacity: real, rate: real)

  function FullBucket(limit: int, window: real, now: real): Bucket
    requires window > 0.0
  {
    Bucket(limit as real, now, limit as real, limit as real / window)
  }

  function Refill(b: Bucket, now: real): Bucket {
    var tokens := b.tokens + (now - b.lastUpdate) * b.rate;
    b.(tokens := if tokens > b.capacity then b.capacity else tokens, lastUpdate := now)
  }

  /** One request: refill, then take a token if there is a whole one. */
  function Request(b: Bucket, now: real): (Bucket, bool) {
    var full := Refill(b, now);
    if full.tokens >= 1.0 then (full.(tokens := full.tokens - 1.0), true) else (full, false)
  }

  /** The bucket a request of this key meets. */
  function Meet(buckets: map<Key, Bucket>, key: Key, limit: int, window: real, now: real): Bucket
    requires window > 0.0
  {
    if key in buckets then buckets[key] else FullBucket(limit, window, now)
  }

  /** What is left of a slice after dropping the leading times before `cut`. */
  function DropBefore(s: seq<real>, cut: real): seq<real> {
    if s == [] || s[0] >= cut then s else DropBefore(s[1..], cut)
  }

  function Hits(hits: map<Key, seq<real>>, key: Key): seq<real> {
    if key in hits then hits[key] else []
  }

  class OrderRateLimiter {
    var hits: map<Key, seq<real>>
    var tokens: map<Key, Bucket>
    const limit: int
    const window: real

    constructor (perMinute: int, w: real)
      requires perMinute > 0
      ensures hits == map[] && tokens == map[] && limit == perMinute && window == w
    {
      hits, tokens, limit, window := map[], map[], perMinute, w;
    }

    method AllowTokenBucket(key: Key, now: real) returns (allowed: bool)
      requires window > 0.0
      modifies this`tokens
      ensures var r := Request(Meet(old(tokens), key, limit, window, now), now);
              allowed == r.1 && tokens == old(tokens)[key := r.0]
    {
      if key !in tokens {
        tokens := tokens[key := FullBucket(limit, window, now)];
      }
      var bucket := tokens[key];
      ghost var met := bucket;
      var elapsed := now - bucket.lastUpdate;
      bucket := bucket.(tokens := bucket.tokens + elapsed * bucket.rate);
      if bucket.tokens > bucket.capacity {
        bucket := bucket.(tokens := bucket.capacity);
      }
      bucket := bucket.(lastUpdate := now);
      assert bucket == Refill(met, now);
      if bucket.tokens >= 1.0 {
        tokens := tokens[key := bucket.(tokens := bucket.tokens - 1.0)];
        return true;
      }
      tokens := tokens[key := bucket];
      return false;
    }

    /** The clock is read twice: `now` for the bucket, `later` for the record of hits. */
    method Allow(key: Key, now: real, later: real) returns (allowed: bool)
      requires window > 0.0
      modifies this
      ensures var r := Request(Meet(old(tokens), key, limit, window, now), now);
              allowed == r.1 && tokens == old(tokens)[key := r.0]
      ensures hits == if allowed then old(hits)[key := DropBefore(Hits(old(hits), key), later - window) + [later]]
                      else old(hits)
    {
      allowed := AllowTokenBucket(key, now);
      if allowed {
        var cut := later - window;
        var slice := if key in hits then hits[key] else [];
        var i := 0;
        while i < |slice| && slice[i] < cut
          invariant 0 <= i <= |slice| && DropBefore(slice[i..], cut) == DropBefore(slice, cut)
        {
          assert slice[i..][1..] == slice[i + 1..];
          i := i + 1;
        }
        hits := hits[key := slice[i..] + [later]];
      }
    }
  }

  /** A limit that is not positive gives no limiter at all. */
  method NewOrderRateLimiter(perMinute: int, window: real) returns (l: OrderRateLimiter?)
    ensures (l == null) == (perMinute <= 0)
    ensures l != null ==> fresh(l) && l.limit == perMinute && l.window == window && l.tokens == map[] && l.hits == map[]
  {
    if perMinute <= 0 {
      return null;
    }
    l := new OrderRateLimiter(perMinute, window);
  }

  // ----- traces -----

  /** `later` is when a request that was let in is recorded. */
  datatype Op = Op(key: Key, now: real, later: real)

  datatype Entry = Entry(time: real, stamp: real)

  /** The limiter with, for each key, every request it let in. */
  datatype World = World(buckets: map<Key, Bucket>, hits: map<Key, seq<real>>, logs: map<Key, seq<Entry>>)

  function Log(w: World, key: Key): seq<Entry> {
    if key in w.logs then w.logs[key] else []
  }

  function Step(limit: int, window: real, w: World, op: Op): World
    requires window > 0.0
  {
    var r := Request(Meet(w.buckets, op.key, limit, window, op.now), op.now);
    var w' := w.(buckets := w.buckets[op.key := r.0]);
    if r.1 then LetIn(window, w', op) else w'
  }

  function LetIn(window: real, w: World, op: Op): World {
    w.(hits := w.hits[op.key := DropBefore(Hits(w.hits, op.key), op.later - window) + [op.later]],
       logs := w.logs[op.key := Log(w, op.key) + [Entry(op.now, op.later)]])
  }

  function Run(limit: int, window: real, ops: seq<Op>): World
    requires window > 0.0
  {
    if ops == [] then World(map[], map[], map[])
    else Step(limit, window, Run(limit, window, ops[..|ops| - 1]), ops[|ops| - 1])
  }

  /** Requests are handled one after the other by a clock that does not go back. */
  predicate Orderly(ops: seq<Op>) {
    (forall i :: 0 <= i < |ops| ==> ops[i].now <= ops[i].later)
    && forall i, j :: 0 <= i < j < |ops| ==> ops[i].later <= ops[j].now
  }

  /** Requests let in at times from `a` on. */
  function Since(log: seq<Entry>, a: real): int {
    if log == [] then 0 else Since(log[..|log| - 1], a) + if log[|log| - 1].time >= a then 1 else 0
  }

  /** Requests let in at times from `a` to `b`, both included. */
  function During(log: seq<Entry>, a: real, b: real): int {
    if log == [] then 0
    else During(log[..|log| - 1], a, b) + if a <= log[|log| - 1].time <= b then 1 else 0
  }

  lemma {:induction false} DuringFacts(log: seq<Entry>, a: real, b: real)
    ensures 0 <= During(log, a, b) <= Since(log, a)
    ensures (forall i :: 0 <= i < |log| ==> log[i].time < a) ==> Since(log, a) == 0
  {
    if log != [] {
      DuringFacts(log[..|log| - 1], a, b);
    }
  }

  /** What drips in from `a` to `b`. */
  function Dripped(rate: real, a: real, b: real): real {
    rate * (b - a)
  }

  ghost predicate WithinRate(log: seq<Entry>, capacity: real, rate: real) {
    forall a, b :: a <= b ==> During(log, a, b) as real <= capacity + Dripped(rate, a, b)
  }

  /** Tokens left plus requests let in never exceed a full bucket plus what has dripped in. */
  ghost predicate Paid(log: seq<Entry>, b: Bucket) {
    forall a :: a <= b.lastUpdate ==> Since(log, a) as real + b.tokens <= b.capacity + Dripped(b.rate, a, b.lastUpdate)
  }

  ghost predicate BucketInv(log: seq<Entry>, b: Bucket) {
    0.0 <= b.tokens <= b.capacity && b.rate >= 0.0
    && (forall i :: 0 <= i < |log| ==> log[i].time <= b.lastUpdate)
    && Paid(log, b) && WithinRate(log, b.capacity, b.rate)
  }

  lemma Drip(rate: real, a: real, b: real, c: real)
    requires rate >= 0.0 && a <= b <= c
    ensures Dripped(rate, a, c) == Dripped(rate, a, b) + Dripped(rate, b, c)
    ensures Dripped(rate, a, b) >= 0.0 && Dripped(rate, b, c) >= 0.0
  {
  }

  lemma RefillFacts(b: Bucket, now: real)
    requires b.lastUpdate <= now && b.rate >= 0.0 && 0.0 <= b.tokens <= b.capacity
    ensures var b' := Refill(b, now);
            b.tokens <= b'.tokens <= b.capacity && b'.tokens <= b.tokens + Dripped(b.rate, b.lastUpdate, now)
  {
    Drip(b.rate, b.lastUpdate, b.lastUpdate, now);
    assert (now - b.lastUpdate) * b.rate == b.rate * (now - b.lastUpdate);
  }

  lemma RefillKeepsInv(log: seq<Entry>, b: Bucket, now: real)
    requires BucketInv(log, b) && b.lastUpdate <= now
    ensures BucketInv(log, Refill(b, now))
  {
    var b' := Refill(b, now);
    RefillFacts(b, now);
    forall a | a <= now
      ensures Since(log, a) as real + b'.tokens <= b.capacity + Dripped(b.rate, a, now)
    {
      if a <= b.lastUpdate {
        Drip(b.rate, a, b.lastUpdate, now);
      } else {
        DuringFacts(log, a, a);
        Drip(b.rate, a, a, now);
      }
    }
  }

  lemma TakeKeepsInv(log: seq<Entry>, b: Bucket, stamp: real)
    requires BucketInv(log, b) && b.tokens >= 1.0
    ensures BucketInv(log + [Entry(b.lastUpdate, stamp)], b.(tokens := b.tokens - 1.0))
  {
    var log' := log + [Entry(b.lastUpdate, stamp)];
    var b' := b.(tokens := b.tokens - 1.0);
    assert log'[..|log'| - 1] == log;
    forall a | a <= b.lastUpdate
      ensures Since(log', a) as real + b'.tokens <= b.capacity + Dripped(b.rate, a, b.lastUpdate)
    {
      assert Since(log', a) == Since(log, a) + 1;
    }
    forall x, y | x <= y
      ensures During(log', x, y) as real <= b.capacity + Dripped(b.rate, x, y)
    {
      if x <= b.lastUpdate <= y {
        DuringFacts(log, x, y);
        Drip(b.rate, x, b.lastUpdate, y);
        assert During(log', x, y) == During(log, x, y) + 1;
        assert Since(log, x) as real + b.tokens <= b.capacity + Dripped(b.rate, x, b.lastUpdate);
      } else {
        assert During(log', x, y) == During(log, x, y);
      }
    }
  }

  lemma RateIsPositive(limit: int, window: real)
    requires limit > 0 && window > 0.0
    ensures limit as real / window > 0.0
  {
  }

  lemma FreshBucketInv(b: Bucket)
    requires 0.0 <= b.tokens == b.capacity && b.rate >= 0.0
    ensures BucketInv([], b)
  {
    forall a | a <= b.lastUpdate
      ensures Dripped(b.rate, a, b.lastUpdate) >= 0.0
    {
      Drip(b.rate, a, a, b.lastUpdate);
    }
    EmptyWithinRate(b.capacity, b.rate);
  }

  /** A key's log and bucket, if it has one, when the last request was at `now`. */
  ghost predicate KeyInv(capacity: real, rate: real, log: seq<Entry>, bucket: Option<Bucket>, now: real) {
    if bucket.None? then log == []
    else
      var b := bucket.value;
      BucketInv(log, b) && b.lastUpdate <= now && b.capacity == capacity && b.rate == rate
  }

  function Find(buckets: map<Key, Bucket>, key: Key): Option<Bucket> {
    if key in buckets then Some(buckets[key]) else None
  }

  lemma RequestKeepsKey(log: seq<Entry>, bucket: Option<Bucket>, full: Bucket, now: real, stamp: real)
    requires KeyInv(full.capacity, full.rate, log, bucket, now)
    requires 0.0 <= full.tokens == full.capacity && full.rate >= 0.0 && full.lastUpdate == now
    ensures var r := Request(bucket.GetOr(full), now);
            KeyInv(full.capacity, full.rate, if r.1 then log + [Entry(now, stamp)] else log, Some(r.0), now)
  {
    var b := bucket.GetOr(full);
    if bucket.None? {
      FreshBucketInv(full);
    }
    RefillKeepsInv(log, b, now);
    if Refill(b, now).tokens >= 1.0 {
      TakeKeepsInv(log, Refill(b, now), stamp);
    }
  }

  /** What a step does to one key. */
  lemma StepAtKey(limit: int, window: real, w: World, op: Op, key: Key)
    requires window > 0.0
    ensures var w' := Step(limit, window, w, op);
            var r := Request(Find(w.buckets, key).GetOr(FullBucket(limit, window, op.now)), op.now);
            if op.key == key then
              Find(w'.buckets, key) == Some(r.0)
              && Log(w', key) == if r.1 then Log(w, key) + [Entry(op.now, op.later)] else Log(w, key)
            else Find(w'.buckets, key) == Find(w.buckets, key) && Log(w', key) == Log(w, key)
  {
  }

  lemma {:induction false} RunKeepsKey(limit: int, window: real, ops: seq<Op>, key: Key, now: real)
    requires limit > 0 && window > 0.0 && Orderly(ops) && (ops != [] ==> ops[|ops| - 1].now <= now)
    ensures var w := Run(limit, window, ops);
            KeyInv(limit as real, limit as real / window, Log(w, key), Find(w.buckets, key), now)
  {
    if ops != [] {
      var init, op := ops[..|ops| - 1], ops[|ops| - 1];
      var w := Run(limit, window, init);
      assert init != [] ==> init[|init| - 1].now <= init[|init| - 1].later <= op.now;
      RunKeepsKey(limit, window, init, key, op.now);
      StepAtKey(limit, window, w, op, key);
      if op.key == key {
        RateIsPositive(limit, window);
        RequestKeepsKey(Log(w, key), Find(w.buckets, key), FullBucket(limit, window, op.now), op.now, op.later);
      }
    }
  }

  /** In any interval of length T at most capacity + rate * T requests of a key are let in. */
  lemma RateHoldsInEveryInterval(limit: int, window: real, ops: seq<Op>, key: Key, a: real, b: real)
    requires limit > 0 && window > 0.0 && Orderly(ops) && a <= b
    ensures During(Log(Run(limit, window, ops), key), a, b) as real
            <= limit as real + Dripped(limit as real / window, a, b)
  {
    RunWithinRate(limit, window, ops, key);
  }

  lemma RunWithinRate(limit: int, window: real, ops: seq<Op>, key: Key)
    requires limit > 0 && window > 0.0 && Orderly(ops)
    ensures WithinRate(Log(Run(limit, window, ops), key), limit as real, limit as real / window)
  {
    RunKeepsKey(limit, window, ops, key, if ops == [] then 0.0 else ops[|ops| - 1].now);
    RateIsPositive(limit, window);
    EmptyWithinRate(limit as real, limit as real / window);
  }

  lemma EmptyWithinRate(capacity: real, rate: real)
    requires capacity >= 0.0 && rate >= 0.0
    ensures WithinRate([], capacity, rate)
  {
    forall x, y | x <= y
      ensures Dripped(rate, x, y) >= 0.0
    {
      Drip(rate, x, x, y);
    }
  }

  // ----- bursts -----

  /** `n` requests at one instant, and how many of them are let in. */
  function Burst(b: Bucket, now: real, n: nat): (Bucket, nat) {
    if n == 0 then (Refill(b, now), 0)
    else
      var before := Burst(b, now, n - 1);
      var r := Request(before.0, now);
      (r.0, before.1 + if r.1 then 1 else 0)
  }

  lemma RefillAgain(b: Bucket, now: real)
    requires b.lastUpdate == now && b.tokens <= b.capacity
    ensures Refill(b, now) == b
  {
    assert (now - b.lastUpdate) * b.rate == 0.0;
  }

  /** Exactly as many get in as there are whole tokens after the refill. */
  lemma {:induction false} BurstIsWholeTokens(b: Bucket, now: real, n: nat)
    requires 0.0 <= b.tokens <= b.capacity && b.rate >= 0.0 && b.lastUpdate <= now
    ensures var full, r := Refill(b, now), Burst(b, now, n);
            r.1 == Min(n, full.tokens.Floor) && r.0 == full.(tokens := full.tokens - r.1 as real)
  {
    RefillFacts(b, now);
    if n > 0 {
      BurstIsWholeTokens(b, now, n - 1);
      RefillAgain(Burst(b, now, n - 1).0, now);
    }
  }

  /** After a window without requests a key may use its whole limit at once, and no more. */
  lemma FullAfterIdleWindow(b: Bucket, limit: int, window: real, now: real, n: nat)
    requires limit > 0 && window > 0.0 && b.capacity == limit as real && b.rate == limit as real / window
    requires 0.0 <= b.tokens <= b.capacity && now >= b.lastUpdate + window
    ensures Burst(b, now, n).1 == Min(n, limit)
  {
    RateIsPositive(limit, window);
    WindowRefills(limit, window, now - b.lastUpdate);
    assert (now - b.lastUpdate) * b.rate == b.rate * (now - b.lastUpdate);
    BurstIsWholeTokens(b, now, n);
    assert (limit as real).Floor == limit;
  }

  lemma WindowRefills(limit: int, window: real, elapsed: real)
    requires limit > 0 && window > 0.0 && elapsed >= window
    ensures limit as real / window * elapsed >= limit as real == limit as real / window * window
  {
    RateIsPositive(limit, window);
    assert limit as real / window * elapsed
        == limit as real / window * window + limit as real / window * (elapsed - window);
  }

  // ----- the record of hits -----

  /** The stamps of a log from `cut` on. */
  function Recent(log: seq<Entry>, cut: real): seq<real> {
    if log == [] then []
    else if log[|log| - 1].stamp >= cut then Recent(log[..|log| - 1], cut) + [log[|log| - 1].stamp]
    else Recent(log[..|log| - 1], cut)
  }

  ghost predicate Stamped(log: seq<Entry>) {
    (forall i :: 0 <= i < |log| ==> log[i].time <= log[i].stamp)
    && forall i, j :: 0 <= i < j < |log| ==> log[i].stamp <= log[j].time
  }

  lemma {:induction false} RecentBounds(log: seq<Entry>, cut: real, top: real)
    requires forall i :: 0 <= i < |log| ==> log[i].stamp <= top
    ensures forall i :: 0 <= i < |Recent(log, cut)| ==> cut <= Recent(log, cut)[i] <= top
    ensures top < cut ==> Recent(log, cut) == []
  {
    if log != [] {
      RecentBounds(log[..|log| - 1], cut, top);
    }
  }

  lemma {:induction false} DropSnoc(s: seq<real>, x: real, cut: real)
    requires x < cut ==> forall i :: 0 <= i < |s| ==> s[i] < cut
    ensures DropBefore(s + [x], cut) == if x >= cut then DropBefore(s, cut) + [x] else DropBefore(s, cut)
  {
    if s != [] && s[0] < cut {
      DropSnoc(s[1..], x, cut);
      assert (s + [x])[1..] == s[1..] + [x];
    }
  }

  /** Dropping older times from the record leaves just the newer ones. */
  lemma {:induction false} DropRecent(log: seq<Entry>, old0: real, cut: real)
    requires Stamped(log) && old0 <= cut
    ensures DropBefore(Recent(log, old0), cut) == Recent(log, cut)
  {
    if log != [] {
      var init, last := log[..|log| - 1], log[|log| - 1];
      DropRecent(init, old0, cut);
      if last.stamp >= old0 {
        RecentBounds(init, old0, last.stamp);
        DropSnoc(Recent(init, old0), last.stamp, cut);
      }
    }
  }

  /** All but the first of the recent requests were let in after the cut. */
  lemma {:induction false} RecentCount(log: seq<Entry>, cut: real)
    requires Stamped(log)
    ensures |Recent(log, cut)| <= Since(log, cut) + 1
  {
    if log != [] {
      var init, last := log[..|log| - 1], log[|log| - 1];
      RecentCount(init, cut);
      DuringFacts(init, cut, cut);
      if last.time < cut {
        RecentBounds(init, cut, last.time);
      }
    }
  }

  ghost predicate HitsInv(window: real, log: seq<Entry>, hits: seq<real>, now: real) {
    Stamped(log) && (forall i :: 0 <= i < |log| ==> log[i].stamp <= now)
    && hits == if log == [] then [] else Recent(log, log[|log| - 1].stamp - window)
  }

  lemma HitKeepsInv(window: real, log: seq<Entry>, hits: seq<real>, e: Entry)
    requires window > 0.0 && Stamped(log + [e])
    requires hits == if log == [] then [] else Recent(log, log[|log| - 1].stamp - window)
    ensures DropBefore(hits, e.stamp - window) + [e.stamp] == Recent(log + [e], e.stamp - window)
  {
    var all := log + [e];
    assert all[..|all| - 1] == log && all[|all| - 1] == e;
    if log != [] {
      assert all[|log| - 1].stamp <= all[|log|].time <= all[|log|].stamp;
      assert Stamped(log) by {
        assert forall i :: 0 <= i < |log| ==> log[i] == all[i];
      }
      DropRecent(log, log[|log| - 1].stamp - window, e.stamp - window);
    }
  }

  lemma StampedSnoc(log: seq<Entry>, e: Entry)
    requires Stamped(log) && e.time <= e.stamp
    requires forall i :: 0 <= i < |log| ==> log[i].stamp <= e.time
    ensures Stamped(log + [e])
    ensures forall i :: 0 <= i < |log + [e]| ==> (log + [e])[i].stamp <= e.stamp
  {
  }

  lemma LetInKeepsHits(window: real, log: seq<Entry>, hits: seq<real>, e: Entry)
    requires window > 0.0 && HitsInv(window, log, hits, e.time) && e.time <= e.stamp
    ensures HitsInv(window, log + [e], DropBefore(hits, e.stamp - window) + [e.stamp], e.stamp)
  {
    StampedSnoc(log, e);
    HitKeepsInv(window, log, hits, e);
  }

  lemma HitsLater(window: real, log: seq<Entry>, hits: seq<real>, now: real, later: real)
    requires HitsInv(window, log, hits, now) && now <= later
    ensures HitsInv(window, log, hits, later)
  {
  }

  lemma {:induction false} RunKeepsHits(limit: int, window: real, ops: seq<Op>, key: Key, now: real)
    requires limit > 0 && window > 0.0 && Orderly(ops) && (ops != [] ==> ops[|ops| - 1].later <= now)
    ensures var w := Run(limit, window, ops); HitsInv(window, Log(w, key), Hits(w.hits, key), now)
  {
    if ops != [] {
      var init, op := ops[..|ops| - 1], ops[|ops| - 1];
      var w, w' := Run(limit, window, init), Run(limit, window, ops);
      var log, hits := Log(w, key), Hits(w.hits, key);
      RunKeepsHits(limit, window, init, key, op.now);
      StepHits(limit, window, w, op, key);
      if Log(w', key) == log && Hits(w'.hits, key) == hits {
        HitsLater(window, log, hits, op.now, now);
      } else {
        LetInKeepsHits(window, log, hits, Entry(op.now, op.later));
        HitsLater(window, Log(w', key), Hits(w'.hits, key), op.later, now);
      }
    }
  }

  /** A step leaves a key's record alone or lets the request in. */
  lemma StepHits(limit: int, window: real, w: World, op: Op, key: Key)
    requires window > 0.0
    ensures var w' := Step(limit, window, w, op);
            (Log(w', key) == Log(w, key) && Hits(w'.hits, key) == Hits(w.hits, key))
            || (Log(w', key) == Log(w, key) + [Entry(op.now, op.later)]
                && Hits(w'.hits, key) == DropBefore(Hits(w.hits, key), op.later - window) + [op.later])
  {
  }

  /** The record holds exactly the requests of the last window, never more than twice the limit and one. */
  lemma HitsAreTheLastWindow(limit: int, window: real, ops: seq<Op>, key: Key)
    requires limit > 0 && window > 0.0 && Orderly(ops)
    ensures var w := Run(limit, window, ops);
            var log := Log(w, key);
            Hits(w.hits, key) == (if log == [] then [] else Recent(log, log[|log| - 1].stamp - window))
            && |Hits(w.hits, key)| <= 2 * limit + 1
  {
    var log := Log(Run(limit, window, ops), key);
    RunKeepsHits(limit, window, ops, key, if ops == [] then 0.0 else ops[|ops| - 1].later);
    if log != [] {
      RunWithinRate(limit, window, ops, key);
      LogIsBounded(limit, window, log);
    }
  }

  lemma LogIsBounded(limit: int, window: real, log: seq<Entry>)
    requires limit > 0 && window > 0.0 && log != [] && Stamped(log)
    requires WithinRate(log, limit as real, limit as real / window)
    ensures |Recent(log, log[|log| - 1].stamp - window)| <= 2 * limit + 1
  {
    WindowRefills(limit, window, window);
    RecentIsBounded(limit, window, limit as real / window, log);
  }

  lemma RecentIsBounded(limit: int, window: real, rate: real, log: seq<Entry>)
    requires log != [] && Stamped(log) && window > 0.0 && rate * window == limit as real
    requires WithinRate(log, limit as real, rate)
    ensures |Recent(log, log[|log| - 1].stamp - window)| <= 2 * limit + 1
  {
    var last := log[|log| - 1];
    var cut := last.stamp - window;
    RecentCount(log, cut);
    SinceIsDuring(log, cut, last.stamp);
    DrippedWindow(rate, window, last.stamp);
  }

  lemma DrippedWindow(rate: real, window: real, t: real)
    ensures Dripped(rate, t - window, t) == rate * window
  {
    assert t - (t - window) == window;
  }

  lemma {:induction false} SinceIsDuring(log: seq<Entry>, a: real, b: real)
    requires forall i :: 0 <= i < |log| ==> log[i].time <= b
    ensures Since(log, a) == During(log, a, b)
  {
    if log != [] {
      SinceIsDuring(log[..|log| - 1], a, b);
    }
  }
}
