/** Limits on what one peer may send in a second, and what they amount to over whole traces. */
module PeerLimiter {
  import opened Options

  type Peer = string

  const UINT64: int := 0x1_0000_0000_0000_0000
  /** Times are nanoseconds. */
  const SECOND: int := 1_000_000_000

  datatype PeerWindow = PeerWindow(start: int, bytes: int, msgs: int)

  /** A limit of zero means no limit. */
  datatype Limits = Limits(bytes: int, msgs: int)

  ghost predicate ValidLimits(limits: Limits) {
    0 <= limits.bytes < UINT64 && 0 <= limits.msgs < UINT64
  }

  /** The window a message arriving now is counted in. */
  function Current(w: Option<PeerWindow>, now: int): PeerWindow {
    if w.None? || now - w.value.start >= SECOND then PeerWindow(now, 0, 0) else w.value
  }

  /** Sums are taken modulo 2^64, as the code does. */
  predicate Fits(limits: Limits, w: PeerWindow, size: int) {
    (limits.msgs > 0 ==> (w.msgs + 1) % UINT64 <= limits.msgs)
    && (limits.bytes > 0 ==> (w.bytes + size) % UINT64 <= limits.bytes)
  }

  function Count(w: PeerWindow, size: int): PeerWindow {
    w.(bytes := (w.bytes + size) % UINT64, msgs := (w.msgs + 1) % UINT64)
  }

  predicate Unlimited(limits: Limits) {
    limits.bytes == 0 && limits.msgs == 0
  }

  /** The window of one peer after a message, and whether the message was let in. */
  function Admit(limits: Limits, w: Option<PeerWindow>, size: int, now: int): (Option<PeerWindow>, bool) {
    if Unlimited(limits) then (w, true)
    else
      var c := Current(w, now);
      if Fits(limits, c, size) then (Some(Count(c, size)), true) else (Some(c), false)
  }

  function Find(windows: map<Peer, PeerWindow>, id: Peer): Option<PeerWindow> {
    if id in windows then Some(windows[id]) else None
  }

  predicate Stale(w: PeerWindow, now: int, olderThan: int) {
    w.start < now - olderThan
  }

  function Pruned(windows: map<Peer, PeerWindow>, now: int, olderThan: int): map<Peer, PeerWindow> {
    map id | id in windows && !Stale(windows[id], now, olderThan) :: windows[id]
  }

  class Limiter {
    var perPeer: map<Peer, PeerWindow>
    const limits: Limits

    constructor (limitBytesPerSec: nat, limitMsgsPerSec: nat)
      ensures perPeer == map[] && limits == Limits(limitBytesPerSec, limitMsgsPerSec)
    {
      perPeer := map[];
      limits := Limits(limitBytesPerSec, limitMsgsPerSec);
    }

    method Allow(id: Peer, size: nat, now: int) returns (allowed: bool)
      modifies this
      ensures var r := Admit(limits, Find(old(perPeer), id), size, now);
              allowed == r.1
              && perPeer == if Unlimited(limits) then old(perPeer) else old(perPeer)[id := r.0.value]
    {
      if limits.bytes == 0 && limits.msgs == 0 {
        return true;
      }
      if id !in perPeer {
        perPeer := perPeer[id := PeerWindow(now, 0, 0)];
      }
      var w := perPeer[id];
      if now - w.start >= SECOND {
        w := PeerWindow(now, 0, 0);
        perPeer := perPeer[id := w];
      }
      if limits.msgs > 0 && (w.msgs + 1) % UINT64 > limits.msgs {
        return false;
      }
      if limits.bytes > 0 && (w.bytes + size) % UINT64 > limits.bytes {
        return false;
      }
      perPeer := perPeer[id := w.(bytes := (w.bytes + size) % UINT64, msgs := (w.msgs + 1) % UINT64)];
      return true;
    }

    method Prune(now: int, olderThan: int)
      modifies this
      ensures perPeer == Pruned(old(perPeer), now, olderThan)
    {
      var cut := now - olderThan;
      var ids := perPeer.Keys;
      while ids != {}
        invariant ids <= old(perPeer).Keys
        invariant forall id :: id in perPeer <==>
                    id in old(perPeer) && (id in ids || !Stale(old(perPeer)[id], now, olderThan))
        invariant forall id :: id in perPeer ==> perPeer[id] == old(perPeer)[id]
        decreases |ids|
      {
        var id :| id in ids;
        if perPeer[id].start < cut {
          perPeer := perPeer - {id};
        }
        ids := ids - {id};
      }
    }
  }

  /**
   A message is let in if and only if neither counter, with it, exceeds a limit that is set.  Counters
   restart for a peer not seen before and a second after its window was opened; a message that is
   turned away counts for nothing, and without limits nothing is recorded.
   */
  lemma AdmitsOnTheseTerms(limits: Limits, w: Option<PeerWindow>, size: nat, now: int)
    requires ValidLimits(limits)
    ensures var open := w.Some? && now < w.value.start + 1_000_000_000;
            var start, bytes, msgs := if open then w.value.start else now, if open then w.value.bytes else 0,
                                      if open then w.value.msgs else 0;
            var bytes', msgs' := (bytes + size) % 0x1_0000_0000_0000_0000, (msgs + 1) % 0x1_0000_0000_0000_0000;
            var fits := (limits.bytes == 0 || bytes' <= limits.bytes) && (limits.msgs == 0 || msgs' <= limits.msgs);
            Admit(limits, w, size, now)
            == if limits.bytes == 0 && limits.msgs == 0 then (w, true)
               else if fits then (Some(PeerWindow(start, bytes', msgs')), true)
               else (Some(PeerWindow(start, bytes, msgs)), false)
  {
  }

  /** Pruning keeps a window if and only if it was opened no longer ago than the given age. */
  lemma PrunedOnTheseTerms(windows: map<Peer, PeerWindow>, now: int, olderThan: int, id: Peer)
    ensures var after := Pruned(windows, now, olderThan);
            (id in after <==> id in windows && now - windows[id].start <= olderThan)
            && (id in after ==> after[id] == windows[id])
  {
  }

  // ----- traces -----

  datatype Op =
    | AllowOp(id: Peer, size: nat, now: int)
    | PruneOp(olderThan: int, now: int)

  /** A message let in: when, and how large. */
  datatype Entry = Entry(time: int, size: int)

  /** The limiter with, for each peer, everything it ever let in. */
  datatype World = World(windows: map<Peer, PeerWindow>, logs: map<Peer, seq<Entry>>, clock: int)

  function Log(w: World, id: Peer): seq<Entry> {
    if id in w.logs then w.logs[id] else []
  }

  function Step(limits: Limits, w: World, op: Op): World {
    match op
    case AllowOp(id, size, now) =>
      var r := Admit(limits, Find(w.windows, id), size, now);
      var windows := if Unlimited(limits) then w.windows else w.windows[id := r.0.value];
      var logs := if r.1 then w.logs[id := Log(w, id) + [Entry(now, size)]] else w.logs;
      World(windows, logs, now)
    case PruneOp(olderThan, now) => World(Pruned(w.windows, now, olderThan), w.logs, now)
  }

  function Run(limits: Limits, start: int, ops: seq<Op>): World {
    if ops == [] then World(map[], map[], start) else Step(limits, Run(limits, start, ops[..|ops| - 1]), ops[|ops| - 1])
  }

  /** The clock does not go back, and no window younger than `age` is pruned. */
  predicate Orderly(start: int, ops: seq<Op>, age: int) {
    (forall i :: 0 <= i < |ops| ==> start <= ops[i].now && (ops[i].PruneOp? ==> ops[i].olderThan >= age))
    && forall i, j :: 0 <= i < j < |ops| ==> ops[i].now <= ops[j].now
  }

  /** Pruning deletes windows strictly older than its age, so this much makes them at least a second old. */
  const SAFE_AGE: int := SECOND - 1

  predicate SizesBelow(ops: seq<Op>, bound: int) {
    forall op :: op in ops ==> op.AllowOp? ==> op.size <= bound
  }

  /** Bytes and messages are limited in the same way. */
  datatype Kind = Bytes | Msgs

  function Weight(k: Kind, size: int): int {
    if k.Bytes? then size else 1
  }

  function Counter(k: Kind, w: PeerWindow): int {
    if k.Bytes? then w.bytes else w.msgs
  }

  function Limit(k: Kind, limits: Limits): int {
    if k.Bytes? then limits.bytes else limits.msgs
  }

  /** What was let in from `a` on. */
  function Since(k: Kind, log: seq<Entry>, a: int): int {
    if log == [] then 0
    else Since(k, log[..|log| - 1], a) + if log[|log| - 1].time >= a then Weight(k, log[|log| - 1].size) else 0
  }

  /** What was let in at times from `a` up to but not including `b`. */
  function Between(k: Kind, log: seq<Entry>, a: int, b: int): int {
    if log == [] then 0
    else
      Between(k, log[..|log| - 1], a, b)
      + if a <= log[|log| - 1].time < b then Weight(k, log[|log| - 1].size) else 0
  }

  /** What was let in during the second that starts at `a`. */
  function PerSecond(k: Kind, log: seq<Entry>, a: int): int {
    Between(k, log, a, a + SECOND)
  }

  ghost predicate Sized(log: seq<Entry>) {
    forall i :: 0 <= i < |log| ==> log[i].size >= 0
  }

  lemma {:induction false} SinceFacts(k: Kind, log: seq<Entry>, a: int, b: int)
    requires Sized(log) && a <= b
    ensures 0 <= Since(k, log, b) <= Since(k, log, a)
    ensures 0 <= Between(k, log, a, b) <= Since(k, log, a)
    ensures (forall i :: 0 <= i < |log| ==> log[i].time < a) ==> Since(k, log, a) == 0
  {
    if log != [] {
      SinceFacts(k, log[..|log| - 1], a, b);
    }
  }

  /** The message limit limits something: zero means no limit, and the largest one is never exceeded. */
  predicate CountsMessages(limits: Limits) {
    0 < limits.msgs < UINT64 - 1
  }

  /** The most a window's counter can show when one more message of up to `maxSize` is let in. */
  function Fullest(k: Kind, limits: Limits, maxSize: int): int {
    if k.Bytes? && CountsMessages(limits) then Min(limits.bytes, (limits.msgs - 1) * maxSize) else Limit(k, limits)
  }

  /** No addition of this kind can wrap for messages up to `maxSize`. */
  predicate NoWrap(k: Kind, limits: Limits, maxSize: int) {
    Fullest(k, limits, maxSize) + Weight(k, maxSize) < UINT64
  }

  ghost predicate WindowBounds(k: Kind, limit: int, log: seq<Entry>, w: PeerWindow, clock: int) {
    w.start <= clock && 0 <= Counter(k, w) <= limit
    && (forall i :: 0 <= i < |log| ==> log[i].time < w.start + SECOND)
    && (forall a :: a >= w.start ==> Since(k, log, a) <= Counter(k, w))
    && (forall a :: a > w.start - SECOND ==> Since(k, log, a) <= limit + Counter(k, w))
  }

  ghost predicate NoWindowBounds(k: Kind, limit: int, log: seq<Entry>, clock: int) {
    (forall i :: 0 <= i < |log| ==> log[i].time < clock)
    && forall a :: a > clock - SECOND ==> Since(k, log, a) <= limit
  }

  ghost predicate TwiceLimit(k: Kind, limit: int, log: seq<Entry>) {
    forall a :: PerSecond(k, log, a) <= 2 * limit
  }

  ghost predicate PeerInv(k: Kind, limit: int, log: seq<Entry>, w: Option<PeerWindow>, clock: int) {
    limit > 0 && Sized(log) && TwiceLimit(k, limit, log)
    && if w.Some? then WindowBounds(k, limit, log, w.value, clock) else NoWindowBounds(k, limit, log, clock)
  }

  /** Reading the clock, and starting a new window when the old one is over. */
  lemma CurrentKeepsBounds(k: Kind, limit: int, log: seq<Entry>, w: Option<PeerWindow>, clock: int, now: int)
    requires PeerInv(k, limit, log, w, clock) && clock <= now
    ensures WindowBounds(k, limit, log, Current(w, now), now) && now < Current(w, now).start + SECOND
  {
    var c := Current(w, now);
    forall a | a >= c.start
      ensures Since(k, log, a) <= Counter(k, c)
    {
      SinceFacts(k, log, a, a);
    }
    forall a | a > c.start - SECOND
      ensures Since(k, log, a) <= limit + Counter(k, c)
    {
    }
  }

  lemma LetInKeepsInv(k: Kind, limit: int, log: seq<Entry>, c: PeerWindow, size: int, now: int, c': PeerWindow)
    requires limit > 0 && size >= 0 && Sized(log) && TwiceLimit(k, limit, log) && WindowBounds(k, limit, log, c, now)
    requires now < c.start + SECOND
    requires c'.start == c.start && Counter(k, c') == Counter(k, c) + Weight(k, size) <= limit
    ensures PeerInv(k, limit, log + [Entry(now, size)], Some(c'), now)
  {
    var log' := log + [Entry(now, size)];
    assert log'[..|log'| - 1] == log;
    forall a
      ensures PerSecond(k, log', a) <= 2 * limit
      ensures Since(k, log', a) == Since(k, log, a) + if now >= a then Weight(k, size) else 0
    {
      SinceFacts(k, log, a, a + SECOND);
      assert PerSecond(k, log, a) <= 2 * limit;
    }
  }

  /** Bytes in a window never exceed its messages times their largest size. */
  ghost predicate Counted(limits: Limits, maxSize: int, w: Option<PeerWindow>) {
    w.Some? && CountsMessages(limits) ==>
      0 <= w.value.msgs <= limits.msgs && 0 <= w.value.bytes <= w.value.msgs * maxSize
  }

  lemma AllowKeepsCounted(limits: Limits, maxSize: nat, w: Option<PeerWindow>, size: nat, now: int)
    requires Counted(limits, maxSize, w) && size <= maxSize
    ensures Counted(limits, maxSize, Admit(limits, w, size, now).0)
  {
    var c := Current(w, now);
    if CountsMessages(limits) && Fits(limits, c, size) {
      assert (c.msgs + 1) * maxSize == c.msgs * maxSize + maxSize;
      assert (c.bytes + size) % UINT64 <= c.bytes + size;
    }
  }

  /** So a message that fits does not wrap the counter. */
  lemma FittingDoesNotWrap(k: Kind, limits: Limits, maxSize: nat, c: PeerWindow, size: nat)
    requires ValidLimits(limits) && Limit(k, limits) > 0 && NoWrap(k, limits, maxSize) && size <= maxSize
    requires 0 <= Counter(k, c) <= Limit(k, limits) && Counted(limits, maxSize, Some(c)) && Fits(limits, c, size)
    ensures Counter(k, c) + Weight(k, size) < UINT64
  {
    if k.Bytes? && CountsMessages(limits) {
      assert c.msgs <= limits.msgs - 1;
      MoreMessagesMoreBytes(c.msgs, limits.msgs - 1, maxSize);
    }
  }

  lemma MoreMessagesMoreBytes(a: int, b: int, size: nat)
    requires a <= b
    ensures a * size <= b * size
  {
  }

  lemma AllowKeepsPeer(
    k: Kind, limits: Limits, maxSize: nat, log: seq<Entry>, w: Option<PeerWindow>, clock: int, size: nat, now: int)
    requires ValidLimits(limits) && PeerInv(k, Limit(k, limits), log, w, clock) && clock <= now
    requires NoWrap(k, limits, maxSize) && size <= maxSize && Counted(limits, maxSize, w)
    ensures var r := Admit(limits, w, size, now);
            PeerInv(k, Limit(k, limits), if r.1 then log + [Entry(now, size)] else log, r.0, now)
  {
    CurrentKeepsBounds(k, Limit(k, limits), log, w, clock, now);
    var c := Current(w, now);
    if Fits(limits, c, size) {
      FittingDoesNotWrap(k, limits, maxSize, c, size);
      LetInKeepsInv(k, Limit(k, limits), log, c, size, now, Count(c, size));
    }
  }

  lemma PassKeepsPeer(k: Kind, limit: int, log: seq<Entry>, w: Option<PeerWindow>, clock: int, now: int, drop: bool)
    requires PeerInv(k, limit, log, w, clock) && clock <= now
    requires drop ==> w.Some? && now >= w.value.start + SECOND
    ensures PeerInv(k, limit, log, if drop then None else w, now)
  {
  }

  lemma {:induction false} RunKeepsPeer(k: Kind, limits: Limits, start: int, ops: seq<Op>, maxSize: nat, id: Peer)
    requires ValidLimits(limits) && Limit(k, limits) > 0 && NoWrap(k, limits, maxSize)
    requires Orderly(start, ops, SAFE_AGE) && SizesBelow(ops, maxSize)
    ensures var w := Run(limits, start, ops);
            PeerInv(k, Limit(k, limits), Log(w, id), Find(w.windows, id), w.clock)
            && Counted(limits, maxSize, Find(w.windows, id))
    ensures Run(limits, start, ops).clock == if ops == [] then start else ops[|ops| - 1].now
  {
    if ops != [] {
      var init, op := ops[..|ops| - 1], ops[|ops| - 1];
      RunKeepsPeer(k, limits, start, init, maxSize, id);
      var w := Run(limits, start, init);
      var window := Find(w.windows, id);
      if op.AllowOp? && op.id == id {
        assert op in ops;
        AllowKeepsPeer(k, limits, maxSize, Log(w, id), window, w.clock, op.size, op.now);
        AllowKeepsCounted(limits, maxSize, window, op.size, op.now);
      } else {
        var drop := op.PruneOp? && window.Some? && Stale(window.value, op.now, op.olderThan);
        PassKeepsPeer(k, Limit(k, limits), Log(w, id), window, w.clock, op.now, drop);
      }
    }
  }

  /** In every second of every trace a peer gets in at most twice its limit, pruning or not. */
  lemma TwiceLimitInAnySecond(k: Kind, limits: Limits, start: int, ops: seq<Op>, maxSize: nat, id: Peer, a: int)
    requires ValidLimits(limits) && Limit(k, limits) > 0 && NoWrap(k, limits, maxSize)
    requires Orderly(start, ops, SAFE_AGE) && SizesBelow(ops, maxSize)
    ensures PerSecond(k, Log(Run(limits, start, ops), id), a) <= 2 * Limit(k, limits)
  {
    RunKeepsPeer(k, limits, start, ops, maxSize, id);
  }
}
