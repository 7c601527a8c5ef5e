/** When the peer limiter's bound fails: exactly when a counter can wrap, or a window is pruned too early. */
module PeerLimiterTightness {
  import opened Options
  import opened PeerLimiter

  const SOMEONE: Peer := ""

  ghost predicate AlwaysWithinTwice(k: Kind, limits: Limits, age: int, maxSize: nat) {
    forall start, ops, id, a :: Orderly(start, ops, age) && SizesBelow(ops, maxSize) ==>
      PerSecond(k, Log(Run(limits, start, ops), id), a) <= 2 * Limit(k, limits)
  }

  // ----- runs of one peer, built call by call -----

  /** A run up to `now`, with the peer's window and what it was let in during the second from `a`. */
  ghost predicate Doing(
    k: Kind, limits: Limits, age: nat, maxSize: nat, ops: seq<Op>, now: int, window: Option<PeerWindow>, a: int,
    total: int)
  {
    Orderly(0, ops, age) && SizesBelow(ops, maxSize) && now >= 0 && (ops != [] ==> ops[|ops| - 1].now <= now)
    && Find(Run(limits, 0, ops).windows, SOMEONE) == window
    && PerSecond(k, Log(Run(limits, 0, ops), SOMEONE), a) == total
  }

  lemma Nothing(k: Kind, limits: Limits, age: nat, maxSize: nat, a: int)
    ensures Doing(k, limits, age, maxSize, [], 0, None, a, 0)
  {
  }

  lemma RunSnoc(limits: Limits, start: int, ops: seq<Op>, op: Op)
    ensures Run(limits, start, ops + [op]) == Step(limits, Run(limits, start, ops), op)
  {
    assert (ops + [op])[..|ops|] == ops;
  }

  lemma PerSecondSnoc(k: Kind, log: seq<Entry>, e: Entry, a: int)
    ensures PerSecond(k, log + [e], a)
            == PerSecond(k, log, a) + if a <= e.time < a + SECOND then Weight(k, e.size) else 0
  {
    assert (log + [e])[..|log|] == log;
  }

  lemma OrderlySnoc(ops: seq<Op>, op: Op, age: nat, maxSize: nat)
    requires Orderly(0, ops, age) && SizesBelow(ops, maxSize)
    requires 0 <= op.now && (ops != [] ==> ops[|ops| - 1].now <= op.now)
    requires if op.PruneOp? then op.olderThan >= age else op.size <= maxSize
    ensures Orderly(0, ops + [op], age) && SizesBelow(ops + [op], maxSize)
  {
  }

  /** What a message to be let in adds to the second in question. */
  function Gain(k: Kind, limits: Limits, window: Option<PeerWindow>, size: nat, t: int, a: int): int {
    if Admit(limits, window, size, t).1 && a <= t < a + SECOND then Weight(k, size) else 0
  }

  lemma Send(
    k: Kind, limits: Limits, age: nat, maxSize: nat, ops: seq<Op>, now: int, window: Option<PeerWindow>, a: int,
    total: int, size: nat, t: int)
    requires Doing(k, limits, age, maxSize, ops, now, window, a, total) && !Unlimited(limits)
    requires now <= t && size <= maxSize
    ensures Doing(k, limits, age, maxSize, ops + [AllowOp(SOMEONE, size, t)], t, Admit(limits, window, size, t).0, a,
                  total + Gain(k, limits, window, size, t, a))
  {
    var op := AllowOp(SOMEONE, size, t);
    RunSnoc(limits, 0, ops, op);
    OrderlySnoc(ops, op, age, maxSize);
    PerSecondSnoc(k, Log(Run(limits, 0, ops), SOMEONE), Entry(t, size), a);
  }

  lemma Drop(
    k: Kind, limits: Limits, age: nat, maxSize: nat, ops: seq<Op>, now: int, w: PeerWindow, a: int, total: int, t: int)
    requires Doing(k, limits, age, maxSize, ops, now, Some(w), a, total) && now <= t && w.start < t - age
    ensures Doing(k, limits, age, maxSize, ops + [PruneOp(age, t)], t, None, a, total)
  {
    var op := PruneOp(age, t);
    RunSnoc(limits, 0, ops, op);
    OrderlySnoc(ops, op, age, maxSize);
  }

  // ----- filling a window -----

  /** How many messages of up to `maxSize` carry so many bytes. */
  function Pieces(maxSize: nat, more: int): nat
    requires maxSize > 0
    decreases more
  {
    if more <= 0 then 0 else 1 + Pieces(maxSize, more - maxSize)
  }

  lemma {:induction false} PiecesCarry(maxSize: nat, more: int, n: nat)
    requires maxSize > 0 && more <= n * maxSize
    ensures Pieces(maxSize, more) <= n
    decreases n
  {
    if more > 0 {
      assert n > 0 && n * maxSize == (n - 1) * maxSize + maxSize;
      PiecesCarry(maxSize, more - maxSize, n - 1);
    }
  }

  /**
   A window whose counter of this kind can rise by so much in messages of up to `maxSize`, while the
   message limit leaves so many messages to spare.
   */
  ghost predicate HasRoom(k: Kind, limits: Limits, maxSize: nat, spare: nat, c: PeerWindow, more: int) {
    if k.Msgs? then CountsMessages(limits) && c.bytes == 0 && c.msgs >= 0 && c.msgs + more <= limits.msgs
    else
      c.bytes >= 0 && limits.bytes > 0 && c.bytes + more <= limits.bytes && maxSize > 0
      && if CountsMessages(limits) then
           c.msgs >= 0 && c.msgs + Pieces(maxSize, more) <= limits.msgs - spare
         else 0 <= c.msgs < UINT64 && (limits.msgs == 0 || limits.msgs == UINT64 - 1)
  }

  function Portion(k: Kind, maxSize: nat, more: nat): nat {
    if k.Msgs? then 0 else Min(maxSize, more)
  }

  lemma RoomForOne(k: Kind, limits: Limits, maxSize: nat, spare: nat, c: PeerWindow, more: nat)
    requires ValidLimits(limits) && HasRoom(k, limits, maxSize, spare, c, more) && more > 0
    ensures var size := Portion(k, maxSize, more);
            Fits(limits, c, size) && 1 <= Weight(k, size) <= more
            && Counter(k, Count(c, size)) == Counter(k, c) + Weight(k, size)
            && HasRoom(k, limits, maxSize, spare, Count(c, size), more - Weight(k, size))
  {
    if k.Bytes? && more <= maxSize {
      assert Pieces(maxSize, more) == 1;
    }
  }

  lemma AdmitOne(k: Kind, limits: Limits, maxSize: nat, spare: nat, window: Option<PeerWindow>, t: int, more: nat)
    returns (size: nat, c': PeerWindow)
    requires ValidLimits(limits) && HasRoom(k, limits, maxSize, spare, Current(window, t), more) && more > 0
    ensures size <= maxSize && 1 <= Weight(k, size) <= more && !Unlimited(limits)
    ensures Admit(limits, window, size, t) == (Some(c'), true)
    ensures c'.start == Current(window, t).start
    ensures Counter(k, c') == Counter(k, Current(window, t)) + Weight(k, size)
    ensures HasRoom(k, limits, maxSize, spare, c', more - Weight(k, size))
  {
    size := Portion(k, maxSize, more);
    RoomForOne(k, limits, maxSize, spare, Current(window, t), more);
    c' := Count(Current(window, t), size);
  }

  lemma FillOne(
    k: Kind, limits: Limits, age: nat, maxSize: nat, spare: nat, ops: seq<Op>, now: int, window: Option<PeerWindow>,
    a: int, total: int, t: int, more: nat)
    returns (ops': seq<Op>, c': PeerWindow, weight: nat)
    requires ValidLimits(limits) && Doing(k, limits, age, maxSize, ops, now, window, a, total)
    requires now <= t && a <= t < a + SECOND && HasRoom(k, limits, maxSize, spare, Current(window, t), more) && more > 0
    ensures 1 <= weight <= more && Doing(k, limits, age, maxSize, ops', t, Some(c'), a, total + weight)
    ensures c'.start == Current(window, t).start && Counter(k, c') == Counter(k, Current(window, t)) + weight
    ensures HasRoom(k, limits, maxSize, spare, c', more - weight)
  {
    var size;
    size, c' := AdmitOne(k, limits, maxSize, spare, window, t, more);
    Send(k, limits, age, maxSize, ops, now, window, a, total, size, t);
    ops', weight := ops + [AllowOp(SOMEONE, size, t)], Weight(k, size);
  }

  /** Messages at one time that bring the counter up by `more`. */
  lemma FillUpTo(
    k: Kind, limits: Limits, age: nat, maxSize: nat, spare: nat, ops: seq<Op>, now: int, window: Option<PeerWindow>,
    a: int, total: int, t: int, more: nat)
    returns (ops': seq<Op>, now': int, window': Option<PeerWindow>)
    requires ValidLimits(limits) && Doing(k, limits, age, maxSize, ops, now, window, a, total)
    requires now <= t && a <= t < a + SECOND && HasRoom(k, limits, maxSize, spare, Current(window, t), more)
    ensures Doing(k, limits, age, maxSize, ops', now', window', a, total + more) && now' <= t
    ensures var c, c' := Current(window, t), Current(window', t);
            c'.start == c.start && Counter(k, c') == Counter(k, c) + more
            && HasRoom(k, limits, maxSize, spare, c', 0)
    ensures more > 0 ==> window' == Some(Current(window', t))
    decreases more
  {
    if more == 0 {
      ops', now', window' := ops, now, window;
    } else {
      var mid, c, weight := FillOne(k, limits, age, maxSize, spare, ops, now, window, a, total, t, more);
      ops', now', window' := FillUpTo(
        k, limits, age, maxSize, spare, mid, t, Some(c), a, total + weight, t, more - weight);
    }
  }

  // ----- wrapping -----

  /** The message that takes a counter to exactly 2^64 is let in and leaves it at zero. */
  lemma WrapFits(limits: Limits, maxSize: nat, c: PeerWindow)
    requires ValidLimits(limits) && 0 < maxSize < UINT64
    requires HasRoom(Bytes, limits, maxSize, 1, c, 0) && c.bytes == UINT64 - maxSize
    ensures Fits(limits, c, maxSize) && Count(c, maxSize).bytes == 0 && Count(c, maxSize).start == c.start
    ensures !CountsMessages(limits) ==> HasRoom(Bytes, limits, maxSize, 1, Count(c, maxSize), c.bytes)
  {
    assert (c.bytes + maxSize) % UINT64 == 0;
  }

  /** Filling the counter and then sending a message that wraps it lets in 2^64 bytes at once. */
  lemma WrapRound(limits: Limits, maxSize: nat, ops: seq<Op>, window: Option<PeerWindow>, total: int)
    returns (ops': seq<Op>, window': Option<PeerWindow>)
    requires ValidLimits(limits) && 0 < maxSize < UINT64
    requires Doing(Bytes, limits, SAFE_AGE, maxSize, ops, 0, window, 0, total)
    requires Current(window, 0).start == 0 && Current(window, 0).bytes == 0
    requires HasRoom(Bytes, limits, maxSize, 1, Current(window, 0), UINT64 - maxSize)
    ensures Doing(Bytes, limits, SAFE_AGE, maxSize, ops', 0, window', 0, total + UINT64)
    ensures Current(window', 0).start == 0 && Current(window', 0).bytes == 0
    ensures !CountsMessages(limits) ==> HasRoom(Bytes, limits, maxSize, 1, Current(window', 0), UINT64 - maxSize)
  {
    var full, now, w := FillUpTo(
      Bytes, limits, SAFE_AGE, maxSize, 1, ops, 0, window, 0, total, 0, UINT64 - maxSize);
    var c := Current(w, 0);
    WrapFits(limits, maxSize, c);
    Send(Bytes, limits, SAFE_AGE, maxSize, full, now, w, 0, total + UINT64 - maxSize, maxSize, 0);
    ops', window' := full + [AllowOp(SOMEONE, maxSize, 0)], Some(Count(c, maxSize));
  }

  lemma WrapsPastTwice(limits: Limits, maxSize: nat) returns (ops: seq<Op>)
    requires ValidLimits(limits) && limits.bytes > 0 && maxSize < UINT64 && !NoWrap(Bytes, limits, maxSize)
    requires CountsMessages(limits) ==> 2 * limits.bytes < UINT64
    ensures Orderly(0, ops, SAFE_AGE) && SizesBelow(ops, maxSize)
    ensures PerSecond(Bytes, Log(Run(limits, 0, ops), SOMEONE), 0) > 2 * limits.bytes
  {
    Nothing(Bytes, limits, SAFE_AGE, maxSize, 0);
    if CountsMessages(limits) {
      PiecesCarry(maxSize, UINT64 - maxSize, limits.msgs - 1);
    }
    var window: Option<PeerWindow>;
    ops, window := WrapRound(limits, maxSize, [], None, 0);
    if !CountsMessages(limits) {
      ops, window := WrapRound(limits, maxSize, ops, window, UINT64);
    }
  }

  /**
   The byte bound holds for all traces if and only if no addition can wrap: the most a window can
   hold before its last message, which the message limit may keep small, and the largest message
   stay below 2^64 together.
   */
  lemma SafeIffNoWrap(limits: Limits, maxSize: nat)
    requires ValidLimits(limits) && limits.bytes > 0 && maxSize < UINT64
    requires CountsMessages(limits) ==> 2 * limits.bytes < UINT64
    ensures AlwaysWithinTwice(Bytes, limits, SAFE_AGE, maxSize) <==> NoWrap(Bytes, limits, maxSize)
  {
    if NoWrap(Bytes, limits, maxSize) {
      WaitingIsSafe(Bytes, limits, SAFE_AGE, maxSize);
    } else {
      var ops := WrapsPastTwice(limits, maxSize);
    }
  }

  lemma WaitingIsSafe(k: Kind, limits: Limits, age: int, maxSize: nat)
    requires ValidLimits(limits) && Limit(k, limits) > 0 && NoWrap(k, limits, maxSize) && age >= SAFE_AGE
    ensures AlwaysWithinTwice(k, limits, age, maxSize)
  {
    forall start, ops, id, a | Orderly(start, ops, age) && SizesBelow(ops, maxSize)
      ensures PerSecond(k, Log(Run(limits, start, ops), id), a) <= 2 * Limit(k, limits)
    {
      assert Orderly(start, ops, SAFE_AGE);
      TwiceLimitInAnySecond(k, limits, start, ops, maxSize, id, a);
    }
  }

  // ----- pruning -----

  /** Messages of up to `maxSize` can use up the limit, one small message having gone before if two are allowed. */
  ghost predicate CanFill(k: Kind, limits: Limits, maxSize: nat) {
    k.Bytes? ==>
      maxSize > 0
      && (CountsMessages(limits) ==> limits.bytes <= (if limits.msgs == 1 then 1 else limits.msgs - 1) * maxSize)
  }

  /** A window always opens with a message let in, and lets in no other. */
  predicate OneAtStart(limits: Limits, maxSize: int) {
    limits.msgs == 1 && (limits.bytes == 0 || maxSize <= limits.bytes)
  }

  /** Pruning at `t` and filling the new window at once. */
  lemma DropAndFill(
    k: Kind, limits: Limits, age: nat, maxSize: nat, ops: seq<Op>, now: int, w: PeerWindow, a: int, total: int, t: int)
    returns (ops': seq<Op>, now': int, w': PeerWindow)
    requires ValidLimits(limits) && Limit(k, limits) > 0 && NoWrap(k, limits, maxSize) && CanFill(k, limits, maxSize)
    requires Doing(k, limits, age, maxSize, ops, now, Some(w), a, total)
    requires now <= t && w.start < t - age && a <= t < a + SECOND
    ensures Doing(k, limits, age, maxSize, ops', now', Some(w'), a, total + Limit(k, limits))
    ensures now' <= t && w'.start == t
  {
    Drop(k, limits, age, maxSize, ops, now, w, a, total, t);
    ops', now', w' := FillFresh(k, limits, age, maxSize, ops + [PruneOp(age, t)], t, a, total, t);
  }

  lemma FillFresh(
    k: Kind, limits: Limits, age: nat, maxSize: nat, ops: seq<Op>, now: int, a: int, total: int, t: int)
    returns (ops': seq<Op>, now': int, w': PeerWindow)
    requires ValidLimits(limits) && Limit(k, limits) > 0 && NoWrap(k, limits, maxSize) && CanFill(k, limits, maxSize)
    requires Doing(k, limits, age, maxSize, ops, now, None, a, total) && now <= t && a <= t < a + SECOND
    ensures Doing(k, limits, age, maxSize, ops', now', Some(w'), a, total + Limit(k, limits))
    ensures now' <= t && w'.start == t
  {
    var window': Option<PeerWindow>;
    if k.Bytes? && CountsMessages(limits) {
      PiecesCarry(maxSize, limits.bytes, if limits.msgs == 1 then 1 else limits.msgs - 1);
    }
    ops', now', window' := FillUpTo(
      k, limits, age, maxSize, 0, ops, now, None, a, total, t, Limit(k, limits));
    w' := window'.value;
  }

  /** Windows that open with a message pruned early: three of them within a second. */
  lemma ThreeWindows(k: Kind, limits: Limits, age: nat, maxSize: nat) returns (ops: seq<Op>)
    requires ValidLimits(limits) && Limit(k, limits) > 0 && NoWrap(k, limits, maxSize) && CanFill(k, limits, maxSize)
    requires 2 * (age + 1) < SECOND
    ensures Orderly(0, ops, age) && SizesBelow(ops, maxSize)
    ensures PerSecond(k, Log(Run(limits, 0, ops), SOMEONE), 0) > 2 * Limit(k, limits)
  {
    var now, w;
    Nothing(k, limits, age, maxSize, 0);
    ops, now, w := FillFresh(k, limits, age, maxSize, [], 0, 0, 0, 0);
    ops, now, w := DropAndFill(k, limits, age, maxSize, ops, now, w, 0, Limit(k, limits), age + 1);
    ops, now, w := DropAndFill(k, limits, age, maxSize, ops, now, w, 0, 2 * Limit(k, limits), 2 * (age + 1));
  }

  lemma RoomAfterOpener(k: Kind, limits: Limits, maxSize: nat, c: PeerWindow)
    requires ValidLimits(limits) && Limit(k, limits) > 0 && NoWrap(k, limits, maxSize) && CanFill(k, limits, maxSize)
    requires c.bytes == 0 && 0 <= c.msgs <= if limits.msgs == 1 then 0 else 1
    ensures Counter(k, c) < Limit(k, limits) && 0 <= Counter(k, c) <= 1 && (k.Bytes? ==> Counter(k, c) == 0)
    ensures HasRoom(k, limits, maxSize, 0, c, Limit(k, limits) - Counter(k, c))
  {
    if k.Bytes? && CountsMessages(limits) {
      PiecesCarry(maxSize, limits.bytes, if limits.msgs == 1 then 1 else limits.msgs - 1);
    }
  }

  /** A message into an empty window that leaves the limit all but untouched. */
  lemma Opener(k: Kind, limits: Limits, maxSize: nat) returns (size: nat, c: PeerWindow)
    requires ValidLimits(limits) && Limit(k, limits) > 0 && !OneAtStart(limits, maxSize) && maxSize < UINT64
    ensures size <= maxSize && Admit(limits, None, size, 0).0 == Some(c) && c.start == 0
    ensures c.bytes == 0 && 0 <= c.msgs <= if limits.msgs == 1 then 0 else 1
  {
    size := if limits.msgs == 1 then limits.bytes + 1 else 0;
    c := Admit(limits, None, size, 0).0.value;
  }

  lemma Open(k: Kind, limits: Limits, age: nat, maxSize: nat, a: int) returns (ops: seq<Op>, c: PeerWindow)
    requires ValidLimits(limits) && Limit(k, limits) > 0 && NoWrap(k, limits, maxSize) && CanFill(k, limits, maxSize)
    requires !OneAtStart(limits, maxSize) && a > 0 && maxSize < UINT64
    ensures Doing(k, limits, age, maxSize, ops, 0, Some(c), a, 0) && c.start == 0
    ensures Counter(k, c) < Limit(k, limits) && 0 <= Counter(k, c) <= 1 && (k.Bytes? ==> Counter(k, c) == 0)
    ensures HasRoom(k, limits, maxSize, 0, c, Limit(k, limits) - Counter(k, c))
  {
    var size;
    size, c := Opener(k, limits, maxSize);
    RoomAfterOpener(k, limits, maxSize, c);
    Nothing(k, limits, age, maxSize, a);
    Send(k, limits, age, maxSize, [], 0, None, a, 0, size, 0);
    ops := [] + [AllowOp(SOMEONE, size, 0)];
  }

  /** Otherwise a window can open early, fill late and be pruned, with two more within a second. */
  lemma LateWindows(k: Kind, limits: Limits, age: nat, maxSize: nat) returns (ops: seq<Op>)
    requires ValidLimits(limits) && Limit(k, limits) > 0 && NoWrap(k, limits, maxSize) && CanFill(k, limits, maxSize)
    requires !OneAtStart(limits, maxSize) && maxSize < UINT64 && age < SAFE_AGE
    ensures Orderly(0, ops, age) && SizesBelow(ops, maxSize)
    ensures PerSecond(k, Log(Run(limits, 0, ops), SOMEONE), age + 1) > 2 * Limit(k, limits)
  {
    var t, c, now, window, w := age + 1, PeerWindow(0, 0, 0), 0, None, PeerWindow(0, 0, 0);
    ops, c := Open(k, limits, age, maxSize, t);
    var more := Limit(k, limits) - Counter(k, c);
    ops, now, window := FillUpTo(k, limits, age, maxSize, 0, ops, 0, Some(c), t, 0, t, more);
    ops, now, w := DropAndFill(k, limits, age, maxSize, ops, now, window.value, t, more, t);
    ops, now, w := DropAndFill(k, limits, age, maxSize, ops, now, w, t, more + Limit(k, limits), 2 * t);
  }

  // ----- one message to a window -----

  ghost predicate Spaced(log: seq<Entry>, gap: int) {
    forall i, j :: 0 <= i < j < |log| ==> log[i].time + gap <= log[j].time
  }

  ghost predicate Light(k: Kind, limit: int, log: seq<Entry>) {
    forall i :: 0 <= i < |log| ==> Weight(k, log[i].size) <= limit
  }

  lemma {:induction false} LateEntriesDoNotMatter(k: Kind, log: seq<Entry>, a: int, b: int, b': int)
    requires b' <= b && forall i :: 0 <= i < |log| ==> log[i].time < b'
    ensures Between(k, log, a, b) == Between(k, log, a, b')
  {
    if log != [] {
      LateEntriesDoNotMatter(k, log[..|log| - 1], a, b, b');
    }
  }

  /** Entries so far apart: n of them at most in n times that distance. */
  lemma {:induction false} SpacedEntries(k: Kind, limit: nat, log: seq<Entry>, gap: int, a: int, b: int, n: nat)
    requires Spaced(log, gap) && Light(k, limit, log) && gap > 0 && b - a <= n * gap
    ensures Between(k, log, a, b) <= n * limit
  {
    if log != [] {
      var init, last := log[..|log| - 1], log[|log| - 1];
      if a <= last.time < b {
        LateEntriesDoNotMatter(k, init, a, b, last.time - gap + 1);
        assert n >= 1 && (n - 1) * gap == n * gap - gap && (n - 1) * limit == n * limit - limit;
        SpacedEntries(k, limit, init, gap, a, last.time - gap + 1, n - 1);
      } else {
        SpacedEntries(k, limit, init, gap, a, b, n);
      }
    }
  }

  ghost predicate OneInv(k: Kind, limit: int, gap: int, log: seq<Entry>, window: Option<PeerWindow>, clock: int) {
    Spaced(log, gap) && Light(k, limit, log)
    && match window
       case Some(w) => w.msgs == 1 && w.start <= clock && log != [] && log[|log| - 1].time == w.start
       case None => log == [] || log[|log| - 1].time + gap <= clock
  }

  lemma AllowKeepsOne(
    k: Kind, limits: Limits, maxSize: nat, gap: int, log: seq<Entry>, window: Option<PeerWindow>, clock: int,
    size: nat, now: int)
    requires ValidLimits(limits) && Limit(k, limits) > 0 && OneAtStart(limits, maxSize) && 0 < gap <= SECOND
    requires OneInv(k, Limit(k, limits), gap, log, window, clock) && clock <= now && size <= maxSize
    ensures var r := Admit(limits, window, size, now);
            OneInv(k, Limit(k, limits), gap, if r.1 then log + [Entry(now, size)] else log, r.0, now)
  {
  }

  lemma PassKeepsOne(
    k: Kind, limit: int, gap: int, log: seq<Entry>, window: Option<PeerWindow>, clock: int, now: int, drop: bool)
    requires OneInv(k, limit, gap, log, window, clock) && clock <= now
    requires drop ==> window.Some? && window.value.start + gap <= now
    ensures OneInv(k, limit, gap, log, if drop then None else window, now)
  {
  }

  lemma StepKeepsOne(k: Kind, limits: Limits, w: World, op: Op, age: nat, maxSize: nat, gap: int, id: Peer)
    requires ValidLimits(limits) && Limit(k, limits) > 0 && OneAtStart(limits, maxSize) && gap == Min(age + 1, SECOND)
    requires OneInv(k, Limit(k, limits), gap, Log(w, id), Find(w.windows, id), w.clock) && w.clock <= op.now
    requires if op.PruneOp? then op.olderThan >= age else op.size <= maxSize
    ensures var w' := Step(limits, w, op);
            OneInv(k, Limit(k, limits), gap, Log(w', id), Find(w'.windows, id), w'.clock) && w'.clock == op.now
  {
    var window := Find(w.windows, id);
    if op.AllowOp? && op.id == id {
      AllowKeepsOne(k, limits, maxSize, gap, Log(w, id), window, w.clock, op.size, op.now);
    } else {
      var drop := op.PruneOp? && window.Some? && Stale(window.value, op.now, op.olderThan);
      PassKeepsOne(k, Limit(k, limits), gap, Log(w, id), window, w.clock, op.now, drop);
    }
  }

  lemma {:induction false} RunKeepsOne(
    k: Kind, limits: Limits, start: int, ops: seq<Op>, age: nat, maxSize: nat, gap: int, id: Peer)
    requires ValidLimits(limits) && Limit(k, limits) > 0 && OneAtStart(limits, maxSize) && gap == Min(age + 1, SECOND)
    requires Orderly(start, ops, age) && SizesBelow(ops, maxSize)
    ensures var w := Run(limits, start, ops);
            OneInv(k, Limit(k, limits), gap, Log(w, id), Find(w.windows, id), w.clock)
    ensures Run(limits, start, ops).clock == if ops == [] then start else ops[|ops| - 1].now
  {
    if ops != [] {
      var init, op := ops[..|ops| - 1], ops[|ops| - 1];
      RunKeepsOne(k, limits, start, init, age, maxSize, gap, id);
      assert op in ops;
      StepKeepsOne(k, limits, Run(limits, start, init), op, age, maxSize, gap, id);
    }
  }

  lemma HalfIsEnough(k: Kind, limits: Limits, age: nat, maxSize: nat)
    requires ValidLimits(limits) && Limit(k, limits) > 0 && OneAtStart(limits, maxSize) && 2 * (age + 1) >= SECOND
    ensures AlwaysWithinTwice(k, limits, age, maxSize)
  {
    forall start, ops, id, a | Orderly(start, ops, age) && SizesBelow(ops, maxSize)
      ensures PerSecond(k, Log(Run(limits, start, ops), id), a) <= 2 * Limit(k, limits)
    {
      var gap := Min(age + 1, SECOND);
      RunKeepsOne(k, limits, start, ops, age, maxSize, gap, id);
      SpacedEntries(k, Limit(k, limits), Log(Run(limits, start, ops), id), gap, a, a + SECOND, 2);
    }
  }

  /**
   How long pruning must wait for the bound to hold in all traces: until a window is a second old,
   or half a second where a window always opens with the only message it lets in.
   */
  lemma SafeIffPruningWaits(k: Kind, limits: Limits, age: nat, maxSize: nat)
    requires ValidLimits(limits) && Limit(k, limits) > 0 && maxSize < UINT64
    requires NoWrap(k, limits, maxSize) && CanFill(k, limits, maxSize)
    ensures AlwaysWithinTwice(k, limits, age, maxSize)
            <==> if OneAtStart(limits, maxSize) then 2 * (age + 1) >= SECOND else age >= SAFE_AGE
  {
    if OneAtStart(limits, maxSize) {
      if 2 * (age + 1) >= SECOND {
        HalfIsEnough(k, limits, age, maxSize);
      } else {
        var ops := ThreeWindows(k, limits, age, maxSize);
      }
    } else if age >= SAFE_AGE {
      WaitingIsSafe(k, limits, age, maxSize);
    } else {
      var ops := LateWindows(k, limits, age, maxSize);
    }
  }
}
