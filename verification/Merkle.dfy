/**
 The Merkle tree the command-line tools build, the proofs they hand out, and the on-chain check.
 The hash is a parameter: completeness holds for every function, soundness for every function
 that has no collision among the byte strings actually hashed.
 */
module Merkle {
  import opened Options
  import opened MerkleTree

  type Byte = b: int | 0 <= b < 256
  type Bytes32 = s: seq<Byte> | |s| == 32 witness seq(32, i => 0)
  type Hash = seq<Byte> -> Bytes32

  function HashOf(h: Hash, s: seq<Byte>): Bytes32 {
    h(s)
  }

  function Join(a: seq<Byte>, b: seq<Byte>): seq<Byte> {
    a + b
  }

  // ----- comparing hashes: bytes in the tools, numbers on chain -----

  /** First difference decides; a proper prefix is less. */
  predicate BytesLess(a: seq<Byte>, b: seq<Byte>) {
    if a == [] || b == [] then |a| < |b|
    else if a[0] != b[0] then a[0] < b[0]
    else BytesLess(a[1..], b[1..])
  }

  /** That is dictionary order: a proper prefix first, otherwise the smaller byte at the first difference. */
  lemma {:induction false} LessIsDictionary(a: seq<Byte>, b: seq<Byte>, k: nat)
    requires k <= |a| && k <= |b| && a[..k] == b[..k]
    requires k < |a| && k < |b| ==> a[k] != b[k]
    ensures BytesLess(a, b) <==> k < |b| && (k == |a| || a[k] < b[k])
  {
    if k > 0 {
      assert a[0] == a[..k][0] == b[..k][0] == b[0];
      assert a[1..][..k - 1] == a[..k][1..] && b[1..][..k - 1] == b[..k][1..];
      LessIsDictionary(a[1..], b[1..], k - 1);
    }
  }

  method CompareBytes(a: seq<Byte>, b: seq<Byte>) returns (less: bool)
    ensures less == BytesLess(a, b)
  {
    var i := 0;
    while i < |a| && i < |b|
      invariant 0 <= i <= |a| && i <= |b|
      invariant BytesLess(a, b) == BytesLess(a[i..], b[i..])
    {
      if a[i] != b[i] {
        return a[i] < b[i];
      }
      i := i + 1;
    }
    return |a| < |b|;
  }

  /** The big-endian number a byte string spells. */
  function ToNat(s: seq<Byte>): nat {
    if s == [] then 0 else ToNat(s[..|s| - 1]) * 256 + s[|s| - 1]
  }

  lemma {:induction false} LessAtEnd(a: seq<Byte>, b: seq<Byte>, x: Byte, y: Byte)
    requires |a| == |b|
    ensures BytesLess(a + [x], b + [y]) <==> BytesLess(a, b) || (a == b && x < y)
  {
    if a != [] {
      assert (a + [x])[1..] == a[1..] + [x] && (b + [y])[1..] == b[1..] + [y];
      LessAtEnd(a[1..], b[1..], x, y);
      assert a == [a[0]] + a[1..] && b == [b[0]] + b[1..];
    }
  }

  /** For equal lengths the two orders agree. */
  lemma {:induction false} LessIsNumeric(a: seq<Byte>, b: seq<Byte>)
    requires |a| == |b|
    ensures BytesLess(a, b) <==> ToNat(a) < ToNat(b)
    ensures a == b <==> ToNat(a) == ToNat(b)
  {
    if a != [] {
      var a', x, b', y := a[..|a| - 1], a[|a| - 1], b[..|b| - 1], b[|b| - 1];
      assert a == a' + [x] && b == b' + [y];
      LessIsNumeric(a', b');
      LessAtEnd(a', b', x, y);
    }
  }

  // ----- hashing pairs -----

  /** The 64 bytes hashed for two nodes, smaller first, as buildTree orders them. */
  function PairBytes(a: Bytes32, b: Bytes32): seq<Byte> {
    if BytesLess(b, a) then b + a else a + b
  }

  /** One round of MerkleProof.verify, which compares numbers. */
  function VerifyStep(h: Hash, computed: Bytes32, element: Bytes32): Bytes32 {
    if ToNat(computed) <= ToNat(element) then h(computed + element) else h(element + computed)
  }

  /** Contract and tools hash a pair of siblings alike, whichever side each is on. */
  lemma PairIsSymmetric(h: Hash, a: Bytes32, b: Bytes32)
    ensures VerifyStep(h, a, b) == h(PairBytes(a, b)) == h(PairBytes(b, a))
  {
    LessIsNumeric(a, b);
    LessIsNumeric(b, a);
  }

  /** A parent is the hash of its children's 64 bytes, the numerically smaller child in front. */
  lemma ParentIsAscending(h: Hash, a: Bytes32, b: Bytes32)
    ensures NodeHash(h)(a, b) == if ToNat(a) <= ToNat(b) then h(a + b) else h(b + a)
  {
    PairIsSymmetric(h, a, b);
  }

  /** A parent of the tools' trees. */
  function NodeHash(h: Hash): (Bytes32, Bytes32) -> Bytes32 {
    (a: Bytes32, b: Bytes32) => h(PairBytes(a, b))
  }

  // ----- building and proving -----

  method BuildLevel(h: Hash, cur: seq<Bytes32>) returns (next: seq<Bytes32>)
    ensures next == NextLevel(NodeHash(h), cur)
  {
    ghost var node := NodeHash(h);
    next := [];
    var i := 0;
    while i < |cur|
      invariant 0 <= i <= |cur|
      invariant NextLevel(node, cur) == next + NextLevel(node, cur[i..])
      decreases |cur| - i
    {
      if i + 1 >= |cur| {
        next := next + [cur[i]];
        return;
      }
      LevelStep(node, cur, i, next);
      var parent := HashPair(h, cur[i], cur[i + 1]);
      next := next + [parent];
      i := i + 2;
    }
  }

  method HashPair(h: Hash, left: Bytes32, right: Bytes32) returns (parent: Bytes32)
    ensures parent == NodeHash(h)(left, right)
  {
    var a, b := left, right;
    var swap := CompareBytes(b, a);
    if swap {
      a, b := b, a;
    }
    var bytes := Join(a, b);
    assert bytes == PairBytes(left, right);
    return HashOf(h, bytes);
  }

  lemma LevelStep<N>(node: (N, N) -> N, cur: seq<N>, i: nat, next: seq<N>)
    requires i + 1 < |cur|
    ensures next + NextLevel(node, cur[i..]) == next + [node(cur[i], cur[i + 1])] + NextLevel(node, cur[i + 2..])
  {
    assert cur[i..][2..] == cur[i + 2..];
  }

  method BuildTree(h: Hash, leaves: seq<Bytes32>) returns (root: Bytes32, levels: seq<seq<Bytes32>>)
    requires leaves != []
    ensures levels == Levels(NodeHash(h), leaves) && root == Root(NodeHash(h), leaves)
  {
    ghost var node := NodeHash(h);
    ghost var below := [];
    levels := [leaves];
    var cur := leaves;
    while |cur| > 1
      invariant levels == below + [cur] && cur != []
      invariant Levels(node, leaves) == below + Levels(node, cur)
      invariant Root(node, leaves) == Root(node, cur)
      decreases |cur|
    {
      LevelsUnfold(node, cur, below);
      below := below + [cur];
      cur := BuildLevel(h, cur);
      levels := levels + [cur];
    }
    root := cur[0];
  }

  lemma LevelsUnfold<N>(node: (N, N) -> N, cur: seq<N>, below: seq<seq<N>>)
    requires |cur| > 1
    ensures below + Levels(node, cur) == below + [cur] + Levels(node, NextLevel(node, cur))
    ensures Root(node, cur) == Root(node, NextLevel(node, cur))
  {
    assert Levels(node, cur) == [cur] + Levels(node, NextLevel(node, cur));
    Associate(below, [cur], Levels(node, NextLevel(node, cur)));
  }

  lemma LevelsTail<N>(node: (N, N) -> N, levels: seq<seq<N>>, L: nat)
    requires L < |levels| - 1 && levels[L..] == Levels(node, levels[L])
    ensures |levels[L]| > 1 && levels[L + 1] == NextLevel(node, levels[L])
    ensures levels[L + 1..] == Levels(node, levels[L + 1])
  {
    assert levels[L..][1..] == levels[L + 1..];
    assert levels[L..][1] == levels[L + 1];
  }

  lemma ProofUnfold<N>(node: (N, N) -> N, cur: seq<N>, idx: nat)
    requires |cur| > 1 && idx < |cur|
    ensures ProofFor(node, cur, idx)
            == (if Sibling(idx) < |cur| then [cur[Sibling(idx)]] else [])
               + ProofFor(node, NextLevel(node, cur), idx / 2)
  {
  }

  lemma Associate<T>(a: seq<T>, b: seq<T>, c: seq<T>)
    ensures a + (b + c) == (a + b) + c
  {
  }

  lemma ProofStep<N>(node: (N, N) -> N, cur: seq<N>, idx: nat, proof: seq<N>)
    requires |cur| > 1 && idx < |cur|
    ensures var proof' := if Sibling(idx) < |cur| then proof + [cur[Sibling(idx)]] else proof;
            proof + ProofFor(node, cur, idx) == proof' + ProofFor(node, NextLevel(node, cur), idx / 2)
  {
    ProofUnfold(node, cur, idx);
    Associate(
      proof, if Sibling(idx) < |cur| then [cur[Sibling(idx)]] else [], ProofFor(node, NextLevel(node, cur), idx / 2));
  }

  /** Where a leaf is listed first. */
  function FirstIndex(leaves: seq<Bytes32>, leaf: Bytes32): (i: nat)
    requires leaf in leaves
    ensures i < |leaves| && leaves[i] == leaf && forall j :: 0 <= j < i ==> leaves[j] != leaf
  {
    if leaves[0] == leaf then 0 else 1 + FirstIndex(leaves[1..], leaf)
  }

  /** The siblings on the way up from the leaf's first place, or nothing when it is not listed. */
  method GetProof(h: Hash, leaves: seq<Bytes32>, levels: seq<seq<Bytes32>>, leaf: Bytes32)
    returns (r: Option<seq<Bytes32>>)
    requires leaves != [] && levels == Levels(NodeHash(h), leaves)
    ensures r == if leaf in leaves then Some(ProofFor(NodeHash(h), leaves, FirstIndex(leaves, leaf))) else None
  {
    ghost var node := NodeHash(h);
    var idx := 0;
    while idx < |leaves| && leaves[idx] != leaf
      invariant 0 <= idx <= |leaves|
      invariant forall j :: 0 <= j < idx ==> leaves[j] != leaf
    {
      idx := idx + 1;
    }
    if idx == |leaves| {
      return None;
    }
    ghost var start := idx;
    assert start == FirstIndex(leaves, leaf);
    var proof := [];
    var L := 0;
    while L < |levels| - 1
      invariant 0 <= L < |levels| && levels[L..] == Levels(node, levels[L])
      invariant 0 <= idx < |levels[L]|
      invariant ProofFor(node, leaves, start) == proof + ProofFor(node, levels[L], idx)
    {
      LevelsTail(node, levels, L);
      ProofStep(node, levels[L], idx, proof);
      var siblingIdx := Sibling(idx);
      if siblingIdx < |levels[L]| {
        proof := proof + [levels[L][siblingIdx]];
      }
      idx := idx / 2;
      L := L + 1;
    }
    assert |levels[L]| == 1;
    assert proof == ProofFor(node, leaves, start);
    return Some(proof);
  }

  /** The running hash of MerkleProof.verify. */
  function Fold(h: Hash, leaf: Bytes32, proof: seq<Bytes32>): Bytes32 {
    if proof == [] then leaf else VerifyStep(h, Fold(h, leaf, proof[..|proof| - 1]), proof[|proof| - 1])
  }

  method Verify(h: Hash, proof: seq<Bytes32>, root: Bytes32, leaf: Bytes32) returns (ok: bool)
    ensures ok <==> Fold(h, leaf, proof) == root
  {
    var computedHash := leaf;
    for i := 0 to |proof|
      invariant computedHash == Fold(h, leaf, proof[..i])
    {
      assert proof[..i + 1][..i] == proof[..i];
      var element := proof[i];
      if ToNat(computedHash) <= ToNat(element) {
        computedHash := HashOf(h, Join(computedHash, element));
      } else {
        computedHash := HashOf(h, Join(element, computedHash));
      }
    }
    assert proof[..|proof|] == proof;
    return computedHash == root;
  }

  /** The contract folds a proof as the tools climb their tree. */
  lemma {:induction false} FoldIsClimb(h: Hash, leaf: Bytes32, proof: seq<Bytes32>)
    ensures Fold(h, leaf, proof) == Climb(NodeHash(h), leaf, proof)
  {
    if proof != [] {
      var init := proof[..|proof| - 1];
      FoldIsClimb(h, leaf, init);
      PairIsSymmetric(h, Fold(h, leaf, init), proof[|proof| - 1]);
    }
  }

  lemma NodeHashIsSymmetric(h: Hash)
    ensures Symmetric(NodeHash(h))
  {
    forall a: Bytes32, b: Bytes32
      ensures NodeHash(h)(a, b) == NodeHash(h)(b, a)
    {
      PairIsSymmetric(h, a, b);
    }
  }

  /** The proof of any position of any list of leaves passes the contract's check. */
  lemma MerkleComplete(h: Hash, leaves: seq<Bytes32>, i: nat)
    requires i < |leaves|
    ensures var proof := ProofFor(NodeHash(h), leaves, i);
            Fold(h, leaves[i], proof) == Root(NodeHash(h), leaves) && |proof| <= Depth(|leaves|)
  {
    NodeHashIsSymmetric(h);
    ProofClimbsToRoot(NodeHash(h), leaves, i);
    ProofIsShort(NodeHash(h), leaves, i);
    FoldIsClimb(h, leaves[i], ProofFor(NodeHash(h), leaves, i));
  }

  /** What the tools print is accepted on chain: any leaf count, any leaf, duplicates included. */
  method ProveAndVerify(h: Hash, leaves: seq<Bytes32>, leaf: Bytes32) returns (r: Option<seq<Bytes32>>, ok: bool)
    requires leaves != []
    ensures r.Some? == ok == (leaf in leaves)
    ensures r.Some? ==> |r.value| <= Depth(|leaves|)
  {
    var root, levels := BuildTree(h, leaves);
    r := GetProof(h, leaves, levels, leaf);
    ok := false;
    if r.Some? {
      MerkleComplete(h, leaves, FirstIndex(leaves, leaf));
      ok := Verify(h, r.value, root, leaf);
    }
  }

  // ----- soundness -----

  /** `h` tells these byte strings apart. */
  ghost predicate NoCollision(h: Hash, hashed: set<seq<Byte>>) {
    forall x, y :: x in hashed && y in hashed && h(x) == h(y) ==> x == y
  }

  /** Every byte string hashed when the items are put in a tree and `item` is checked against it. */
  function Hashed(h: Hash, items: seq<seq<Byte>>, leaves: seq<Bytes32>, item: seq<Byte>, proof: seq<Bytes32>)
    : set<seq<Byte>>
  {
    (set x | x in items) + {item}
    + TreePairs(NodeHash(h), PairBytes, leaves) + ClimbPairs(NodeHash(h), PairBytes, h(item), proof)
  }

  /** `leaves` are the hashes of `items`, in any order. */
  ghost predicate AreLeavesOf(h: Hash, items: seq<seq<Byte>>, leaves: seq<Bytes32>) {
    forall l :: l in leaves <==> exists x :: x in items && h(x) == l
  }

  /** The same 64 bytes come from the same two nodes. */
  lemma PairBytesPinned(a: Bytes32, b: Bytes32, c: Bytes32, d: Bytes32)
    requires PairBytes(a, b) == PairBytes(c, d)
    ensures c == a || c == b
  {
    assert PairBytes(a, b)[..32] == (if BytesLess(b, a) then b else a);
    assert PairBytes(a, b)[32..] == (if BytesLess(b, a) then a else b);
    assert PairBytes(c, d)[..32] == (if BytesLess(d, c) then d else c);
    assert PairBytes(c, d)[32..] == (if BytesLess(d, c) then c else d);
  }

  /** Without collisions, and with leaves that are not 64 bytes long, hashed pairs are told apart. */
  lemma HashDistinguishes(
    h: Hash, pairs: set<seq<Byte>>, items: seq<seq<Byte>>, leaves: seq<Bytes32>, item: seq<Byte>)
    requires NoCollision(h, (set x | x in items) + {item} + pairs) && AreLeavesOf(h, items, leaves)
    requires |item| != 64 && forall x :: x in items ==> |x| != 64
    ensures Distinguishes(NodeHash(h), PairBytes, pairs, leaves, h(item))
  {
    var hashed := (set x | x in items) + {item} + pairs;
    forall a: Bytes32, b: Bytes32, c: Bytes32, d: Bytes32
      | PairBytes(a, b) in pairs && PairBytes(c, d) in pairs && NodeHash(h)(a, b) == NodeHash(h)(c, d)
      ensures c == a || c == b
    {
      assert PairBytes(a, b) in hashed && PairBytes(c, d) in hashed;
      PairBytesPinned(a, b, c, d);
    }
    forall a: Bytes32, b: Bytes32 | PairBytes(a, b) in pairs
      ensures NodeHash(h)(a, b) !in leaves && NodeHash(h)(a, b) != h(item)
    {
      assert PairBytes(a, b) in hashed && |PairBytes(a, b)| == 64 && item in hashed;
      forall x | x in items
        ensures h(x) != h(PairBytes(a, b))
      {
        assert x in hashed;
      }
    }
  }

  /**
   A proof of any length that the contract accepts for `item` shows that `item` was put in the
   tree, unless the hash collides on byte strings that were really hashed.
   */
  lemma MerkleSound(
    h: Hash, items: seq<seq<Byte>>, leaves: seq<Bytes32>, item: seq<Byte>, proof: seq<Bytes32>)
    requires leaves != [] && AreLeavesOf(h, items, leaves)
    requires |item| != 64 && forall x :: x in items ==> |x| != 64
    requires Fold(h, h(item), proof) == Root(NodeHash(h), leaves)
    requires NoCollision(h, Hashed(h, items, leaves, item, proof))
    ensures item in items
  {
    var node := NodeHash(h);
    var pairs := TreePairs(node, PairBytes, leaves) + ClimbPairs(node, PairBytes, h(item), proof);
    assert Hashed(h, items, leaves, item, proof) == (set x | x in items) + {item} + pairs;
    HashDistinguishes(h, pairs, items, leaves, item);
    FoldIsClimb(h, h(item), proof);
    RootIsAtTop(node, leaves);
    Descend(node, PairBytes, pairs, leaves, h(item), Depth(|leaves|), proof);
    var x :| x in items && h(x) == h(item);
    assert x in Hashed(h, items, leaves, item, proof) && item in Hashed(h, items, leaves, item, proof);
  }

  // ----- the reward list's leaves -----

  datatype Entry = Entry(account: seq<Byte>, amount: int)

  function Pow256(k: nat): nat {
    if k == 0 then 1 else 256 * Pow256(k - 1)
  }

  /** The low `len` bytes of a number, most significant first. */
  function ToBytes(n: nat, len: nat): (r: seq<Byte>)
    ensures |r| == len
  {
    if len == 0 then [] else ToBytes(n / 256, len - 1) + [n % 256]
  }

  function Abs(n: int): nat {
    if n < 0 then -n else n
  }

  /** How many bytes a number takes without leading zeros. */
  function ByteLength(n: nat): (len: nat)
    ensures n < Pow256(len)
  {
    if n == 0 then 0 else ByteLength(n / 256) + 1
  }

  /** LeftPadBytes(.., 32): longer numbers keep all their bytes. */
  function PaddedWidth(n: nat): (width: nat)
    ensures width >= 32 && n < Pow256(width)
  {
    Pow256Grows(ByteLength(n), 32);
    if ByteLength(n) > 32 then ByteLength(n) else 32
  }

  lemma {:induction false} Pow256Grows(a: nat, b: nat)
    ensures a <= b ==> Pow256(a) <= Pow256(b)
    decreases b
  {
    if a < b {
      Pow256Grows(a, b - 1);
    }
  }

  /** Index, account and amount, packed; the tool takes the magnitude of the amount. */
  function EntryBytes(index: nat, e: Entry): (r: seq<Byte>)
    ensures |r| == 32 + |e.account| + PaddedWidth(Abs(e.amount))
  {
    ToBytes(index, 32) + e.account + ToBytes(Abs(e.amount), PaddedWidth(Abs(e.amount)))
  }

  lemma {:induction false} BytesRoundTrip(n: nat, len: nat)
    requires n < Pow256(len)
    ensures ToNat(ToBytes(n, len)) == n
  {
    if len > 0 {
      BytesRoundTrip(n / 256, len - 1);
      assert ToBytes(n, len)[..len - 1] == ToBytes(n / 256, len - 1);
    }
  }

  /** Leaves are equal exactly when index and account are and the amounts agree up to sign. */
  lemma EntryBytesInjective(i: nat, e: Entry, j: nat, f: Entry)
    requires |e.account| == |f.account| && i < Pow256(32) && j < Pow256(32)
    ensures EntryBytes(i, e) == EntryBytes(j, f) <==> i == j && e.account == f.account && Abs(e.amount) == Abs(f.amount)
  {
    if EntryBytes(i, e) == EntryBytes(j, f) {
      EntryFields(i, e);
      EntryFields(j, f);
    }
  }

  lemma {:induction false} ShortNumbers(n: nat, len: nat)
    requires n < Pow256(len)
    ensures ByteLength(n) <= len
  {
    if n > 0 {
      ShortNumbers(n / 256, len - 1);
    }
  }

  /**
   Index, account and magnitude can be read off a leaf's bytes: 32 bytes of index, the account, and
   the magnitude in 32 bytes too unless it takes more.
   */
  lemma EntryFields(i: nat, e: Entry)
    requires i < Pow256(32)
    ensures var s, n := EntryBytes(i, e), 32 + |e.account|;
            ToNat(s[..32]) == i && s[32..n] == e.account
            && ToNat(s[n..]) == (if e.amount < 0 then -e.amount else e.amount)
            && (Abs(e.amount) < Pow256(32) ==> |s| == n + 32)
  {
    if Abs(e.amount) < Pow256(32) {
      ShortNumbers(Abs(e.amount), 32);
    }
    var s, n, width := EntryBytes(i, e), 32 + |e.account|, PaddedWidth(Abs(e.amount));
    assert s[..32] == ToBytes(i, 32) && s[32..n] == e.account && s[n..] == ToBytes(Abs(e.amount), width);
    BytesRoundTrip(i, 32);
    BytesRoundTrip(Abs(e.amount), width);
  }

  /** A negative amount, which the CSV reader accepts, shares its leaf with its absolute value. */
  lemma NegativeAmountSharesLeaf(i: nat, e: Entry)
    ensures EntryBytes(i, e) == EntryBytes(i, e.(amount := -e.amount))
  {
  }

  function EntryItems(entries: seq<Entry>): seq<seq<Byte>> {
    seq(|entries|, i requires 0 <= i < |entries| => EntryBytes(i, entries[i]))
  }

  /**
   What an accepted reward claim proves: the row of the list at its index has its account and, sign
   apart, its amount.  It is that row exactly when the row's amount is not negative.
   */
  lemma RewardClaimSound(
    h: Hash, entries: seq<Entry>, leaves: seq<Bytes32>, index: nat, claim: Entry, proof: seq<Bytes32>)
    requires leaves != [] && AreLeavesOf(h, EntryItems(entries), leaves)
    requires |entries| <= Pow256(32) && index < Pow256(32)
    requires |claim.account| == 20 && claim.amount >= 0 && forall e :: e in entries ==> |e.account| == 20
    requires Fold(h, h(EntryBytes(index, claim)), proof) == Root(NodeHash(h), leaves)
    requires NoCollision(h, Hashed(h, EntryItems(entries), leaves, EntryBytes(index, claim), proof))
    ensures index < |entries| && entries[index].account == claim.account && Abs(entries[index].amount) == claim.amount
    ensures entries[index] == claim <==> entries[index].amount >= 0
  {
    MerkleSound(h, EntryItems(entries), leaves, EntryBytes(index, claim), proof);
    var i :| 0 <= i < |entries| && EntryItems(entries)[i] == EntryBytes(index, claim);
    assert entries[i] in entries;
    EntryBytesInjective(i, entries[i], index, claim);
  }
}
