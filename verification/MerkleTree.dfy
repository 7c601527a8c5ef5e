/**
 Trees built level by level over any kind of node: `node` makes a parent of two children.  This
 is the shape shared by the two command-line tools, free of bytes and hashes.
 */
module MerkleTree {

  /** Neighbours are joined in pairs; an odd node at the end moves up as it is. */
  function NextLevel<N>(node: (N, N) -> N, cur: seq<N>): (r: seq<N>)
    ensures |r| == (|cur| + 1) / 2
  {
    if |cur| <= 1 then cur else [node(cur[0], cur[1])] + NextLevel(node, cur[2..])
  }

  function Levels<N>(node: (N, N) -> N, cur: seq<N>): (r: seq<seq<N>>)
    ensures r != [] && r[0] == cur
    decreases |cur|
  {
    if |cur| <= 1 then [cur] else [cur] + Levels(node, NextLevel(node, cur))
  }

  function Root<N>(node: (N, N) -> N, cur: seq<N>): N
    requires cur != []
    decreases |cur|
  {
    if |cur| == 1 then cur[0] else Root(node, NextLevel(node, cur))
  }

  /** The other index of a pair; the tools write it `idx ^ 1`. */
  function Sibling(idx: nat): nat {
    if idx % 2 == 0 then idx + 1 else idx - 1
  }

  /** The siblings on the way up from position `idx`. */
  function ProofFor<N>(node: (N, N) -> N, cur: seq<N>, idx: nat): seq<N>
    requires idx < |cur|
    decreases |cur|
  {
    if |cur| == 1 then []
    else (if Sibling(idx) < |cur| then [cur[Sibling(idx)]] else []) + ProofFor(node, NextLevel(node, cur), idx / 2)
  }

  /** Joining a node with the elements of a proof, one after the other. */
  function Climb<N>(node: (N, N) -> N, leaf: N, proof: seq<N>): N {
    if proof == [] then leaf else node(Climb(node, leaf, proof[..|proof| - 1]), proof[|proof| - 1])
  }

  // ----- completeness -----

  ghost predicate Symmetric<N(!new)>(node: (N, N) -> N) {
    forall a, b :: node(a, b) == node(b, a)
  }

  lemma {:induction false} ClimbFirst<N>(node: (N, N) -> N, leaf: N, element: N, proof: seq<N>)
    ensures Climb(node, leaf, [element] + proof) == Climb(node, node(leaf, element), proof)
  {
    if proof == [] {
      assert [element] + proof == [element];
      assert [element][..0] == [];
    } else {
      ClimbFirst(node, leaf, element, proof[..|proof| - 1]);
      assert ([element] + proof)[..|proof|] == [element] + proof[..|proof| - 1];
    }
  }

  /** A node and its sibling, whichever comes first, make the parent. */
  lemma {:induction false} ParentOf<N(!new)>(node: (N, N) -> N, cur: seq<N>, idx: nat)
    requires Symmetric(node) && idx < |cur|
    ensures NextLevel(node, cur)[idx / 2]
            == if Sibling(idx) < |cur| then node(cur[idx], cur[Sibling(idx)]) else cur[idx]
  {
    if idx >= 2 {
      ParentOf(node, cur[2..], idx - 2);
      assert idx / 2 == (idx - 2) / 2 + 1 && Sibling(idx) == Sibling(idx - 2) + 2;
    }
  }

  /** Every position's proof climbs to the root, whatever the number of leaves. */
  lemma {:induction false} ProofClimbsToRoot<N(!new)>(node: (N, N) -> N, cur: seq<N>, idx: nat)
    requires Symmetric(node) && idx < |cur|
    ensures Climb(node, cur[idx], ProofFor(node, cur, idx)) == Root(node, cur)
    decreases |cur|
  {
    if |cur| > 1 {
      var rest := ProofFor(node, NextLevel(node, cur), idx / 2);
      ProofClimbsToRoot(node, NextLevel(node, cur), idx / 2);
      ParentOf(node, cur, idx);
      if Sibling(idx) < |cur| {
        ClimbFirst(node, cur[idx], cur[Sibling(idx)], rest);
      } else {
        assert [] + rest == rest;
      }
    }
  }

  /** The number of levels above n leaves. */
  function Depth(n: nat): nat {
    if n <= 1 then 0 else 1 + Depth((n + 1) / 2)
  }

  function Pow2(k: nat): nat {
    if k == 0 then 1 else 2 * Pow2(k - 1)
  }

  /** Depth is the base-two logarithm, rounded up. */
  lemma {:induction false} DepthIsCeilLog2(n: nat)
    ensures n <= Pow2(Depth(n))
    ensures n > 1 ==> Depth(n) > 0 && Pow2(Depth(n) - 1) < n
    decreases n
  {
    if n > 1 {
      DepthIsCeilLog2((n + 1) / 2);
      if n == 2 {
        assert Depth(1) == 0;
      }
    }
  }

  /** A proof is no longer than the tree is deep. */
  lemma {:induction false} ProofIsShort<N>(node: (N, N) -> N, cur: seq<N>, idx: nat)
    requires idx < |cur|
    ensures |ProofFor(node, cur, idx)| <= Depth(|cur|)
    decreases |cur|
  {
    if |cur| > 1 {
      ProofIsShort(node, NextLevel(node, cur), idx / 2);
    }
  }

  // ----- soundness -----

  function LevelAt<N>(node: (N, N) -> N, cur: seq<N>, k: nat): seq<N> {
    if k == 0 then cur else NextLevel(node, LevelAt(node, cur, k - 1))
  }

  /** What is joined to build one level from another; `pre` is what a parent is computed from. */
  function LevelPairs<N, P>(pre: (N, N) -> P, cur: seq<N>): set<P> {
    if |cur| <= 1 then {} else {pre(cur[0], cur[1])} + LevelPairs(pre, cur[2..])
  }

  function TreePairs<N, P>(node: (N, N) -> N, pre: (N, N) -> P, cur: seq<N>): set<P>
    decreases |cur|
  {
    if |cur| <= 1 then {} else LevelPairs(pre, cur) + TreePairs(node, pre, NextLevel(node, cur))
  }

  function ClimbPairs<N, P>(node: (N, N) -> N, pre: (N, N) -> P, leaf: N, proof: seq<N>): set<P> {
    if proof == [] then {}
    else
      var init := proof[..|proof| - 1];
      ClimbPairs(node, pre, leaf, init) + {pre(Climb(node, leaf, init), proof[|proof| - 1])}
  }

  lemma {:induction false} LevelAtShift<N>(node: (N, N) -> N, cur: seq<N>, k: nat)
    ensures LevelAt(node, NextLevel(node, cur), k) == LevelAt(node, cur, k + 1)
  {
    if k > 0 {
      LevelAtShift(node, cur, k - 1);
    }
  }

  lemma {:induction false} RootIsAtTop<N>(node: (N, N) -> N, cur: seq<N>)
    requires cur != []
    ensures Root(node, cur) in LevelAt(node, cur, Depth(|cur|))
    decreases |cur|
  {
    if |cur| > 1 {
      RootIsAtTop(node, NextLevel(node, cur));
      LevelAtShift(node, cur, Depth(|cur|) - 1);
    }
  }

  lemma {:induction false} SmallLevelStays<N>(node: (N, N) -> N, cur: seq<N>, k: nat)
    requires |cur| <= 1
    ensures |LevelAt(node, cur, k)| <= 1
  {
    if k > 0 {
      SmallLevelStays(node, cur, k - 1);
    }
  }

  lemma {:induction false} PairIsInTree<N, P>(node: (N, N) -> N, pre: (N, N) -> P, cur: seq<N>, k: nat, pair: P)
    requires pair in LevelPairs(pre, LevelAt(node, cur, k))
    ensures pair in TreePairs(node, pre, cur)
    decreases k
  {
    if |cur| <= 1 {
      SmallLevelStays(node, cur, k);
    } else if k > 0 {
      LevelAtShift(node, cur, k - 1);
      PairIsInTree(node, pre, NextLevel(node, cur), k - 1, pair);
    }
  }

  /** A node of a level was moved up from the level below or is the parent of a pair of it. */
  lemma {:induction false} NodeOrigin<N, P>(node: (N, N) -> N, pre: (N, N) -> P, cur: seq<N>, v: N)
    returns (a: N, b: N)
    requires v in NextLevel(node, cur)
    ensures v in cur || (a in cur && b in cur && pre(a, b) in LevelPairs(pre, cur) && node(a, b) == v)
  {
    a, b := v, v;
    if |cur| > 1 {
      if v == node(cur[0], cur[1]) {
        a, b := cur[0], cur[1];
      } else {
        a, b := NodeOrigin(node, pre, cur[2..], v);
      }
    }
  }

  /**
   What soundness needs of the pairs that were joined: parents tell them apart, a pair pins down
   its children, and no pair makes a leaf or the node `start`.
   */
  ghost predicate Distinguishes<N(!new), P(!new)>(
    node: (N, N) -> N, pre: (N, N) -> P, pairs: set<P>, leaves: seq<N>, start: N)
  {
    (forall a, b, c, d :: pre(a, b) in pairs && pre(c, d) in pairs && node(a, b) == node(c, d) ==> c == a || c == b)
    && forall a, b :: pre(a, b) in pairs ==> node(a, b) !in leaves && node(a, b) != start
  }

  lemma StartMovesDown<N(!new), P(!new)>(
    node: (N, N) -> N, pre: (N, N) -> P, pairs: set<P>, leaves: seq<N>, start: N, k: nat)
    requires Distinguishes(node, pre, pairs, leaves, start) && TreePairs(node, pre, leaves) <= pairs
    requires start in LevelAt(node, leaves, k + 1)
    ensures start in LevelAt(node, leaves, k)
  {
    var below := LevelAt(node, leaves, k);
    var a, b := NodeOrigin(node, pre, below, start);
    if start !in below {
      PairIsInTree(node, pre, leaves, k, pre(a, b));
    }
  }

  lemma PairMovesDown<N(!new), P(!new)>(
    node: (N, N) -> N, pre: (N, N) -> P, pairs: set<P>, leaves: seq<N>, start: N, k: nat, c: N, d: N)
    requires Distinguishes(node, pre, pairs, leaves, start) && TreePairs(node, pre, leaves) <= pairs
    requires pre(c, d) in pairs && node(c, d) in LevelAt(node, leaves, k + 1)
    ensures node(c, d) in LevelAt(node, leaves, k) || c in LevelAt(node, leaves, k)
  {
    var below := LevelAt(node, leaves, k);
    var a, b := NodeOrigin(node, pre, below, node(c, d));
    if node(c, d) !in below {
      PairIsInTree(node, pre, leaves, k, pre(a, b));
      assert pre(a, b) in pairs;
    }
  }

  /** Walking down from any level reached by a proof of any length: the start is a leaf. */
  lemma {:induction false} Descend<N(!new), P(!new)>(
    node: (N, N) -> N, pre: (N, N) -> P, pairs: set<P>, leaves: seq<N>, start: N, k: nat, proof: seq<N>)
    requires Distinguishes(node, pre, pairs, leaves, start)
    requires TreePairs(node, pre, leaves) <= pairs && ClimbPairs(node, pre, start, proof) <= pairs
    requires Climb(node, start, proof) in LevelAt(node, leaves, k)
    ensures start in leaves
    decreases k
  {
    if proof == [] {
      if k > 0 {
        StartMovesDown(node, pre, pairs, leaves, start, k - 1);
        Descend(node, pre, pairs, leaves, start, k - 1, proof);
      }
    } else {
      var init := proof[..|proof| - 1];
      var c, d := Climb(node, start, init), proof[|proof| - 1];
      assert pre(c, d) in pairs;
      assert k > 0;
      PairMovesDown(node, pre, pairs, leaves, start, k - 1, c, d);
      Descend(node, pre, pairs, leaves, start, k - 1, if c in LevelAt(node, leaves, k - 1) then init else proof);
    }
  }
}
