/** Merkle roots: layers are hashed pairwise, an odd last node being paired with itself. */
module Merkle {
  import opened Types
  import opened Arithmetic

  function Leaves(transactions: seq<Tx>): seq<Hash> {
    seq(|transactions|, i requires 0 <= i < |transactions| => HashTx(transactions[i]))
  }

  /** The node of the next layer over positions `2 * i` and, when it exists, `2 * i + 1`. */
  function Parent(layer: seq<Hash>, i: nat): Hash
    requires 2 * i < |layer|
  {
    HashPair(layer[2 * i], if 2 * i + 1 < |layer| then layer[2 * i + 1] else layer[2 * i])
  }

  function NextLayer(layer: seq<Hash>): (next: seq<Hash>)
    ensures |next| == (|layer| + 1) / 2
  {
    seq((|layer| + 1) / 2, i requires 0 <= i < (|layer| + 1) / 2 => Parent(layer, i))
  }

  function RootOf(layer: seq<Hash>): Hash
    requires layer != []
    decreases |layer|
  {
    if |layer| == 1 then layer[0] else RootOf(NextLayer(layer))
  }

  function MerkleRoot(transactions: seq<Tx>): Hash {
    if transactions == [] then ZERO_HASH else RootOf(Leaves(transactions))
  }

  method Calculate(transactions: seq<Tx>) returns (root: Hash)
    ensures root == MerkleRoot(transactions)
  {
    var layer := [];
    for i := 0 to |transactions|
      invariant layer == Leaves(transactions[..i])
    {
      layer := layer + [HashTx(transactions[i])];
    }
    assert transactions[..|transactions|] == transactions;
    if layer == [] {
      return ZERO_HASH;
    }
    while |layer| > 1
      invariant layer != []
      invariant RootOf(layer) == MerkleRoot(transactions)
      decreases |layer|
    {
      var newLayer := [];
      var i := 0;
      while i < |layer|
        invariant i == 2 * |newLayer| && i <= |layer| + 1
        invariant newLayer == NextLayer(layer)[..|newLayer|]
      {
        var left := layer[i];
        var right := if i + 1 < |layer| then layer[i + 1] else left;
        newLayer := newLayer + [HashPair(left, right)];
        i := i + 2;
      }
      assert newLayer == NextLayer(layer);
      layer := newLayer;
    }
    return layer[0];
  }

  /** The roots of the shortest lists. */
  lemma SmallRoots(a: Tx, b: Tx, c: Tx)
    ensures MerkleRoot([]) == 0
    ensures MerkleRoot([a]) == HashTx(a)
    ensures MerkleRoot([a, b]) == HashPair(HashTx(a), HashTx(b))
    ensures MerkleRoot([a, b, c])
         == HashPair(HashPair(HashTx(a), HashTx(b)), HashPair(HashTx(c), HashTx(c)))
  {
    assert Leaves([a]) == [HashTx(a)];
    PairRoot(HashTx(a), HashTx(b));
    assert Leaves([a, b]) == [HashTx(a), HashTx(b)];
    var layer := [HashTx(a), HashTx(b), HashTx(c)];
    assert Leaves([a, b, c]) == layer;
    assert NextLayer(layer) == [Parent(layer, 0), Parent(layer, 1)];
    PairRoot(Parent(layer, 0), Parent(layer, 1));
  }

  lemma PairRoot(a: Hash, b: Hash)
    ensures RootOf([a, b]) == HashPair(a, b)
  {
    assert NextLayer([a, b]) == [Parent([a, b], 0)];
  }

  // ---------- the layers are one recursively defined tree ----------

  /** The tree of height `d` over at most 2^d leaves, top down: the left subtree takes the first half
      of the places, and stands in for a right subtree without leaves. */
  function Tree(d: nat, leaves: seq<Hash>): Hash
    requires leaves != [] && |leaves| <= Pow2(d)
    decreases d
  {
    if d == 0 then leaves[0]
    else
      var half := Pow2(d - 1);
      if |leaves| <= half then HashPair(Tree(d - 1, leaves), Tree(d - 1, leaves))
      else HashPair(Tree(d - 1, leaves[..half]), Tree(d - 1, leaves[half..]))
  }

  lemma NextLayerHalves(leaves: seq<Hash>, half: nat)
    requires 2 * half <= |leaves|
    ensures NextLayer(leaves[..2 * half]) == NextLayer(leaves)[..half]
    ensures NextLayer(leaves[2 * half..]) == NextLayer(leaves)[half..]
  {
    var rest := leaves[2 * half..];
    forall i | 0 <= 2 * i < |rest|
      ensures Parent(rest, i) == Parent(leaves, half + i)
    {
      assert rest[2 * i] == leaves[2 * (half + i)];
    }
  }

  lemma WideTree(d: nat, leaves: seq<Hash>, half: nat)
    requires half == Pow2(d) < |leaves| <= Pow2(d + 1)
    ensures Tree(d + 1, leaves) == HashPair(Tree(d, leaves[..half]), Tree(d, leaves[half..]))
  {
  }

  lemma NarrowTree(d: nat, leaves: seq<Hash>)
    requires leaves != [] && |leaves| <= Pow2(d)
    ensures Tree(d + 1, leaves) == HashPair(Tree(d, leaves), Tree(d, leaves))
  {
  }

  lemma PairTree(leaves: seq<Hash>)
    requires leaves != [] && |leaves| <= 2
    ensures |NextLayer(leaves)| == 1 && Tree(1, leaves) == NextLayer(leaves)[0]
  {
    assert Pow2(0) == 1 && Pow2(1) == 2;
  }

  lemma NextLayerFits(d: nat, leaves: seq<Hash>)
    requires leaves != [] && |leaves| <= Pow2(d + 1)
    ensures 0 < |NextLayer(leaves)| <= Pow2(d)
  {
  }

  lemma HalvesPeel(d: nat, leaves: seq<Hash>, half: nat)
    requires d > 0 && half == Pow2(d - 1) && 2 * half < |leaves| <= 4 * half
    ensures Pow2(d) == 2 * half < |leaves| <= Pow2(d + 1)
    ensures Pow2(d - 1) == half < |NextLayer(leaves)| <= Pow2(d)
    ensures Tree(d, leaves[..2 * half]) == Tree(d - 1, NextLayer(leaves)[..half])
    ensures Tree(d, leaves[2 * half..]) == Tree(d - 1, NextLayer(leaves)[half..])
    decreases d, 0
  {
    TreePeel(d - 1, leaves[..2 * half]);
    TreePeel(d - 1, leaves[2 * half..]);
    NextLayerHalves(leaves, half);
  }

  lemma WidePeel(d: nat, leaves: seq<Hash>, half: nat)
    requires d > 0 && half == Pow2(d - 1) && 2 * half < |leaves| <= 4 * half
    ensures Tree(d + 1, leaves) == Tree(d, NextLayer(leaves))
    decreases d, 1
  {
    HalvesPeel(d, leaves, half);
    WideTree(d, leaves, 2 * half);
    WideTree(d - 1, NextLayer(leaves), half);
  }

  lemma NarrowPeel(d: nat, leaves: seq<Hash>)
    requires d > 0 && leaves != [] && |leaves| <= Pow2(d)
    ensures 0 < |NextLayer(leaves)| <= Pow2(d - 1)
    ensures Tree(d + 1, leaves) == Tree(d, NextLayer(leaves))
    decreases d, 0
  {
    NextLayerFits(d - 1, leaves);
    NarrowTree(d, leaves);
    NarrowTree(d - 1, NextLayer(leaves));
    TreePeel(d - 1, leaves);
  }

  /** A tree over the leaves is a tree one lower over the next layer. */
  lemma {:induction false} TreePeel(d: nat, leaves: seq<Hash>)
    requires leaves != [] && |leaves| <= Pow2(d + 1)
    ensures |NextLayer(leaves)| <= Pow2(d)
    ensures Tree(d + 1, leaves) == Tree(d, NextLayer(leaves))
    decreases d, 2
  {
    NextLayerFits(d, leaves);
    if d == 0 {
      PairTree(leaves);
    } else if |leaves| <= Pow2(d) {
      NarrowPeel(d, leaves);
    } else {
      WidePeel(d, leaves, Pow2(d - 1));
    }
  }

  /** The layered loop computes the root of the recursive tree of the least sufficient height. */
  lemma {:induction false} RootIsTree(leaves: seq<Hash>) returns (d: nat)
    requires leaves != []
    ensures |leaves| <= Pow2(d) && (d > 0 ==> Pow2(d - 1) < |leaves|)
    ensures RootOf(leaves) == Tree(d, leaves)
    decreases |leaves|
  {
    if |leaves| == 1 {
      d := 0;
    } else {
      var below := RootIsTree(NextLayer(leaves));
      d := below + 1;
      TreePeel(below, leaves);
    }
  }

  /** An odd layer of at least three nodes keeps its root when its last node is repeated. */
  lemma RepeatedLastLeafKeepsRoot(transactions: seq<Tx>)
    requires |transactions| >= 3 && |transactions| % 2 == 1
    ensures MerkleRoot(transactions + [transactions[|transactions| - 1]]) == MerkleRoot(transactions)
  {
    var a := Leaves(transactions);
    var b := Leaves(transactions + [transactions[|transactions| - 1]]);
    assert NextLayer(a) == NextLayer(b);
  }

  // ---------- what equal roots say about the leaves ----------

  /** The hash is a node of height `k`: a leaf, or a pair of nodes of height `k - 1`. */
  ghost predicate AtHeight(h: Hash, k: nat)
    decreases k
  {
    if k == 0 then exists tx :: h == HashTx(tx)
    else exists l, r :: h == HashPair(l, r) && AtHeight(l, k - 1) && AtHeight(r, k - 1)
  }

  ghost predicate LayerAtHeight(layer: seq<Hash>, k: nat) {
    forall i :: 0 <= i < |layer| ==> AtHeight(layer[i], k)
  }

  lemma {:induction false} HeightUnique(h: Hash, j: nat, k: nat)
    requires MerkleHashInjective()
    requires AtHeight(h, j) && AtHeight(h, k)
    ensures j == k
    decreases j
  {
    if j > 0 && k > 0 {
      var l, r :| h == HashPair(l, r) && AtHeight(l, j - 1) && AtHeight(r, j - 1);
      HeightUnique(l, j - 1, k - 1);
    }
  }

  lemma NextLayerAtHeight(layer: seq<Hash>, k: nat)
    requires LayerAtHeight(layer, k)
    ensures LayerAtHeight(NextLayer(layer), k + 1)
  {
    var next := NextLayer(layer);
    forall i | 0 <= i < |next|
      ensures AtHeight(next[i], k + 1)
    {
      var r := if 2 * i + 1 < |layer| then layer[2 * i + 1] else layer[2 * i];
      assert next[i] == HashPair(layer[2 * i], r) && AtHeight(layer[2 * i], k) && AtHeight(r, k);
    }
  }

  lemma {:induction false} RootAbove(layer: seq<Hash>, k: nat) returns (d: nat)
    requires layer != [] && LayerAtHeight(layer, k)
    ensures AtHeight(RootOf(layer), d)
    ensures if |layer| == 1 then d == k else d > k
    decreases |layer|
  {
    if |layer| == 1 {
      d := k;
    } else {
      NextLayerAtHeight(layer, k);
      d := RootAbove(NextLayer(layer), k + 1);
    }
  }

  /** `a` extends `b` and repeats, beyond it, a node of `b` other than the first. */
  ghost predicate ExtendsByRepetition<T(!new)>(a: seq<T>, b: seq<T>) {
    && |b| < |a|
    && a[..|b|] == b
    && exists i, j :: 1 <= i < |b| <= j < |a| && a[i] == a[j]
  }

  lemma ParentsEqual(a: seq<Hash>, b: seq<Hash>, i: nat)
    requires MerkleHashInjective()
    requires 2 * i < |a| && 2 * i < |b| && Parent(a, i) == Parent(b, i)
    ensures a[2 * i] == b[2 * i]
    ensures 2 * i + 1 < |a| && 2 * i + 1 < |b| ==> a[2 * i + 1] == b[2 * i + 1]
    ensures 2 * i + 1 < |a| && 2 * i + 1 == |b| ==> a[2 * i + 1] == b[2 * i]
  {
  }

  lemma NextLayerPrefix(a: seq<Hash>, b: seq<Hash>)
    requires MerkleHashInjective()
    requires |b| <= |a| && NextLayer(b) == NextLayer(a)[..(|b| + 1) / 2]
    ensures a[..|b|] == b
    ensures |b| < |a| && |b| % 2 == 1 ==> a[|b|] == b[|b| - 1]
  {
    forall i | 0 <= 2 * i < |b|
      ensures Parent(a, i) == Parent(b, i)
    {
      assert NextLayer(b)[i] == NextLayer(a)[i];
    }
    forall p | 0 <= p < |b|
      ensures a[p] == b[p]
    {
      ParentsEqual(a, b, p / 2);
    }
    if |b| % 2 == 1 {
      ParentsEqual(a, b, |b| / 2);
    }
  }

  /** Repetition in the next layer comes from repetition in this one. */
  lemma RepetitionBelow(a: seq<Hash>, b: seq<Hash>)
    requires MerkleHashInjective()
    requires 2 <= |b| <= |a|
    requires NextLayer(a) == NextLayer(b) || ExtendsByRepetition(NextLayer(a), NextLayer(b))
    ensures a == b || ExtendsByRepetition(a, b)
  {
    var a', b' := NextLayer(a), NextLayer(b);
    NextLayerPrefix(a, b);
    if |a| == |b| {
    } else if |a'| == |b'| {
      assert 1 <= |b| - 1 < |b| <= |b| < |a| && a[|b| - 1] == a[|b|];
    } else {
      var i, j :| 1 <= i < |b'| <= j < |a'| && a'[i] == a'[j];
      RepeatedParent(a, i, j);
      assert 1 <= 2 * i < |b| <= 2 * j < |a| && a[2 * i] == a[2 * j];
    }
  }

  lemma RepeatedParent(a: seq<Hash>, i: nat, j: nat)
    requires MerkleHashInjective()
    requires i < |NextLayer(a)| && j < |NextLayer(a)| && NextLayer(a)[i] == NextLayer(a)[j]
    ensures a[2 * i] == a[2 * j]
  {
    assert Parent(a, i) == Parent(a, j);
  }

  lemma SingletonRoot(a: seq<Hash>, b: seq<Hash>, k: nat)
    requires MerkleHashInjective()
    requires LayerAtHeight(a, k) && LayerAtHeight(b, k)
    requires |b| == 1 && a != [] && RootOf(a) == RootOf(b)
    ensures a == b
  {
    var d := RootAbove(a, k);
    HeightUnique(b[0], d, k);
  }

  /** Layers of one height with the same root are equal, or the longer repeats nodes of the
      shorter. */
  lemma {:induction false} EqualRoots(a: seq<Hash>, b: seq<Hash>, k: nat)
    requires MerkleHashInjective()
    requires LayerAtHeight(a, k) && LayerAtHeight(b, k)
    requires 0 < |b| <= |a|
    requires RootOf(a) == RootOf(b)
    ensures a == b || ExtendsByRepetition(a, b)
    decreases |a|
  {
    if |b| == 1 {
      SingletonRoot(a, b, k);
    } else {
      NextLayerAtHeight(a, k);
      NextLayerAtHeight(b, k);
      EqualRoots(NextLayer(a), NextLayer(b), k + 1);
      RepetitionBelow(a, b);
    }
  }

  lemma LeavesAtHeight(transactions: seq<Tx>)
    ensures LayerAtHeight(Leaves(transactions), 0)
  {
  }

  /** Transaction lists with equal Merkle roots are equal, or the longer one contains a
      transaction of the shorter one, other than its first, a second time. */
  lemma EqualMerkleRoots(a: seq<Tx>, b: seq<Tx>)
    requires MerkleHashInjective()
    requires 0 < |b| <= |a|
    requires MerkleRoot(a) == MerkleRoot(b)
    ensures a == b || ExtendsByRepetition(a, b)
    ensures |a| == |b| ==> a == b
  {
    var la, lb := Leaves(a), Leaves(b);
    LeavesAtHeight(a);
    LeavesAtHeight(b);
    EqualRoots(la, lb, 0);
    forall i | 0 <= i < |b|
      ensures a[i] == b[i]
    {
      assert la[i] == la[..|b|][i] == lb[i];
      assert HashTx(a[i]) == HashTx(b[i]);
    }
    if |b| < |a| {
      var i, j :| 1 <= i < |b| <= j < |a| && la[i] == la[j];
      assert HashTx(a[i]) == HashTx(a[j]);
    }
  }
}
