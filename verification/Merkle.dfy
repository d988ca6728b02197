/**
 * A complete binary tree of digests stored by heap index: node 1 is the root, the children of
 * node i are 2i and 2i+1, and leaf k of a tree of depth d is node 2^d + k.
 */
module Merkle {
  import opened Bytes
  import opened MmrSpec

  type Leaves = nat -> Digest

  // The digest that belongs at heap index `pos`. (`hash` in the measure only keeps the verifier
  // from unfolding whole trees of a literal size.)
  function HeapNode(hash: Hash, leaf: Leaves, count: nat, pos: nat): Digest
    requires 1 <= pos
    decreases 2 * count - pos, hash
  {
    if pos >= count then leaf(pos - count)
    else hash(HeapNode(hash, leaf, count, 2 * pos) + HeapNode(hash, leaf, count, 2 * pos + 1))
  }

  function HeapRoot(hash: Hash, leaf: Leaves, count: nat): Digest {
    HeapNode(hash, leaf, count, 1)
  }

  function HeapSibling(pos: nat): nat
    requires pos >= 1
  {
    if pos % 2 == 0 then pos + 1 else pos - 1
  }

  // The siblings on the way from `pos` up to the root.
  function AuthPath(hash: Hash, leaf: Leaves, count: nat, pos: nat): seq<Digest>
    requires 1 <= pos
  {
    if pos == 1 then []
    else [HeapNode(hash, leaf, count, HeapSibling(pos))] + AuthPath(hash, leaf, count, pos / 2)
  }

  // The root a verifier rebuilds from a node, its index among the leaves and a path.
  function Rebuild(hash: Hash, node: Digest, index: int, path: seq<seq<Byte>>): Digest
    decreases |path|
  {
    if path == [] then node
    else Rebuild(hash, if index % 2 == 0 then hash(node + path[0]) else hash(path[0] + node), index / 2, path[1..])
  }

  lemma HeapStep(hash: Hash, leaf: Leaves, count: nat, pos: nat)
    requires pos >= 2 && pos / 2 < count
    ensures var node, sibling := HeapNode(hash, leaf, count, pos), HeapNode(hash, leaf, count, HeapSibling(pos));
            HeapNode(hash, leaf, count, pos / 2) == if pos % 2 == 0 then hash(node + sibling) else hash(sibling + node)
  {
    assert pos == 2 * (pos / 2) + pos % 2;
  }

  lemma RebuildStep(hash: Hash, node: Digest, index: int, sibling: seq<Byte>, rest: seq<seq<Byte>>)
    ensures Rebuild(hash, node, index, [sibling] + rest)
            == Rebuild(hash, if index % 2 == 0 then hash(node + sibling) else hash(sibling + node), index / 2, rest)
  {
    assert ([sibling] + rest)[1..] == rest;
  }

  lemma PathStep(hash: Hash, leaf: Leaves, count: nat, pos: nat, index: nat)
    requires pos >= 2 && pos / 2 < count && pos % 2 == index % 2
    ensures var path, rest := AuthPath(hash, leaf, count, pos), AuthPath(hash, leaf, count, pos / 2);
            |path| == 1 + |rest|
            && Rebuild(hash, HeapNode(hash, leaf, count, pos), index, path)
               == Rebuild(hash, HeapNode(hash, leaf, count, pos / 2), index / 2, rest)
  {
    HeapStep(hash, leaf, count, pos);
    RebuildStep(hash, HeapNode(hash, leaf, count, pos), index,
      HeapNode(hash, leaf, count, HeapSibling(pos)), AuthPath(hash, leaf, count, pos / 2));
  }

  lemma Halves(k: nat, d: nat, index: nat)
    requires 1 <= k <= d && index < Pow2(k)
    ensures var pos := Pow2(k) + index;
            pos >= 2 && pos / 2 == Pow2(k - 1) + index / 2 && pos % 2 == index % 2 && pos / 2 < Pow2(d)
    ensures index / 2 < Pow2(k - 1)
  {
    Pow2Monotone(k, d);
    Pow2Monotone(0, k - 1);
  }

  // The path of any node of any such tree rebuilds the root, for every hash function.
  lemma PathRebuildsRoot(hash: Hash, leaf: Leaves, d: nat, k: nat, index: nat)
    requires k <= d && index < Pow2(k)
    ensures var count, pos := Pow2(d), Pow2(k) + index;
            var path := AuthPath(hash, leaf, count, pos);
            |path| == k && Rebuild(hash, HeapNode(hash, leaf, count, pos), index, path) == HeapRoot(hash, leaf, count)
  {
    PathFrom(hash, leaf, d, k, index, Pow2(d), Pow2(k) + index);
  }

  lemma {:induction false} PathFrom(hash: Hash, leaf: Leaves, d: nat, k: nat, index: nat, count: nat, pos: nat)
    requires k <= d && index < Pow2(k) && count == Pow2(d) && pos == Pow2(k) + index
    ensures |AuthPath(hash, leaf, count, pos)| == k
    ensures Rebuild(hash, HeapNode(hash, leaf, count, pos), index, AuthPath(hash, leaf, count, pos)) == HeapNode(hash, leaf, count, 1)
    decreases k
  {
    if k > 0 {
      Halves(k, d, index);
      PathFrom(hash, leaf, d, k - 1, index / 2, count, pos / 2);
      PathStep(hash, leaf, count, pos, index);
    }
  }

  // In particular a leaf's path rebuilds the root from the leaf's own digest.
  lemma LeafPathRebuilds(hash: Hash, leaf: Leaves, depth: nat, index: nat, node: Digest)
    requires index < Pow2(depth) && node == leaf(index)
    ensures Rebuild(hash, node, index, AuthPath(hash, leaf, Pow2(depth), Pow2(depth) + index))
         == HeapRoot(hash, leaf, Pow2(depth))
  {
    PathRebuildsRoot(hash, leaf, depth, depth, index);
  }

  lemma {:induction false} Pow2Monotone(k: nat, d: nat)
    requires k <= d
    ensures Pow2(k) <= Pow2(d)
  {
    if k < d {
      Pow2Monotone(k, d - 1);
    }
  }

  // ---- the root by halves --------------------------------------------------------------

  // The root over the 2^d leaves from `from` on: the first half's, then the second half's, hashed.
  function Over(hash: Hash, leaf: Leaves, from: nat, d: nat): Digest
    decreases d
  {
    if d == 0 then leaf(from) else hash(Over(hash, leaf, from, d - 1) + Over(hash, leaf, from + Pow2(d - 1), d - 1))
  }

  lemma InnerNode(hash: Hash, leaf: Leaves, count: nat, pos: nat, l: Digest, r: Digest)
    requires 1 <= pos < count && l == HeapNode(hash, leaf, count, 2 * pos) && r == HeapNode(hash, leaf, count, 2 * pos + 1)
    ensures HeapNode(hash, leaf, count, pos) == hash(l + r)
  {
  }

  lemma LeafNode(hash: Hash, leaf: Leaves, count: nat, pos: nat)
    requires 1 <= count <= pos
    ensures HeapNode(hash, leaf, count, pos) == leaf(pos - count)
  {
  }

  // s doubled r times.
  function Doubled(s: nat, r: nat): (m: nat)
    ensures m >= s
    decreases r
  {
    if r == 0 then s else Doubled(2 * s, r - 1)
  }

  lemma {:induction false} DoubledTwice(s: nat, r: nat)
    ensures Doubled(2 * s, r) == 2 * Doubled(s, r)
    decreases r
  {
    if r > 0 {
      DoubledTwice(2 * s, r - 1);
    }
  }

  lemma {:induction false} DoubledIsPow2(d: nat)
    ensures Doubled(1, d) == Pow2(d)
  {
    if d > 0 {
      DoubledIsPow2(d - 1);
      DoubledTwice(1, d - 1);
    }
  }

  // Where the leaves under place j of a level start, and under its children.
  lemma Spread(j: nat, r: nat)
    ensures r == 0 ==> j * Pow2(r) == j
    ensures r > 0 ==> (2 * j) * Pow2(r - 1) == j * Pow2(r) && (2 * j + 1) * Pow2(r - 1) == j * Pow2(r) + Pow2(r - 1)
  {
    if r > 0 {
      assert (2 * j) * Pow2(r - 1) == j * (2 * Pow2(r - 1));
    }
  }

  // Node s + j, place j of the level of s nodes r levels up, stands over the 2^r leaves from j * 2^r on.
  lemma {:induction false} NodeIsOver(hash: Hash, leaf: Leaves, s: nat, r: nat, j: nat, count: nat, from: nat)
    requires count == Doubled(s, r) && j < s && from == j * Pow2(r)
    ensures HeapNode(hash, leaf, count, s + j) == Over(hash, leaf, from, r)
    decreases r
  {
    Spread(j, r);
    if r == 0 {
      LeafNode(hash, leaf, count, s + j);
    } else {
      NodeIsOver(hash, leaf, 2 * s, r - 1, 2 * j, count, from);
      NodeIsOver(hash, leaf, 2 * s, r - 1, 2 * j + 1, count, from + Pow2(r - 1));
      InnerNode(hash, leaf, count, s + j, Over(hash, leaf, from, r - 1), Over(hash, leaf, from + Pow2(r - 1), r - 1));
    }
  }

  // The root of the heap is the root by halves, leaves from left to right.
  lemma RootIsOver(hash: Hash, leaf: Leaves, d: nat)
    ensures HeapRoot(hash, leaf, Pow2(d)) == Over(hash, leaf, 0, d)
  {
    DoubledIsPow2(d);
    NodeIsOver(hash, leaf, 1, d, 0, Pow2(d), 0);
  }

  // Filling an array of nodes from the leaves up, the way both keys build their tree.
  method BuildHeap(hash: Hash, leaf: Leaves, leaves: seq<Digest>) returns (tree: seq<Digest>)
    requires |leaves| >= 1 && forall i | 0 <= i < |leaves| :: leaves[i] == leaf(i)
    ensures |tree| == 2 * |leaves|
    ensures forall i {:trigger tree[i]} | 1 <= i < |tree| :: tree[i] == HeapNode(hash, leaf, |leaves|, i)
  {
    var count := |leaves|;
    tree := seq(count, _ => leaves[0]) + leaves;
    for i := count downto 1
      invariant |tree| == 2 * count
      invariant forall j {:trigger tree[j]} | i <= j < 2 * count :: tree[j] == HeapNode(hash, leaf, count, j)
    {
      var left: seq<Byte>, right: seq<Byte> := tree[2 * i], tree[2 * i + 1];
      tree := tree[i := hash(left + right)];
    }
  }

  lemma AuthStep(hash: Hash, leaf: Leaves, count: nat, pos: nat, path: seq<Digest>)
    requires pos >= 2
    ensures path + AuthPath(hash, leaf, count, pos)
         == path + [HeapNode(hash, leaf, count, HeapSibling(pos))] + AuthPath(hash, leaf, count, pos / 2)
  {
  }

  lemma LevelUp(k: nat, pos: nat)
    requires k > 0 && Pow2(k) <= pos < 2 * Pow2(k)
    ensures pos >= 2 && Pow2(k - 1) <= pos / 2 < 2 * Pow2(k - 1)
  {
    Pow2Monotone(0, k - 1);
  }

  lemma TreeAuthStep(hash: Hash, leaf: Leaves, tree: seq<Digest>, count: nat, pos: nat, path: seq<Digest>)
    requires |tree| == 2 * count && 2 <= pos < 2 * count
    requires forall i {:trigger tree[i]} | 1 <= i < |tree| :: tree[i] == HeapNode(hash, leaf, count, i)
    ensures 1 <= HeapSibling(pos) < |tree|
    ensures path + AuthPath(hash, leaf, count, pos)
         == path + [tree[HeapSibling(pos)]] + AuthPath(hash, leaf, count, pos / 2)
  {
    AuthStep(hash, leaf, count, pos, path);
  }

  // Reading the siblings of a leaf off such an array, level by level.
  method BuildAuthPath(hash: Hash, leaf: Leaves, tree: seq<Digest>, depth: nat, count: nat, index: nat) returns (path: seq<Digest>)
    requires count == Pow2(depth) && |tree| == 2 * count && index < count
    requires forall i {:trigger tree[i]} | 1 <= i < |tree| :: tree[i] == HeapNode(hash, leaf, count, i)
    ensures path == AuthPath(hash, leaf, count, count + index)
  {
    path := [];
    var pos := count + index;
    for level := 0 to depth
      invariant Pow2(depth - level) <= pos < 2 * Pow2(depth - level) && pos < 2 * count
      invariant path + AuthPath(hash, leaf, count, pos) == AuthPath(hash, leaf, count, count + index)
    {
      LevelUp(depth - level, pos);
      TreeAuthStep(hash, leaf, tree, count, pos, path);
      var sibling := if pos % 2 == 0 then pos + 1 else pos - 1;
      path := path + [tree[sibling]];
      pos := pos / 2;
    }
    assert path + [] == path;
  }
}
