/** TreeKey over Winternitz leaves, for a tree of any depth. */
module WinternitzTreeKey {
  import opened Bytes
  import opened MmrSpec
  import opened Merkle
  import opened OneTime
  import W = Winternitz

  // 1 << 30 is the largest array the source's int can size.
  const MAX_DEPTH: nat := 29

  datatype SignatureProof = SignatureProof(
    rootPublicKey: Digest, leafIndex: int, publicKey: seq<Byte>, signature: seq<Byte>, path: seq<seq<Byte>>)

  function LeafPublicKey(hash: Hash, seed: seq<Byte>, i: nat): seq<Byte> {
    W.PublicKey(hash, Derived(hash, seed, i))
  }

  function LeafDigest(hash: Hash, seed: seq<Byte>, i: nat): Digest {
    hash(LeafPublicKey(hash, seed, i))
  }

  function LeafOf(hash: Hash, seed: seq<Byte>): Leaves {
    (i: nat) => LeafDigest(hash, seed, i)
  }

  function TreeRoot(hash: Hash, seed: seq<Byte>, depth: nat): Digest {
    HeapRoot(hash, LeafOf(hash, seed), Pow2(depth))
  }

  function ProofBy(hash: Hash, seed: seq<Byte>, depth: nat, data: seq<Byte>, leaf: nat): SignatureProof
    requires leaf < Pow2(depth)
  {
    SignatureProof(TreeRoot(hash, seed, depth), leaf, LeafPublicKey(hash, seed, leaf),
      W.Signature(hash, Derived(hash, seed, leaf), data),
      AuthPath(hash, LeafOf(hash, seed), Pow2(depth), Pow2(depth) + leaf))
  }

  // What verify decides once the signature is long enough.
  function Accepts(hash: Hash, root: seq<Byte>, data: seq<Byte>, proof: SignatureProof): bool
    requires |proof.signature| >= W.SIG_SIZE
  {
    W.Recovered(hash, data, proof.signature) == proof.publicKey
    && Rebuild(hash, hash(proof.publicKey), proof.leafIndex, proof.path) == root
  }

  // Main result: at every depth, every proof by every leaf is accepted under the root.
  lemma ProofsAreAccepted(hash: Hash, seed: seq<Byte>, depth: nat, data: seq<Byte>, leaf: nat)
    requires leaf < Pow2(depth)
    ensures Accepts(hash, TreeRoot(hash, seed, depth), data, ProofBy(hash, seed, depth, data, leaf))
  {
    W.SignatureRecoversKey(hash, Derived(hash, seed, leaf), data);
    LeafPathRebuilds(hash, LeafOf(hash, seed), depth, leaf, LeafDigest(hash, seed, leaf));
  }

  // No two chains of a tree, in one leaf or in two, start at one secret unless two named inputs collide.
  lemma ChainsDiffer(hash: Hash, seed: seq<Byte>, i: nat, c: nat, j: nat, d: nat)
    requires i < WORD && j < WORD && c < W.SIG_BLOCKS && d < W.SIG_BLOCKS && (i != j || c != d)
    requires W.PrivateElements(hash, Derived(hash, seed, i))[c] == W.PrivateElements(hash, Derived(hash, seed, j))[d]
    ensures Collides(hash, seed + WordBytes(i), seed + WordBytes(j))
            || Collides(hash, hash(seed + WordBytes(i)) + WordBytes(c), hash(seed + WordBytes(j)) + WordBytes(d))
  {
    SecretsDiffer(hash, seed, i, c, j, d);
  }

  // And the signature by a leaf is made with that leaf's secrets.
  lemma SignedByLeaf(hash: Hash, seed: seq<Byte>, depth: nat, data: seq<Byte>, leaf: nat)
    requires leaf < Pow2(depth)
    ensures var proof := ProofBy(hash, seed, depth, data, leaf);
            proof.leafIndex == leaf && proof.signature == W.Signature(hash, hash(seed + WordBytes(leaf)), data)
            && proof.publicKey == W.PublicKey(hash, hash(seed + WordBytes(leaf)))
  {
  }

  class TreeKey {
    const hash: Hash
    const masterSeed: seq<Byte>
    const depth: nat
    var tree: seq<Digest>
    var keyUsed: nat

    ghost predicate Valid()
      reads this
    {
      |tree| == 2 * Pow2(depth) && keyUsed <= Pow2(depth)
      && forall i {:trigger tree[i]} | 1 <= i < |tree| :: tree[i] == HeapNode(hash, LeafOf(hash, masterSeed), Pow2(depth), i)
    }

    constructor (hash: Hash, masterSeed: seq<Byte>, depth: nat)
      requires depth <= MAX_DEPTH
      ensures Valid() && this.hash == hash && this.masterSeed == masterSeed && this.depth == depth && keyUsed == 0
    {
      var leaves: seq<Digest> := [];
      for i := 0 to Pow2(depth)
        invariant |leaves| == i && forall j | 0 <= j < i :: leaves[j] == LeafOf(hash, masterSeed)(j)
      {
        var key := W.GeneratePublicKey(hash, Derived(hash, masterSeed, i));
        assert hash(key) == LeafDigest(hash, masterSeed, i);
        leaves := leaves + [hash(key)];
      }
      Pow2Monotone(0, depth);
      var nodes := BuildHeap(hash, LeafOf(hash, masterSeed), leaves);
      this.hash, this.masterSeed, this.depth, tree, keyUsed := hash, masterSeed, depth, nodes, 0;
    }

    method GetPublicKey() returns (root: Digest)
      requires Valid()
      ensures root == TreeRoot(hash, masterSeed, depth)
    {
      Pow2Monotone(0, depth);
      return tree[1];
    }

    // Each call that finds a leaf left spends it, even when the data is too short to sign.
    method Sign(data: seq<Byte>) returns (r: Result<SignatureProof>)
      requires Valid()
      modifies this`keyUsed
      ensures Valid()
      ensures keyUsed == old(keyUsed) + (if old(keyUsed) < Pow2(depth) then 1 else 0)
      ensures r.Ok? <==> old(keyUsed) < Pow2(depth) && |data| >= DIGEST_LENGTH
      ensures r.Ok? ==> r.value == ProofBy(hash, masterSeed, depth, data, old(keyUsed))
    {
      if Pow2(depth) - keyUsed <= 0 { return Err("TreeKey exhausted"); }
      var leaf := keyUsed;
      keyUsed := keyUsed + 1;
      r := ProofAt(data, leaf);
    }

    method ProofAt(data: seq<Byte>, leaf: nat) returns (r: Result<SignatureProof>)
      requires Valid() && leaf < Pow2(depth)
      ensures r.Ok? <==> |data| >= DIGEST_LENGTH
      ensures r.Ok? ==> r.value == ProofBy(hash, masterSeed, depth, data, leaf)
      ensures r.Ok? ==> r.value.signature == W.Signature(hash, hash(masterSeed + WordBytes(leaf)), data)
    {
      var seed := Derived(hash, masterSeed, leaf);
      var signature := W.Sign(hash, seed, data);
      if signature.Err? { return Err(signature.error); }
      var key := W.GeneratePublicKey(hash, seed);
      var path, root := PathAndRoot(leaf);
      return Ok(SignatureProof(root, leaf, key, signature.value, path));
    }

    method PathAndRoot(leaf: nat) returns (path: seq<Digest>, root: Digest)
      requires Valid() && leaf < Pow2(depth)
      ensures path == AuthPath(hash, LeafOf(hash, masterSeed), Pow2(depth), Pow2(depth) + leaf)
      ensures root == TreeRoot(hash, masterSeed, depth)
    {
      path := BuildAuthPath(hash, LeafOf(hash, masterSeed), tree, depth, Pow2(depth), leaf);
      root := GetPublicKey();
    }
  }

  method Verify(hash: Hash, root: seq<Byte>, data: seq<Byte>, proof: SignatureProof) returns (r: Result<bool>)
    ensures r.Ok? <==> |proof.signature| >= W.SIG_SIZE
    ensures r.Ok? ==> r.value == Accepts(hash, root, data, proof)
  {
    var ok := W.Verify(hash, proof.publicKey, data, proof.signature);
    if ok.Err? { return Err(ok.error); }
    if !ok.value { return Ok(false); }
    var current, idx := hash(proof.publicKey), proof.leafIndex;
    for i := 0 to |proof.path|
      invariant Rebuild(hash, current, idx, proof.path[i..])
             == Rebuild(hash, hash(proof.publicKey), proof.leafIndex, proof.path)
    {
      var sibling := proof.path[i];
      assert proof.path[i..] == [sibling] + proof.path[i + 1..];
      RebuildStep(hash, current, idx, sibling, proof.path[i + 1..]);
      var left: seq<Byte>, right: seq<Byte> := current, sibling;
      if idx % 2 == 1 { left, right := sibling, current; }
      current := hash(left + right);
      idx := idx / 2;
    }
    return Ok(current == root);
  }
}
