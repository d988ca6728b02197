/** TreeKey over WOTS leaves: 256 one-time keys under one Merkle root, signatures as flat byte strings. */
module WotsTreeKey {
  import opened Bytes
  import opened OneTime
  import opened MmrSpec
  import opened Merkle
  import opened Wots

  const DEPTH: nat := 8
  const LEAVES: nat := 256
  const TREE_SIG_LENGTH: nat := 2404

  // What the C++ int of a 32-bit pattern is.
  function AsInt(w: nat): int
    requires w < WORD
  {
    if w < WORD / 2 then w else w - WORD
  }

  function LeafKey(hash: Hash, seed: seq<Byte>, i: nat): seq<Byte> {
    PrivateKey(hash, Derived(hash, seed, i))
  }

  function LeafOf(hash: Hash, seed: seq<Byte>): Leaves {
    (i: nat) => PublicKey(hash, LeafKey(hash, seed, i))
  }

  function TreeRoot(hash: Hash, seed: seq<Byte>): Digest {
    HeapRoot(hash, LeafOf(hash, seed), LEAVES)
  }

  function TreeSignature(hash: Hash, seed: seq<Byte>, msg: Message, leaf: nat): seq<Byte>
    requires leaf < LEAVES
  {
    WordBytes(leaf) + Signature(hash, LeafKey(hash, seed, leaf), msg)
      + Flatten(AuthPath(hash, LeafOf(hash, seed), LEAVES, LEAVES + leaf))
  }

  function PathBlocks(bytes: seq<Byte>, n: nat): (p: seq<Digest>)
    requires |bytes| == DIGEST_LENGTH * n
    ensures |p| == n
  {
    seq(n, i requires 0 <= i < n => BlockAt(bytes, i))
  }

  // What verify decides: a well-sized signature naming a leaf of the tree, whose recovered leaf
  // key and path rebuild the public key.
  function Accepts(hash: Hash, publicKey: seq<Byte>, msg: Message, sig: seq<Byte>): bool {
    |sig| == TREE_SIG_LENGTH && |publicKey| == DIGEST_LENGTH && ReadWord(sig) < LEAVES &&
    Rebuild(hash, Recovered(hash, sig[4..4 + SIG_LENGTH], msg), ReadWord(sig),
      PathBlocks(sig[4 + SIG_LENGTH..], DEPTH)) == publicKey
  }

  // Main result: every signature by every leaf is accepted under the root, for every hash function.
  lemma SignaturesAreAccepted(hash: Hash, seed: seq<Byte>, msg: Message, leaf: nat)
    requires leaf < LEAVES
    ensures Accepts(hash, TreeRoot(hash, seed), msg, TreeSignature(hash, seed, msg, leaf))
    ensures ReadWord(TreeSignature(hash, seed, msg, leaf)) == leaf
  {
    var key, leaves := LeafKey(hash, seed, leaf), LeafOf(hash, seed);
    SignatureRecoversKey(hash, key, msg);
    LeafCount();
    PathRebuildsRoot(hash, leaves, DEPTH, DEPTH, leaf);
    var path := AuthPath(hash, leaves, LEAVES, LEAVES + leaf);
    PathBlocksOfFlatten(path);
    SignatureParts(leaf, Signature(hash, key, msg), Flatten(path));
  }

  lemma SignatureParts(leaf: nat, wots: seq<Byte>, auth: seq<Byte>)
    requires leaf < WORD && |wots| == SIG_LENGTH
    ensures var sig := WordBytes(leaf) + wots + auth;
            ReadWord(sig) == leaf && sig[4..4 + SIG_LENGTH] == wots && sig[4 + SIG_LENGTH..] == auth
  {
    assert WordBytes(leaf) + wots + auth == WordBytes(leaf) + (wots + auth);
    ReadHeader(leaf, wots + auth);
  }

  lemma PathBlocksOfFlatten(path: seq<Digest>)
    ensures PathBlocks(Flatten(path), |path|) == path
  {
    forall i | 0 <= i < |path|
      ensures PathBlocks(Flatten(path), |path|)[i] == path[i]
    {
      BlockOfFlatten(path, i);
    }
  }

  lemma LeafCount()
    ensures Pow2(DEPTH) == LEAVES
  {
    assert Pow2(4) == 16;
    assert Pow2(8) == 16 * Pow2(4);
  }

  class TreeKey {
    const hash: Hash
    const seed: seq<Byte>
    var tree: seq<Digest>
    var keyUse: int

    // The stored tree is the tree of the seed; the counter is a C++ int.
    ghost predicate Valid()
      reads this
    {
      |seed| == DIGEST_LENGTH && |tree| == 2 * LEAVES && -WORD / 2 <= keyUse < WORD / 2
      && forall i {:trigger tree[i]} | 1 <= i < |tree| :: tree[i] == HeapNode(hash, LeafOf(hash, seed), LEAVES, i)
    }

    constructor (hash: Hash, seed: seq<Byte>)
      requires |seed| == DIGEST_LENGTH
      ensures Valid() && this.hash == hash && this.seed == seed && keyUse == 0
    {
      var leaves: seq<Digest> := [];
      for i := 0 to LEAVES
        invariant |leaves| == i && forall j | 0 <= j < i :: leaves[j] == LeafOf(hash, seed)(j)
      {
        var kp := GenerateKeyPair(hash, Derived(hash, seed, i));
        leaves := leaves + [kp.value.1];
      }
      var nodes := BuildHeap(hash, LeafOf(hash, seed), leaves);
      this.hash, this.seed, tree, keyUse := hash, seed, nodes, 0;
    }

    method PublicKey() returns (root: Digest)
      requires Valid()
      ensures root == TreeRoot(hash, seed)
    {
      return tree[1];
    }

    // The message is 32 bytes or the call fails; either way a leaf is spent unless none is left.
    method Sign(msg: seq<Byte>) returns (r: Result<seq<Byte>>)
      requires Valid()
      modifies this`keyUse
      ensures Valid()
      ensures keyUse == NextUse(old(keyUse), SignMessage(msg))
      ensures r.Ok? <==> LeafUsed(old(keyUse), SignMessage(msg)).Some?
      ensures r.Ok? ==> r.value == TreeSignature(hash, seed, msg, old(keyUse))
    {
      if keyUse >= LEAVES { return Err("TreeKey exhausted: all 256 leaves used"); }
      var leaf := keyUse;
      keyUse := keyUse + 1;
      r := SignAt(msg, leaf);
    }

    method SignAt(msg: seq<Byte>, leaf: int) returns (r: Result<seq<Byte>>)
      requires Valid()
      ensures r.Ok? <==> 0 <= leaf < LEAVES && |msg| == DIGEST_LENGTH
      ensures r.Ok? ==> r.value == TreeSignature(hash, seed, msg, leaf)
      ensures r.Ok? ==> |r.value| == TREE_SIG_LENGTH && r.value[..4] == [0, 0, 0, leaf]
                        && r.value[4..4 + SIG_LENGTH] == Signature(hash, PrivateKey(hash, hash(seed + WordBytes(leaf))), msg)
    {
      if leaf < 0 || leaf >= LEAVES { return Err("leaf index out of range"); }
      var kp := GenerateKeyPair(hash, Derived(hash, seed, leaf));
      var wots := Wots.Sign(hash, kp.value.0, msg);
      if wots.Err? { return Err(wots.error); }
      LeafCount();
      var authPath := BuildAuthPath(hash, LeafOf(hash, seed), tree, DEPTH, LEAVES, leaf);
      SignedByLeaf(hash, seed, msg, leaf);
      return Ok(WordBytes(leaf) + wots.value + Flatten(authPath));
    }

    method Serialise() returns (out: seq<Byte>)
      requires Valid()
      ensures out == seed + WordBytes(keyUse % WORD)
    {
      return seed + WordBytes(keyUse % WORD);
    }
  }

  method Verify(hash: Hash, publicKey: seq<Byte>, msg: seq<Byte>, sig: seq<Byte>) returns (r: Result<bool>)
    ensures r.Err? <==> |sig| == TREE_SIG_LENGTH && |publicKey| == DIGEST_LENGTH && ReadWord(sig) < LEAVES && |msg| != DIGEST_LENGTH
    ensures r.Ok? ==> r.value == (|msg| == DIGEST_LENGTH && Accepts(hash, publicKey, msg, sig))
  {
    if |sig| != TREE_SIG_LENGTH || |publicKey| != DIGEST_LENGTH { return Ok(false); }
    var leafIdx := ReadWord(sig);
    if leafIdx >= LEAVES { return Ok(false); }
    var wotsSig := sig[4..4 + SIG_LENGTH];
    var auth := sig[4 + SIG_LENGTH..];
    var digits := MsgToDigits(msg);
    if digits.Err? { return Err(digits.error); }
    var node := Candidate(hash, msg, wotsSig, digits.value);
    var pos: nat := leafIdx;
    ghost var path, start := PathBlocks(auth, DEPTH), node;
    for level := 0 to DEPTH
      invariant Rebuild(hash, node, pos, path[level..]) == Rebuild(hash, start, leafIdx, path)
    {
      var sibling := BlockAt(auth, level);
      assert path[level..] == [sibling] + path[level + 1..];
      RebuildStep(hash, node, pos, sibling, path[level + 1..]);
      var left: seq<Byte>, right: seq<Byte> := node, sibling;
      if pos % 2 == 1 { left, right := sibling, node; }
      node := hash(left + right);
      pos := pos / 2;
    }
    return Ok(node == publicKey);
  }

  // None, for an exception, when the seed is not 32 bytes.
  method Generate(hash: Hash, seed: seq<Byte>) returns (r: Option<TreeKey>)
    ensures r.Some? <==> |seed| == DIGEST_LENGTH
    ensures r.Some? ==> fresh(r.value) && r.value.Valid() && r.value.hash == hash && r.value.seed == seed && r.value.keyUse == 0
  {
    if |seed| != DIGEST_LENGTH { return None; }
    var tk := new TreeKey(hash, seed);
    return Some(tk);
  }

  // None when the bytes are too short.
  method Deserialise(hash: Hash, data: seq<Byte>) returns (r: Option<TreeKey>)
    ensures r.Some? <==> |data| >= DIGEST_LENGTH + 4
    ensures r.Some? ==> fresh(r.value) && r.value.Valid() && r.value.hash == hash
    ensures r.Some? ==> r.value.seed == data[..DIGEST_LENGTH] && r.value.keyUse == AsInt(ReadWord(data[DIGEST_LENGTH..]))
  {
    if |data| < DIGEST_LENGTH + 4 { return None; }
    r := Generate(hash, data[..DIGEST_LENGTH]);
    r.value.keyUse := AsInt(ReadWord(data[DIGEST_LENGTH..]));
  }

  // Saving and loading keeps the seed, so the whole tree, and the next leaf, whatever int it is.
  lemma ReloadKeepsKey(seed: seq<Byte>, keyUse: int)
    requires |seed| == DIGEST_LENGTH && -WORD / 2 <= keyUse < WORD / 2
    ensures var out := seed + WordBytes(keyUse % WORD);
            |out| == DIGEST_LENGTH + 4 && out[..DIGEST_LENGTH] == seed && AsInt(ReadWord(out[DIGEST_LENGTH..])) == keyUse
  {
    var out := seed + WordBytes(keyUse % WORD);
    assert out[DIGEST_LENGTH..] == WordBytes(keyUse % WORD);
    ReadWordBytes(keyUse % WORD);
  }

  // ---- one leaf per signature ----------------------------------------------------------

  datatype Use = SignMessage(msg: seq<Byte>) | Reload

  // The counter after a use, through Serialise and Deserialise for a reload.
  function NextUse(keyUse: int, u: Use): int
    requires -WORD / 2 <= keyUse < WORD / 2
  {
    if u.Reload? then AsInt(ReadWord(WordBytes(keyUse % WORD)))
    else if keyUse >= LEAVES then keyUse else keyUse + 1
  }

  // The leaf a use signs with, if it yields a signature.
  function LeafUsed(keyUse: int, u: Use): Option<nat> {
    if u.SignMessage? && 0 <= keyUse < LEAVES && |u.msg| == DIGEST_LENGTH then Some(keyUse) else None
  }

  lemma NextUseInRange(keyUse: int, u: Use)
    requires -WORD / 2 <= keyUse < WORD / 2
    ensures keyUse <= NextUse(keyUse, u) < WORD / 2
    ensures LeafUsed(keyUse, u).Some? ==> LeafUsed(keyUse, u).value == keyUse && NextUse(keyUse, u) == keyUse + 1
  {
    if u.Reload? {
      ReadWordBytes(keyUse % WORD);
    }
  }

  // The leaves behind the signatures of a run, in order.
  function LeavesUsed(keyUse: int, uses: seq<Use>): (s: seq<nat>)
    requires -WORD / 2 <= keyUse < WORD / 2
    decreases |uses|
  {
    if uses == [] then []
    else
      NextUseInRange(keyUse, uses[0]);
      var leaf := LeafUsed(keyUse, uses[0]);
      (if leaf.Some? then [leaf.value] else []) + LeavesUsed(NextUse(keyUse, uses[0]), uses[1..])
  }

  // Over every run of signing and reloading, no leaf signs twice: leaves strictly increase.
  lemma {:induction false} LeavesNeverRepeat(keyUse: int, uses: seq<Use>)
    requires -WORD / 2 <= keyUse < WORD / 2
    ensures forall i | 0 <= i < |LeavesUsed(keyUse, uses)| :: keyUse <= LeavesUsed(keyUse, uses)[i] < LEAVES
    ensures forall i, j | 0 <= i < j < |LeavesUsed(keyUse, uses)| :: LeavesUsed(keyUse, uses)[i] < LeavesUsed(keyUse, uses)[j]
    decreases |uses|
  {
    if uses != [] {
      NextUseInRange(keyUse, uses[0]);
      LeavesNeverRepeat(NextUse(keyUse, uses[0]), uses[1..]);
    }
  }

  // ---- one key per leaf ----------------------------------------------------------------

  // The start of chain c in leaf i's private key.
  function SecretAt(hash: Hash, seed: seq<Byte>, i: nat, c: nat): Digest
    requires c < TOTAL_DIGITS
  {
    BlockAt(LeafKey(hash, seed, i), c)
  }

  // No two chains of a tree, in one leaf or in two, start at one secret unless two named inputs collide.
  lemma ChainsDiffer(hash: Hash, seed: seq<Byte>, i: nat, c: nat, j: nat, d: nat)
    requires i < LEAVES && j < LEAVES && c < TOTAL_DIGITS && d < TOTAL_DIGITS && (i != j || c != d)
    requires SecretAt(hash, seed, i, c) == SecretAt(hash, seed, j, d)
    ensures Collides(hash, seed + WordBytes(i), seed + WordBytes(j))
            || Collides(hash, hash(seed + WordBytes(i)) + WordBytes(c), hash(seed + WordBytes(j)) + WordBytes(d))
  {
    BlockOfFlatten(ChainSeeds(hash, Derived(hash, seed, i)), c);
    BlockOfFlatten(ChainSeeds(hash, Derived(hash, seed, j)), d);
    SecretsDiffer(hash, seed, i, c, j, d);
  }

  // So the private keys of two leaves differ.
  lemma LeafKeysDiffer(hash: Hash, seed: seq<Byte>, i: nat, j: nat)
    requires i < LEAVES && j < LEAVES && i != j && LeafKey(hash, seed, i) == LeafKey(hash, seed, j)
    ensures Collides(hash, seed + WordBytes(i), seed + WordBytes(j))
            || Collides(hash, hash(seed + WordBytes(i)) + WordBytes(0), hash(seed + WordBytes(j)) + WordBytes(0))
  {
    ChainsDiffer(hash, seed, i, 0, j, 0);
  }

  // And over every run of signing and reloading no two signatures are made with one key.
  lemma KeysNeverRepeat(hash: Hash, seed: seq<Byte>, keyUse: int, uses: seq<Use>, a: nat, b: nat)
    requires -WORD / 2 <= keyUse < WORD / 2 && a < b < |LeavesUsed(keyUse, uses)|
    requires LeafKey(hash, seed, LeavesUsed(keyUse, uses)[a]) == LeafKey(hash, seed, LeavesUsed(keyUse, uses)[b])
    ensures var (i, j) := (LeavesUsed(keyUse, uses)[a], LeavesUsed(keyUse, uses)[b]);
            Collides(hash, seed + WordBytes(i), seed + WordBytes(j))
            || Collides(hash, hash(seed + WordBytes(i)) + WordBytes(0), hash(seed + WordBytes(j)) + WordBytes(0))
  {
    LeavesNeverRepeat(keyUse, uses);
    LeafKeysDiffer(hash, seed, LeavesUsed(keyUse, uses)[a], LeavesUsed(keyUse, uses)[b]);
  }

  // The signature by a leaf names the leaf, most significant byte first, and is made with that leaf's key.
  lemma SignedByLeaf(hash: Hash, seed: seq<Byte>, msg: Message, leaf: nat)
    requires leaf < LEAVES
    ensures var sig := TreeSignature(hash, seed, msg, leaf);
            |sig| == TREE_SIG_LENGTH && sig[..4] == [0, 0, 0, leaf]
            && sig[4..4 + SIG_LENGTH] == Signature(hash, LeafKey(hash, seed, leaf), msg)
  {
    LeafCount();
    PathRebuildsRoot(hash, LeafOf(hash, seed), DEPTH, DEPTH, leaf);
    ThreeParts(leaf, Signature(hash, LeafKey(hash, seed, leaf), msg), AuthPath(hash, LeafOf(hash, seed), LEAVES, LEAVES + leaf));
  }

  lemma ThreeParts(leaf: nat, wots: seq<Byte>, path: seq<Digest>)
    requires leaf < LEAVES && |wots| == SIG_LENGTH && |path| == DEPTH
    ensures var sig := WordBytes(leaf) + wots + Flatten(path);
            |sig| == TREE_SIG_LENGTH && sig[..4] == [0, 0, 0, leaf] && sig[4..4 + SIG_LENGTH] == wots
  {
    assert WordBytes(leaf) == [0, 0, 0, leaf];
    var sig := WordBytes(leaf) + wots + Flatten(path);
    assert sig[..4] == WordBytes(leaf) && sig[4..4 + SIG_LENGTH] == wots;
  }
}
