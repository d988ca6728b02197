/**
 * What the two Winternitz schemes share: hash chains, concatenated 32-byte blocks, and digit
 * vectors closed by a checksum.
 */
module OneTime {
  import opened Bytes
  import opened Magnitudes

  // ---- hash chains ---------------------------------------------------------------------

  function Chain(hash: Hash, x: Digest, n: nat): Digest {
    if n == 0 then x else hash(Chain(hash, x, n - 1))
  }

  // Walking a steps and then b is walking a + b: what makes a signature lead to the public key.
  lemma {:induction false} ChainComposes(hash: Hash, x: Digest, a: nat, b: nat)
    ensures Chain(hash, Chain(hash, x, a), b) == Chain(hash, x, a + b)
  {
    if b > 0 {
      ChainComposes(hash, x, a, b - 1);
    }
  }

  // A chain is its start hashed n times, one hash after the other.
  lemma {:induction false} ChainTrace(hash: Hash, x: Digest, n: nat) returns (t: seq<Digest>)
    ensures |t| == n + 1 && t[0] == x && t[n] == Chain(hash, x, n)
    ensures forall k | 0 <= k < n :: t[k + 1] == hash(t[k])
  {
    if n == 0 {
      t := [x];
    } else {
      t := ChainTrace(hash, x, n - 1);
      t := t + [Chain(hash, x, n)];
    }
  }

  method HashChain(hash: Hash, seed: Digest, steps: nat) returns (cur: Digest)
    ensures cur == Chain(hash, seed, steps)
  {
    cur := seed;
    for i := 0 to steps
      invariant cur == Chain(hash, seed, i)
    {
      cur := hash(cur);
    }
  }

  // The i-th secret derived from a seed: a chain's start, or a leaf's own seed.
  function Derived(hash: Hash, seed: seq<Byte>, i: nat): Digest {
    hash(seed + WordBytes(i))
  }

  lemma InputsDiffer(a: seq<Byte>, i: nat, b: seq<Byte>, j: nat)
    requires |a| == |b| && i < WORD && j < WORD && (a != b || i != j)
    ensures a + WordBytes(i) != b + WordBytes(j)
  {
    ReadWordBytes(i);
    ReadWordBytes(j);
    var x, y := a + WordBytes(i), b + WordBytes(j);
    assert a == x[..|a|] && b == y[..|b|] && WordBytes(i) == x[|a|..] && WordBytes(j) == y[|b|..];
  }

  // Two secrets that two leaves of a seed derive for their chains are equal only where two named inputs
  // collide: those of the secrets, or those of the leaves' own seeds.
  lemma SecretsDiffer(hash: Hash, seed: seq<Byte>, i: nat, c: nat, j: nat, d: nat)
    requires i < WORD && j < WORD && c < WORD && d < WORD && (i != j || c != d)
    requires Derived(hash, Derived(hash, seed, i), c) == Derived(hash, Derived(hash, seed, j), d)
    ensures Collides(hash, seed + WordBytes(i), seed + WordBytes(j))
            || Collides(hash, hash(seed + WordBytes(i)) + WordBytes(c), hash(seed + WordBytes(j)) + WordBytes(d))
  {
    if i != j && hash(seed + WordBytes(i)) == hash(seed + WordBytes(j)) {
      InputsDiffer(seed, i, seed, j);
    } else {
      InputsDiffer(hash(seed + WordBytes(i)), c, hash(seed + WordBytes(j)), d);
    }
  }

  // ---- blocks --------------------------------------------------------------------------

  function Flatten(blocks: seq<Digest>): (b: seq<Byte>)
    ensures |b| == DIGEST_LENGTH * |blocks|
  {
    if blocks == [] then [] else Flatten(blocks[..|blocks| - 1]) + blocks[|blocks| - 1]
  }

  function BlockAt(b: seq<Byte>, i: nat): Digest
    requires DIGEST_LENGTH * (i + 1) <= |b|
  {
    b[DIGEST_LENGTH * i..DIGEST_LENGTH * (i + 1)]
  }

  lemma {:induction false} BlockOfFlatten(blocks: seq<Digest>, i: nat)
    requires i < |blocks|
    ensures BlockAt(Flatten(blocks), i) == blocks[i]
  {
    if i < |blocks| - 1 {
      BlockOfFlatten(blocks[..|blocks| - 1], i);
    }
  }

  lemma FlattenSnoc(blocks: seq<Digest>, i: nat)
    requires i < |blocks|
    ensures Flatten(blocks[..i + 1]) == Flatten(blocks[..i]) + blocks[i]
  {
    assert blocks[..i + 1][..i] == blocks[..i];
  }

  // Every block of a blob walked along its chain, block i by steps[i].
  function Walked(hash: Hash, blob: seq<Byte>, steps: seq<nat>): (b: seq<Digest>)
    requires |blob| >= DIGEST_LENGTH * |steps|
    ensures |b| == |steps|
  {
    seq(|steps|, i requires 0 <= i < |steps| => Chain(hash, BlockAt(blob, i), steps[i]))
  }

  // What is left of each digit's chain.
  function Remaining(digits: seq<nat>, top: nat): (r: seq<nat>)
    requires Digits(digits, top + 1)
    ensures |r| == |digits|
  {
    seq(|digits|, i requires 0 <= i < |digits| => top - digits[i])
  }

  function Whole(n: nat, top: nat): (r: seq<nat>)
    ensures |r| == n
  {
    seq(n, _ => top)
  }

  // Signing walks each chain part of the way and verifying the rest: together, all the way.
  lemma WalkedTwice(hash: Hash, blob: seq<Byte>, digits: seq<nat>, top: nat)
    requires |blob| >= DIGEST_LENGTH * |digits| && Digits(digits, top + 1)
    ensures Walked(hash, Flatten(Walked(hash, blob, digits)), Remaining(digits, top))
         == Walked(hash, blob, Whole(|digits|, top))
  {
    var once := Walked(hash, blob, digits);
    var twice := Walked(hash, Flatten(once), Remaining(digits, top));
    var whole := Walked(hash, blob, Whole(|digits|, top));
    forall i | 0 <= i < |digits|
      ensures twice[i] == whole[i]
    {
      BlockOfFlatten(once, i);
      ChainComposes(hash, BlockAt(blob, i), digits[i], top - digits[i]);
    }
  }

  // ---- digits and their checksum -------------------------------------------------------

  ghost predicate Digits(d: seq<nat>, base: nat) {
    forall i | 0 <= i < |d| :: d[i] < base
  }

  // How far the digits are from their maximum, together.
  function Slack(d: seq<nat>, base: nat): nat
    requires Digits(d, base)
  {
    if d == [] then 0 else Slack(d[..|d| - 1], base) + (base - 1 - d[|d| - 1])
  }

  lemma SlackSnoc(d: seq<nat>, base: nat, i: nat)
    requires i < |d| && Digits(d, base)
    ensures Slack(d[..i + 1], base) == Slack(d[..i], base) + (base - 1 - d[i])
  {
    assert d[..i + 1][..i] == d[..i];
  }

  // Big-endian digits as a number.
  function Number(d: seq<nat>, base: nat): nat {
    if d == [] then 0 else base * Number(d[..|d| - 1], base) + d[|d| - 1]
  }

  // c spells the checksum of the message digits d.
  ghost predicate Checks(d: seq<nat>, c: seq<nat>, base: nat) {
    Digits(d, base) && Digits(c, base) && Number(c, base) == Slack(d, base)
  }

  ghost predicate Below(d: seq<nat>, e: seq<nat>) {
    |d| == |e| && forall i | 0 <= i < |d| :: d[i] <= e[i]
  }

  ghost predicate Exceeds(d: seq<nat>, e: seq<nat>, i: nat) {
    i < |d| && i < |e| && d[i] > e[i]
  }

  lemma {:induction false} SlackFalls(d: seq<nat>, e: seq<nat>, base: nat)
    requires Digits(d, base) && Digits(e, base) && Below(d, e)
    ensures Slack(e, base) <= Slack(d, base)
    ensures Slack(e, base) == Slack(d, base) ==> d == e
  {
    if d != [] {
      var m := |d| - 1;
      SlackFalls(d[..m], e[..m], base);
      assert d == d[..m] + [d[m]] && e == e[..m] + [e[m]];
    }
  }

  lemma {:induction false} SlackBound(d: seq<nat>, base: nat)
    requires base > 0 && Digits(d, base)
    ensures Slack(d, base) <= |d| * (base - 1)
  {
    if d != [] {
      SlackBound(d[..|d| - 1], base);
      assert (|d| - 1) * (base - 1) + (base - 1) == |d| * (base - 1);
    }
  }

  lemma {:induction false} NumberRises(c: seq<nat>, d: seq<nat>, base: nat)
    requires Below(c, d)
    ensures Number(c, base) <= Number(d, base)
  {
    if c != [] {
      var m := |c| - 1;
      NumberRises(c[..m], d[..m], base);
      MulMono(Number(c[..m], base), Number(d[..m], base), base);
    }
  }

  // Raising any message digit lowers the checksum, so of two different digit strings neither
  // lies below the other once their checksums are appended.
  lemma CodedIncomparable(d: seq<nat>, c: seq<nat>, e: seq<nat>, f: seq<nat>, base: nat)
    requires Checks(d, c, base) && Checks(e, f, base) && |d| == |e| && |c| == |f| && d != e
    ensures exists i: nat :: Exceeds(d + c, e + f, i)
  {
    if forall i: nat :: !Exceeds(d + c, e + f, i) {
      forall i | 0 <= i < |d| ensures d[i] <= e[i] {
        assert !Exceeds(d + c, e + f, i);
      }
      forall i | 0 <= i < |c| ensures c[i] <= f[i] {
        assert !Exceeds(d + c, e + f, |d| + i);
      }
      SlackFalls(d, e, base);
      NumberRises(c, f, base);
    }
  }
}
