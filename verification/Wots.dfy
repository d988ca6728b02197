/** WOTS: Winternitz one-time signatures over base-16 digits, keys and signatures as flat byte strings. */
module Wots {
  import opened Bytes
  import opened OneTime

  const TOP: nat := 15
  const MSG_DIGITS: nat := 64
  const TOTAL_DIGITS: nat := 67
  const SIG_LENGTH: nat := 2144

  type Message = s: seq<Byte> | |s| == DIGEST_LENGTH witness seq(DIGEST_LENGTH, _ => 0)

  // ---- digits --------------------------------------------------------------------------

  function MessageDigits(msg: Message): (d: seq<nat>)
    ensures |d| == MSG_DIGITS && Digits(d, TOP + 1)
  {
    seq(MSG_DIGITS, i requires 0 <= i < MSG_DIGITS => if i % 2 == 0 then msg[i / 2] as int / 16 else msg[i / 2] as int % 16)
  }

  function ChecksumDigits(sum: nat): (d: seq<nat>)
    ensures |d| == 3 && Digits(d, TOP + 1)
  {
    [sum / 16 / 16 % 16, sum / 16 % 16, sum % 16]
  }

  function AllDigits(msg: Message): (d: seq<nat>)
    ensures |d| == TOTAL_DIGITS && Digits(d, TOP + 1)
  {
    MessageDigits(msg) + ChecksumDigits(Slack(MessageDigits(msg), TOP + 1))
  }

  lemma MessageDigitsInjective(m: Message, n: Message)
    requires MessageDigits(m) == MessageDigits(n)
    ensures m == n
  {
    forall i | 0 <= i < DIGEST_LENGTH
      ensures m[i] == n[i]
    {
      assert MessageDigits(m)[2 * i] == MessageDigits(n)[2 * i];
      assert MessageDigits(m)[2 * i + 1] == MessageDigits(n)[2 * i + 1];
    }
  }

  // Three base-16 digits hold any checksum of 64 digits.
  lemma ThreeDigitsSuffice(msg: Message)
    ensures Checks(MessageDigits(msg), ChecksumDigits(Slack(MessageDigits(msg), TOP + 1)), TOP + 1)
  {
    var d := MessageDigits(msg);
    var sum := Slack(d, TOP + 1);
    SlackBound(d, TOP + 1);
    var c := ChecksumDigits(sum);
    assert c[..2][..1] == c[..1] && c[..1][..0] == [];
    assert Number(c[..1], 16) == c[0];
    assert Number(c[..2], 16) == 16 * c[0] + c[1];
  }

  // Of two different messages each has a digit that exceeds the other's: neither signature is a
  // prefix of the work of the other.
  lemma DifferentMessagesIncomparable(m: Message, n: Message)
    requires m != n
    ensures exists i: nat :: Exceeds(AllDigits(m), AllDigits(n), i)
    ensures exists i: nat :: Exceeds(AllDigits(n), AllDigits(m), i)
  {
    if MessageDigits(m) == MessageDigits(n) {
      MessageDigitsInjective(m, n);
    }
    ThreeDigitsSuffice(m);
    ThreeDigitsSuffice(n);
    var d, c := MessageDigits(m), ChecksumDigits(Slack(MessageDigits(m), TOP + 1));
    var e, f := MessageDigits(n), ChecksumDigits(Slack(MessageDigits(n), TOP + 1));
    assert AllDigits(m) == d + c && AllDigits(n) == e + f;
    CodedIncomparable(d, c, e, f, TOP + 1);
    CodedIncomparable(e, f, d, c, TOP + 1);
  }

  method MsgToDigits(msg: seq<Byte>) returns (r: Result<seq<nat>>)
    ensures r.Ok? <==> |msg| == DIGEST_LENGTH
    ensures r.Ok? ==> r.value == AllDigits(msg)
  {
    if |msg| != DIGEST_LENGTH { return Err("WOTS msg must be 32 bytes"); }
    var digits: seq<nat> := seq(TOTAL_DIGITS, _ => 0);
    for i := 0 to DIGEST_LENGTH
      invariant |digits| == TOTAL_DIGITS && forall j | 0 <= j < 2 * i :: digits[j] == MessageDigits(msg)[j]
    {
      digits := digits[2 * i := msg[i] as int / 16][2 * i + 1 := msg[i] as int % 16];
    }
    assert digits[..MSG_DIGITS] == MessageDigits(msg);
    var csum: nat := 0;
    for i := 0 to MSG_DIGITS
      invariant csum == Slack(MessageDigits(msg)[..i], TOP + 1)
    {
      SlackSnoc(MessageDigits(msg), TOP + 1, i);
      csum := csum + (TOP - digits[i]);
    }
    assert MessageDigits(msg)[..MSG_DIGITS] == MessageDigits(msg);
    ghost var sum := csum;
    for i := 3 downto 0
      invariant |digits| == TOTAL_DIGITS && digits[..MSG_DIGITS] == MessageDigits(msg)
      invariant csum == if i == 3 then sum else if i == 2 then sum / 16 else if i == 1 then sum / 16 / 16 else sum / 16 / 16 / 16
      invariant forall j | i <= j < 3 :: digits[MSG_DIGITS + j] == ChecksumDigits(sum)[j]
    {
      digits := digits[MSG_DIGITS + i := csum % 16];
      csum := csum / 16;
    }
    assert digits == digits[..MSG_DIGITS] + digits[MSG_DIGITS..];
    assert digits[MSG_DIGITS..] == ChecksumDigits(sum);
    return Ok(digits);
  }

  // ---- keys ----------------------------------------------------------------------------

  function ChainSeeds(hash: Hash, seed: seq<Byte>): (s: seq<Digest>)
    ensures |s| == TOTAL_DIGITS
  {
    seq(TOTAL_DIGITS, i requires 0 <= i < TOTAL_DIGITS => Derived(hash, seed, i))
  }

  function PrivateKey(hash: Hash, seed: seq<Byte>): (k: seq<Byte>)
    ensures |k| == SIG_LENGTH
  {
    Flatten(ChainSeeds(hash, seed))
  }

  // The public key of any private key: the hash of all its chains walked to the top.
  function PublicKey(hash: Hash, key: seq<Byte>): Digest
    requires |key| == SIG_LENGTH
  {
    hash(Flatten(Walked(hash, key, Whole(TOTAL_DIGITS, TOP))))
  }

  method GenerateKeyPair(hash: Hash, seed: seq<Byte>) returns (r: Result<(seq<Byte>, Digest)>)
    ensures r.Ok? <==> |seed| == DIGEST_LENGTH
    ensures r.Ok? ==> r.value == (PrivateKey(hash, seed), PublicKey(hash, PrivateKey(hash, seed)))
  {
    if |seed| != DIGEST_LENGTH { return Err("WOTS seed must be 32 bytes"); }
    ghost var chains := ChainSeeds(hash, seed);
    ghost var tops := Walked(hash, PrivateKey(hash, seed), Whole(TOTAL_DIGITS, TOP));
    var priv: seq<Byte>, pubConcat: seq<Byte> := [], [];
    for i := 0 to TOTAL_DIGITS
      invariant priv == Flatten(chains[..i]) && pubConcat == Flatten(tops[..i])
    {
      var c := Derived(hash, seed, i);
      var top := HashChain(hash, c, TOP);
      BlockOfFlatten(chains, i);
      FlattenSnoc(chains, i);
      FlattenSnoc(tops, i);
      priv, pubConcat := priv + c, pubConcat + top;
    }
    assert chains[..TOTAL_DIGITS] == chains && tops[..TOTAL_DIGITS] == tops;
    return Ok((priv, hash(pubConcat)));
  }

  // ---- signatures ----------------------------------------------------------------------

  function Signature(hash: Hash, key: seq<Byte>, msg: Message): (s: seq<Byte>)
    requires |key| == SIG_LENGTH
    ensures |s| == SIG_LENGTH
  {
    Flatten(Walked(hash, key, AllDigits(msg)))
  }

  // The public key a signature on msg leads to.
  function Recovered(hash: Hash, sig: seq<Byte>, msg: Message): Digest
    requires |sig| == SIG_LENGTH
  {
    hash(Flatten(Walked(hash, sig, Remaining(AllDigits(msg), TOP))))
  }

  // Every signature leads back to the key that made it, for every hash function.
  lemma SignatureRecoversKey(hash: Hash, key: seq<Byte>, msg: Message)
    requires |key| == SIG_LENGTH
    ensures Recovered(hash, Signature(hash, key, msg), msg) == PublicKey(hash, key)
  {
    WalkedTwice(hash, key, AllDigits(msg), TOP);
  }

  // A signature shows each message chain as many hashes from its secret as the message's nibble says, high
  // nibbles first.
  lemma NibbleIsWalked(hash: Hash, key: seq<Byte>, msg: Message, i: nat) returns (t: seq<Digest>)
    requires |key| == SIG_LENGTH && i < MSG_DIGITS
    ensures |t| == 1 + (if i % 2 == 0 then msg[i / 2] as int / 16 else msg[i / 2] as int % 16)
    ensures t[0] == BlockAt(key, i) && t[|t| - 1] == BlockAt(Signature(hash, key, msg), i)
    ensures forall k | 0 <= k < |t| - 1 :: t[k + 1] == hash(t[k])
  {
    BlockOfFlatten(Walked(hash, key, AllDigits(msg)), i);
    assert AllDigits(msg)[i] == MessageDigits(msg)[i];
    t := ChainTrace(hash, BlockAt(key, i), AllDigits(msg)[i]);
  }

  method Sign(hash: Hash, key: seq<Byte>, msg: seq<Byte>) returns (r: Result<seq<Byte>>)
    ensures r.Ok? <==> |key| == SIG_LENGTH && |msg| == DIGEST_LENGTH
    ensures r.Ok? ==> r.value == Signature(hash, key, msg)
  {
    if |key| != SIG_LENGTH { return Err("WOTS private key must be 2144 bytes"); }
    var digits := MsgToDigits(msg);
    if digits.Err? { return Err(digits.error); }
    ghost var blocks := Walked(hash, key, digits.value);
    var sig: seq<Byte> := [];
    for i := 0 to TOTAL_DIGITS
      invariant sig == Flatten(blocks[..i])
    {
      var s := HashChain(hash, BlockAt(key, i), digits.value[i]);
      FlattenSnoc(blocks, i);
      sig := sig + s;
    }
    assert blocks[..TOTAL_DIGITS] == blocks;
    return Ok(sig);
  }

  // The hash of all chains of a signature walked to the top; shared with the tree key.
  method Candidate(hash: Hash, msg: Message, sig: seq<Byte>, digits: seq<nat>) returns (key: Digest)
    requires |sig| == SIG_LENGTH && digits == AllDigits(msg)
    ensures key == Recovered(hash, sig, msg)
  {
    ghost var tops := Walked(hash, sig, Remaining(digits, TOP));
    var pubConcat: seq<Byte> := [];
    for i := 0 to TOTAL_DIGITS
      invariant pubConcat == Flatten(tops[..i])
    {
      var top := HashChain(hash, BlockAt(sig, i), TOP - digits[i]);
      FlattenSnoc(tops, i);
      pubConcat := pubConcat + top;
    }
    assert tops[..TOTAL_DIGITS] == tops;
    return hash(pubConcat);
  }

  // The error is the exception a message of the wrong size raises, after the size checks.
  method Verify(hash: Hash, publicKey: seq<Byte>, msg: seq<Byte>, sig: seq<Byte>) returns (r: Result<bool>)
    ensures |sig| != SIG_LENGTH || |publicKey| != DIGEST_LENGTH ==> r == Ok(false)
    ensures |sig| == SIG_LENGTH && |publicKey| == DIGEST_LENGTH ==>
              if |msg| != DIGEST_LENGTH then r.Err? else r == Ok(Recovered(hash, sig, msg) == publicKey)
  {
    if |sig| != SIG_LENGTH || |publicKey| != DIGEST_LENGTH { return Ok(false); }
    var digits := MsgToDigits(msg);
    if digits.Err? { return Err(digits.error); }
    var candidate := Candidate(hash, msg, sig, digits.value);
    return Ok(candidate == publicKey);
  }
}
