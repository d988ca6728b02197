/** Winternitz one-time signatures over base-8 digits, public keys and signatures of 90 blocks. */
module Winternitz {
  import opened Bytes
  import opened MmrSpec
  import opened Bits
  import opened BitOrder
  import opened OneTime

  const TOP: nat := 7
  const KEY_BLOCKS: nat := 86
  const SIG_BLOCKS: nat := 90
  const SIG_SIZE: nat := 2880

  // ---- digits --------------------------------------------------------------------------

  // The whole 3-bit groups of a message, most significant first, cut or padded to 86.
  function BlockDigits(msg: seq<Byte>): (d: seq<nat>)
    ensures |d| == KEY_BLOCKS && Digits(d, TOP + 1)
  {
    var groups := Pack(Unpack(msg, 8), 3);
    PackFits(Unpack(msg, 8), 3);
    assert Pow2(3) == 8;
    seq(KEY_BLOCKS, i requires 0 <= i < KEY_BLOCKS => if i < |groups| then groups[i] else 0)
  }

  function ChecksumDigits(sum: nat): (d: seq<nat>)
    ensures |d| == 4 && Digits(d, TOP + 1)
  {
    [sum / 8 / 8 / 8 % 8, sum / 8 / 8 % 8, sum / 8 % 8, sum % 8]
  }

  function AllDigits(msg: seq<Byte>): (d: seq<nat>)
    ensures |d| == SIG_BLOCKS && Digits(d, TOP + 1)
  {
    BlockDigits(msg) + ChecksumDigits(Slack(BlockDigits(msg), TOP + 1))
  }

  // The digits are cut from a 32-bit buffer; the loop ends with the last digit, not the last byte.
  method MessageDigits(msg: seq<Byte>) returns (digits: seq<nat>)
    ensures digits == BlockDigits(msg)
  {
    BytesFit(msg);
    digits := Regroup(msg, 8, 3, 32, Some(KEY_BLOCKS));
    while |digits| < KEY_BLOCKS
      invariant |digits| <= KEY_BLOCKS
      invariant forall i | 0 <= i < |digits| :: digits[i] == BlockDigits(msg)[i]
      invariant |digits| < KEY_BLOCKS ==> |Pack(Unpack(msg, 8), 3)| <= |digits|
    {
      digits := digits + [0];
    }
  }

  method AppendChecksum(digits: seq<nat>) returns (all: seq<nat>)
    requires |digits| == KEY_BLOCKS && Digits(digits, TOP + 1)
    ensures all == digits + ChecksumDigits(Slack(digits, TOP + 1))
  {
    var checksum: nat := 0;
    for i := 0 to KEY_BLOCKS
      invariant checksum == Slack(digits[..i], TOP + 1)
    {
      SlackSnoc(digits, TOP + 1, i);
      checksum := checksum + (TOP - digits[i]);
    }
    assert digits[..KEY_BLOCKS] == digits;
    ghost var sum := checksum;
    var cdigits: seq<nat> := [0, 0, 0, 0];
    for i := 4 downto 0
      invariant |cdigits| == 4
      invariant checksum == if i == 4 then sum else if i == 3 then sum / 8 else if i == 2 then sum / 8 / 8
                            else if i == 1 then sum / 8 / 8 / 8 else sum / 8 / 8 / 8 / 8
      invariant forall j | i <= j < 4 :: cdigits[j] == ChecksumDigits(sum)[j]
    {
      cdigits := cdigits[i := checksum % 8];
      checksum := checksum / 8;
    }
    assert cdigits == ChecksumDigits(sum);
    return digits + cdigits;
  }

  lemma FourDigitsSuffice(msg: seq<Byte>)
    ensures Checks(BlockDigits(msg), ChecksumDigits(Slack(BlockDigits(msg), TOP + 1)), TOP + 1)
  {
    var d := BlockDigits(msg);
    var sum := Slack(d, TOP + 1);
    SlackBound(d, TOP + 1);
    FourDigitNumber(sum / 8 / 8 / 8 % 8, sum / 8 / 8 % 8, sum / 8 % 8, sum % 8);
    FourDigits(sum);
  }

  lemma FourDigits(sum: nat)
    requires sum < 8 * 8 * 8 * 8
    ensures 512 * (sum / 8 / 8 / 8 % 8) + 64 * (sum / 8 / 8 % 8) + 8 * (sum / 8 % 8) + sum % 8 == sum
  {
  }

  lemma FourDigitNumber(a: nat, b: nat, c: nat, d: nat)
    ensures Number([a, b, c, d], TOP + 1) == 512 * a + 64 * b + 8 * c + d
  {
    assert [a, b, c, d][..3] == [a, b, c] && [a, b, c][..2] == [a, b] && [a, b][..1] == [a] && [a][..0] == [];
    assert Number([a, b], 8) == 8 * a + b by { assert Number([a], 8) == a; }
    assert Number([a, b, c], 8) == 64 * a + 8 * b + c;
  }

  // ---- what the digits say of a message -------------------------------------------------

  const KEPT_BITS: nat := 258

  // The bits of a message that reach a digit: its whole 3-bit groups, cut or padded to 258 bits.
  function KeptBits(msg: seq<Byte>): (b: seq<bool>)
    ensures |b| == KEPT_BITS
  {
    var bits := Unpack(msg, 8);
    seq(KEPT_BITS, i requires 0 <= i < KEPT_BITS => i < |bits| - |bits| % 3 && bits[i])
  }

  lemma KeptAt(msg: seq<Byte>, i: nat)
    requires i < KEPT_BITS
    ensures KeptBits(msg)[i] <==> i < |Unpack(msg, 8)| - |Unpack(msg, 8)| % 3 && Unpack(msg, 8)[i]
  {
  }

  // Bit c of byte j, the highest first, is kept if it stands in a whole group among the first 258.
  lemma KeptBitIs(msg: seq<Byte>, w: nat, j: nat, c: nat, i: nat)
    requires w == 8 && j < |msg| && c < w && i == j * w + c && i < KEPT_BITS && i < |Unpack(msg, w)| - |Unpack(msg, w)| % 3
    ensures KeptBits(msg)[i] <==> Bit(msg[j], w - 1 - c)
  {
    KeptAt(msg, i);
    BitAt(msg, w, j, c);
  }

  lemma {:induction false} PackedAt(b: seq<bool>, i: nat)
    ensures |Pack(b, 3)| == |b| / 3
    ensures i < |b| / 3 ==> Pack(b, 3)[i] == FromBits(b[3 * i..3 * i + 3])
    decreases |b|
  {
    if |b| >= 3 {
      PackedAt(b[3..], if i == 0 then 0 else i - 1);
      if 0 < i < |b| / 3 {
        assert b[3..][3 * (i - 1)..3 * (i - 1) + 3] == b[3 * i..3 * i + 3];
      }
    }
  }

  lemma ZeroTriple(b: seq<bool>)
    requires b == [false, false, false]
    ensures FromBits(b) == 0
  {
    assert b[..2] == [false, false] && [false, false][..1] == [false] && [false][..0] == [];
    assert FromBits([false]) == 0;
    assert FromBits([false, false]) == 0;
  }

  // Digit i is the number three of the kept bits spell.
  lemma DigitOfKeptBits(msg: seq<Byte>, i: nat)
    requires i < KEY_BLOCKS
    ensures BlockDigits(msg)[i] == FromBits(KeptBits(msg)[3 * i..3 * i + 3])
  {
    PackedAt(Unpack(msg, 8), i);
    if i < |Unpack(msg, 8)| / 3 {
      KeptTriple(msg, i);
    } else {
      ZeroTriple(KeptBits(msg)[3 * i..3 * i + 3]);
    }
  }

  lemma KeptTriple(msg: seq<Byte>, i: nat)
    requires i < KEY_BLOCKS && i < |Unpack(msg, 8)| / 3
    ensures KeptBits(msg)[3 * i..3 * i + 3] == Unpack(msg, 8)[3 * i..3 * i + 3]
  {
  }

  lemma KeptBitOfDigit(msg: seq<Byte>, i: nat)
    requires i < KEY_BLOCKS
    ensures KeptBits(msg)[3 * i..3 * i + 3] == BitsOf(BlockDigits(msg)[i], 3)
  {
    DigitOfKeptBits(msg, i);
    BitsOfFrom(KeptBits(msg)[3 * i..3 * i + 3]);
  }

  lemma EqualByTriples(a: seq<bool>, b: seq<bool>)
    requires |a| == |b| == KEPT_BITS
    requires forall i: nat | i < KEY_BLOCKS :: a[3 * i..3 * i + 3] == b[3 * i..3 * i + 3]
    ensures a == b
  {
    forall j: nat | j < KEPT_BITS
      ensures a[j] == b[j]
    {
      var i, r := j / 3, j % 3;
      assert a[3 * i..3 * i + 3][r] == b[3 * i..3 * i + 3][r];
    }
  }

  // Of messages of any lengths, the digits are equal exactly when the kept bits are.
  lemma DigitsAreKeptBits(m: seq<Byte>, n: seq<Byte>)
    ensures BlockDigits(m) == BlockDigits(n) <==> KeptBits(m) == KeptBits(n)
  {
    if KeptBits(m) == KeptBits(n) {
      forall i: nat | i < KEY_BLOCKS
        ensures BlockDigits(m)[i] == BlockDigits(n)[i]
      {
        DigitOfKeptBits(m, i);
        DigitOfKeptBits(n, i);
      }
    }
    if BlockDigits(m) == BlockDigits(n) {
      forall i: nat | i < KEY_BLOCKS
        ensures KeptBits(m)[3 * i..3 * i + 3] == KeptBits(n)[3 * i..3 * i + 3]
      {
        KeptBitOfDigit(m, i);
        KeptBitOfDigit(n, i);
      }
      EqualByTriples(KeptBits(m), KeptBits(n));
    }
  }

  // Main result: two messages of any lengths have incomparable digit vectors exactly when their kept
  // bits differ.
  lemma IncomparableIffKeptBitsDiffer(m: seq<Byte>, n: seq<Byte>)
    ensures KeptBits(m) != KeptBits(n) <==> exists i: nat :: Exceeds(AllDigits(m), AllDigits(n), i)
  {
    DigitsAreKeptBits(m, n);
    if BlockDigits(m) != BlockDigits(n) {
      FourDigitsSuffice(m);
      FourDigitsSuffice(n);
      var d, c := BlockDigits(m), ChecksumDigits(Slack(BlockDigits(m), TOP + 1));
      var e, f := BlockDigits(n), ChecksumDigits(Slack(BlockDigits(n), TOP + 1));
      assert AllDigits(m) == d + c && AllDigits(n) == e + f;
      CodedIncomparable(d, c, e, f, TOP + 1);
    } else {
      assert AllDigits(m) == AllDigits(n);
    }
  }

  // Of a 32-byte message, the kept bits are the first 255.
  lemma KeptOf32Bytes(m: seq<Byte>)
    requires |m| == DIGEST_LENGTH
    ensures |Unpack(m, 8)| == 256
    ensures KeptBits(m) == Unpack(m, 8)[..255] + [false, false, false]
  {
    UnpackLength(m, 8);
  }

  lemma IncomparableIffPrefixesDiffer(m: seq<Byte>, n: seq<Byte>)
    requires |m| == |n| == DIGEST_LENGTH
    ensures |Unpack(m, 8)| == |Unpack(n, 8)| == 256
    ensures Unpack(m, 8)[..255] != Unpack(n, 8)[..255] <==> exists i: nat :: Exceeds(AllDigits(m), AllDigits(n), i)
  {
    KeptOf32Bytes(m);
    KeptOf32Bytes(n);
    assert KeptBits(m)[..255] == Unpack(m, 8)[..255] && KeptBits(n)[..255] == Unpack(n, 8)[..255];
    IncomparableIffKeptBitsDiffer(m, n);
  }

  // Changing the last bit of a 32-byte message changes no digit.
  lemma LastBitHasNoDigit(z: seq<Byte>, b: Byte)
    requires |z| == DIGEST_LENGTH - 1 && b % 2 == 0
    ensures z + [b] != z + [b + 1] && AllDigits(z + [b]) == AllDigits(z + [b + 1])
  {
    var m, n: seq<Byte> := z + [b], z + [b + 1];
    assert m[|z|] != n[|z|];
    KeptOf32Bytes(m);
    KeptOf32Bytes(n);
    UnpackLength(z, 8);
    UnpackPush(z, b, 8);
    UnpackPush(z, b + 1, 8);
    BitsBesideLast(b, 7);
    assert Unpack(m, 8)[..255] == Unpack(z, 8) + BitsOf(b, 8)[..7];
    assert Unpack(n, 8)[..255] == Unpack(z, 8) + BitsOf(b + 1, 8)[..7];
    DigitsAreKeptBits(m, n);
  }

  lemma BitsBesideLast(b: nat, w: nat)
    requires b % 2 == 0
    ensures BitsOf(b, w + 1)[..w] == BitsOf(b + 1, w + 1)[..w]
  {
    assert b / 2 == (b + 1) / 2;
  }

  // Of longer data, they are the first 258 bits.
  lemma KeptOfLongData(m: seq<Byte>)
    requires |m| > DIGEST_LENGTH
    ensures |Unpack(m, 8)| > KEPT_BITS && KeptBits(m) == Unpack(m, 8)[..KEPT_BITS]
  {
    UnpackLength(m, 8);
  }

  // So what follows the first 33 bytes reaches no digit.
  lemma LongDataIsCut(m: seq<Byte>, x: seq<Byte>)
    requires |m| > DIGEST_LENGTH
    ensures AllDigits(m + x) == AllDigits(m)
  {
    KeptOfLongData(m);
    KeptOfLongData(m + x);
    UnpackConcat(m, x, 8);
    assert (Unpack(m, 8) + Unpack(x, 8))[..KEPT_BITS] == Unpack(m, 8)[..KEPT_BITS];
    DigitsAreKeptBits(m + x, m);
  }

  // ---- keys and signatures -------------------------------------------------------------

  function PrivateElements(hash: Hash, seed: seq<Byte>): (s: seq<Digest>)
    ensures |s| == SIG_BLOCKS
  {
    seq(SIG_BLOCKS, i requires 0 <= i < SIG_BLOCKS => Derived(hash, seed, i))
  }

  function PublicKey(hash: Hash, seed: seq<Byte>): (k: seq<Byte>)
    ensures |k| == SIG_SIZE
  {
    Flatten(Walked(hash, Flatten(PrivateElements(hash, seed)), Whole(SIG_BLOCKS, TOP)))
  }

  function Signature(hash: Hash, seed: seq<Byte>, msg: seq<Byte>): (s: seq<Byte>)
    ensures |s| == SIG_SIZE
  {
    Flatten(Walked(hash, Flatten(PrivateElements(hash, seed)), AllDigits(msg)))
  }

  function Recovered(hash: Hash, msg: seq<Byte>, sig: seq<Byte>): (k: seq<Byte>)
    requires |sig| >= SIG_SIZE
    ensures |k| == SIG_SIZE
  {
    Flatten(Walked(hash, sig, Remaining(AllDigits(msg), TOP)))
  }

  // Every signature leads back to the key that made it, whatever the message's length.
  lemma SignatureRecoversKey(hash: Hash, seed: seq<Byte>, msg: seq<Byte>)
    ensures Recovered(hash, msg, Signature(hash, seed, msg)) == PublicKey(hash, seed)
  {
    WalkedTwice(hash, Flatten(PrivateElements(hash, seed)), AllDigits(msg), TOP);
  }

  // Data with the same first 33 bytes has the same signature.
  lemma LongDataSharesSignature(hash: Hash, seed: seq<Byte>, m: seq<Byte>, x: seq<Byte>, y: seq<Byte>)
    requires |m| > DIGEST_LENGTH
    ensures Signature(hash, seed, m + x) == Signature(hash, seed, m + y)
  {
    LongDataIsCut(m, x);
    LongDataIsCut(m, y);
  }

  // A signature shows each message chain as many hashes from its secret as three kept bits spell.
  lemma BitsAreWalked(hash: Hash, seed: seq<Byte>, msg: seq<Byte>, i: nat) returns (t: seq<Digest>)
    requires i < KEY_BLOCKS
    ensures var b := KeptBits(msg)[3 * i..3 * i + 3];
            |t| == 1 + (if b[0] then 4 else 0) + (if b[1] then 2 else 0) + (if b[2] then 1 else 0)
    ensures t[0] == hash(seed + WordBytes(i)) && t[|t| - 1] == BlockAt(Signature(hash, seed, msg), i)
    ensures forall k | 0 <= k < |t| - 1 :: t[k + 1] == hash(t[k])
  {
    var secrets, b := PrivateElements(hash, seed), KeptBits(msg)[3 * i..3 * i + 3];
    BlockOfFlatten(secrets, i);
    BlockOfFlatten(Walked(hash, Flatten(secrets), AllDigits(msg)), i);
    DigitOfKeptBits(msg, i);
    ThreeBits(b);
    assert AllDigits(msg)[i] == BlockDigits(msg)[i];
    t := ChainTrace(hash, secrets[i], AllDigits(msg)[i]);
  }

  lemma ThreeBits(b: seq<bool>)
    requires |b| == 3
    ensures FromBits(b) == (if b[0] then 4 else 0) + (if b[1] then 2 else 0) + (if b[2] then 1 else 0)
  {
    assert b[..2][..1] == [b[0]] && [b[0]][..0] == [];
    assert FromBits(b[..2][..1]) == if b[0] then 1 else 0;
  }

  method GeneratePublicKey(hash: Hash, seed: seq<Byte>) returns (key: seq<Byte>)
    ensures key == PublicKey(hash, seed)
  {
    ghost var elements := PrivateElements(hash, seed);
    ghost var tops := Walked(hash, Flatten(elements), Whole(SIG_BLOCKS, TOP));
    key := [];
    for i := 0 to SIG_BLOCKS
      invariant key == Flatten(tops[..i])
    {
      BlockOfFlatten(elements, i);
      var top := HashChain(hash, Derived(hash, seed, i), TOP);
      FlattenSnoc(tops, i);
      key := key + top;
    }
    assert tops[..SIG_BLOCKS] == tops;
  }

  method Sign(hash: Hash, seed: seq<Byte>, msg: seq<Byte>) returns (r: Result<seq<Byte>>)
    ensures r.Ok? <==> |msg| >= DIGEST_LENGTH
    ensures r.Ok? ==> r.value == Signature(hash, seed, msg)
  {
    if |msg| < DIGEST_LENGTH { return Err("WOTS sign: message must be 32 bytes"); }
    var digits := MessageDigits(msg);
    digits := AppendChecksum(digits);
    ghost var elements := PrivateElements(hash, seed);
    ghost var blocks := Walked(hash, Flatten(elements), digits);
    var sig: seq<Byte> := [];
    for i := 0 to SIG_BLOCKS
      invariant sig == Flatten(blocks[..i])
    {
      BlockOfFlatten(elements, i);
      var s := HashChain(hash, Derived(hash, seed, i), digits[i]);
      FlattenSnoc(blocks, i);
      sig := sig + s;
    }
    assert blocks[..SIG_BLOCKS] == blocks;
    return Ok(sig);
  }

  method Recover(hash: Hash, msg: seq<Byte>, sig: seq<Byte>) returns (r: Result<seq<Byte>>)
    ensures r.Ok? <==> |sig| >= SIG_SIZE
    ensures r.Ok? ==> r.value == Recovered(hash, msg, sig)
  {
    if |sig| < SIG_SIZE { return Err("WOTS recover: invalid signature size"); }
    var digits := MessageDigits(msg);
    digits := AppendChecksum(digits);
    ghost var tops := Walked(hash, sig, Remaining(digits, TOP));
    var recovered: seq<Byte> := [];
    for i := 0 to SIG_BLOCKS
      invariant recovered == Flatten(tops[..i])
    {
      var top := HashChain(hash, BlockAt(sig, i), TOP - digits[i]);
      FlattenSnoc(tops, i);
      recovered := recovered + top;
    }
    assert tops[..SIG_BLOCKS] == tops;
    return Ok(recovered);
  }

  method Verify(hash: Hash, key: seq<Byte>, msg: seq<Byte>, sig: seq<Byte>) returns (r: Result<bool>)
    ensures r.Ok? <==> |sig| >= SIG_SIZE
    ensures r.Ok? ==> r.value == (Recovered(hash, msg, sig) == key)
  {
    var recovered := Recover(hash, msg, sig);
    if recovered.Err? { return Err(recovered.error); }
    return Ok(recovered.value == key);
  }
}
