/** Bytes, digests, the hash function every other module is parametric in, and 32-bit words. */
module Bytes {
  type Byte = x: int | 0 <= x < 256

  const DIGEST_LENGTH := 32

  type Digest = s: seq<Byte> | |s| == DIGEST_LENGTH witness seq(32, _ => 0)

  // SHA3-256 is kept abstract: any total function from bytes to 32-byte digests.
  type Hash = seq<Byte> -> Digest

  // Two different byte strings with one hash.
  predicate Collides(hash: Hash, x: seq<Byte>, y: seq<Byte>) {
    x != y && hash(x) == hash(y)
  }

  datatype Option<+T> = None | Some(value: T)

  datatype Result<+T> = Ok(value: T) | Err(error: string)

  datatype CoinId = CoinId(bytes: seq<Byte>)

  // ---- 32-bit words --------------------------------------------------------------------

  const WORD: int := 0x1_0000_0000

  // Four bytes, most significant first; the source's uint32_t wraps.
  function WordBytes(n: nat): (b: seq<Byte>)
    ensures |b| == 4
  {
    [n / 256 / 256 / 256 % 256, n / 256 / 256 % 256, n / 256 % 256, n % 256]
  }

  function ReadWord(b: seq<Byte>): (n: nat)
    requires |b| >= 4
    ensures n < WORD
  {
    b[0] as int * 0x100_0000 + b[1] as int * 0x1_0000 + b[2] as int * 0x100 + b[3] as int
  }

  lemma ReadWordBytes(n: nat)
    requires n < WORD
    ensures ReadWord(WordBytes(n)) == n
  {
  }

  lemma ReadHeader(n: nat, rest: seq<Byte>)
    requires n < WORD
    ensures ReadWord(WordBytes(n) + rest) == n
  {
    ReadWordBytes(n);
    var b := WordBytes(n);
    assert (b + rest)[0] == b[0] && (b + rest)[1] == b[1] && (b + rest)[2] == b[2] && (b + rest)[3] == b[3];
  }
}
