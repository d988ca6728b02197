/** MiniNumber to and from a 64-bit integer. */
module Longs {
  import opened Bytes
  import opened Magnitudes
  import opened BigInts
  import opened MiniNumbers
  import D = Decimals

  const ULONG: int := 0x1_0000_0000_0000_0000

  predicate IsLong(v: int) {
    -ULONG / 2 <= v < ULONG / 2
  }

  // int64_t(n) and static_cast<uint64_t>(v).
  function AsLong(n: nat): (v: int)
    ensures IsLong(v)
  {
    if n % ULONG < ULONG / 2 then n % ULONG else n % ULONG - ULONG
  }

  function AsUlong(v: int): nat {
    v % ULONG
  }

  // ---- the bytes of an integer ---------------------------------------------------------

  // The minimal two's-complement bytes.
  function SignedBytes(v: int): (s: seq<Byte>)
    ensures |s| > 0
    decreases Abs(v)
  {
    if -128 <= v < 128 then [v % 256] else SignedBytes(v / 256) + [v % 256]
  }

  lemma SignedAppend(s: seq<Byte>, b: Byte)
    requires |s| > 0
    ensures SignedVal(s + [b]) == 256 * SignedVal(s) + b
  {
    ValAppend(s, b);
  }

  lemma SignedByte(b: Byte)
    ensures SignedVal([b]) == if b < 128 then b else b - 256
  {
    ValAppend([], b);
    assert [] + [b] == [b];
    assert Pow256(1) == 256;
  }

  lemma {:induction false} SignedBytesValue(v: int)
    ensures SignedVal(SignedBytes(v)) == v && MinimalBytes(SignedBytes(v))
    decreases Abs(v)
  {
    if -128 <= v < 128 {
      SignedByte(v % 256);
    } else {
      var s := SignedBytes(v / 256);
      SignedBytesValue(v / 256);
      SignedAppend(s, v % 256);
      if |s| == 1 {
        SignedByte(s[0]);
        assert s == [s[0]];
        OneMoreByte(v, s[0]);
      }
    }
  }

  // A value that does not fit one byte is minimal in two.
  lemma OneMoreByte(v: int, high: Byte)
    requires !(-128 <= v < 128) && v / 256 == if high < 128 then high else high - 256
    ensures MinimalBytes([high, v % 256])
  {
  }

  lemma {:induction false} SignedBytesShort(v: int, n: nat)
    requires n > 0 && -128 * Pow256(n - 1) <= v < 128 * Pow256(n - 1)
    ensures |SignedBytes(v)| <= n
    decreases n
  {
    if n > 1 && !(-128 <= v < 128) {
      assert Pow256(n - 1) == 256 * Pow256(n - 2);
      SignedBytesShort(v / 256, n - 1);
    }
  }

  lemma LongIsShort(v: int)
    requires IsLong(v)
    ensures |SignedBytes(v)| <= 8
  {
    assert Pow256(3) == 0x100_0000;
    assert Pow256(7) == 0x100_0000 * 0x100_0000 * 256 by {
      assert Pow256(5) == 256 * Pow256(4) == 65536 * Pow256(3);
      assert Pow256(7) == 256 * Pow256(6) == 65536 * Pow256(5);
    }
    SignedBytesShort(v, 8);
  }

  // ---- construction --------------------------------------------------------------------

  // A number built from a long holds the minimal bytes of the long, at scale 0.
  method FromLong(v: int) returns (m: MiniNumber)
    requires IsLong(v)
    ensures m == MiniNumber(BigInt(SignedBytes(v)), 0)
  {
    var u: nat := Abs(v);
    var mag: seq<Byte> := [];
    while u > 0
      invariant Val(mag) + u * Pow256(|mag|) == Abs(v)
      invariant mag == [] ==> u == Abs(v)
    {
      var low := u % 256;
      ValPrepend(low, mag);
      ShiftOut(u, Pow256(|mag|));
      mag := [low] + mag;
      u := u / 256;
    }
    var b := FromSignMag(v < 0, mag);
    SignedBytesValue(v);
    MinimalUnique(b, BigInt(SignedBytes(v)));
    m := MiniNumber(b, 0);
  }

  lemma ShiftOut(u: nat, p: int)
    ensures u * p == u % 256 * p + u / 256 * (256 * p)
  {
    var q, r := u / 256, u % 256;
    assert u == 256 * q + r;
    assert q * (256 * p) == 256 * q * p;
    assert (256 * q + r) * p == 256 * q * p + r * p;
  }

  // ---- getAsLong -----------------------------------------------------------------------

  // The integer getAsLong computes before it looks at the range: past the decimal point, the
  // quotient's magnitude is read as two's complement.
  function Whole(m: MiniNumber): int {
    var u := Value(m.unscaled);
    if m.scale <= 0 then u * PowTen(-m.scale)
    else Requotient(u, m.scale)
  }

  // A value that does not fit becomes 0.
  function LongOf(m: MiniNumber): int {
    if IsLong(Whole(m)) then Whole(m) else 0
  }

  lemma LongOfLong(v: int)
    requires IsLong(v)
    ensures LongOf(MiniNumber(BigInt(SignedBytes(v)), 0)) == v
  {
    SignedBytesValue(v);
    assert PowTen(0) == 1;
  }

  lemma UlongOfLong(n: nat)
    requires n < ULONG
    ensures AsUlong(AsLong(n)) == n
  {
  }

  // Dropping the decimals is right exactly when the quotient's top bit is clear.
  lemma WholeTruncates(m: MiniNumber)
    requires m.scale > 0
    ensures Whole(m) == Truncate(Value(m.unscaled), m.scale) <==> TopBitClear(Value(m.unscaled), m.scale)
  {
    RequotientTruncates(Value(m.unscaled), m.scale);
  }

  // 128.0 reads as -128.
  lemma WholeGoesWrong()
    ensures var m := MiniNumber(BigInt([5, 0]), 1); Value(m.unscaled) == 1280 && Whole(m) == -128
  {
    ClampGoesWrong();
  }

  // std::stoll of the decimal notation of an integer, with the exception caught.
  function Stoll(text: string): int
    requires exists n :: text == D.SignedDecimal(n)
  {
    var n := if text[0] == '-' then -D.Number(text[1..]) else D.Number(text);
    if IsLong(n) then n else 0
  }

  lemma StollReads(n: int)
    ensures Stoll(D.SignedDecimal(n)) == if IsLong(n) then n else 0
  {
    var text := D.SignedDecimal(n);
    D.NumberOfDecimal(Abs(n));
    if n < 0 {
      assert text[1..] == D.Decimal(-n);
    }
  }

  method GetAsLong(m: MiniNumber) returns (v: int)
    requires WellFormed(m)
    ensures v == LongOf(m)
  {
    var q := m.unscaled;
    if m.scale < 0 {
      var p := Pow10(-m.scale);
      q := Mul(m.unscaled, p);
    } else if m.scale == 0 {
      assert PowTen(0) == 1;
    } else {
      q := Clamp(m.unscaled, m.scale);
    }
    var text := D.ToDecimalString(q);
    StollReads(Value(q));
    return Stoll(text);
  }
}
