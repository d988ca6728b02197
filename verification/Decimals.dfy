/** BigInt to decimal text and back: repeated division by ten of a byte string, and
    multiply-by-ten-and-add, each proved against the decimal notation of an integer. */
module Decimals {
  import opened Bytes
  import opened Magnitudes
  import opened BigInts

  predicate IsDigit(c: char) {
    '0' <= c <= '9'
  }

  function DigitChar(d: int): (c: char)
    requires 0 <= d < 10
    ensures IsDigit(c)
  {
    '0' + d as char
  }

  function DigitVal(c: char): (d: int)
    requires IsDigit(c)
    ensures 0 <= d < 10
  {
    c as int - '0' as int
  }

  predicate AllDigits(s: string) {
    forall i :: 0 <= i < |s| ==> IsDigit(s[i])
  }

  function Number(s: string): (n: int)
    requires AllDigits(s)
    ensures n >= 0
  {
    if s == "" then 0 else 10 * Number(s[..|s| - 1]) + DigitVal(s[|s| - 1])
  }

  // Decimal notation without leading zeros.
  function Decimal(n: nat): (s: string)
    ensures |s| > 0 && AllDigits(s)
    ensures n > 0 ==> s[0] != '0'
  {
    if n < 10 then [DigitChar(n)] else Decimal(n / 10) + [DigitChar(n % 10)]
  }

  function SignedDecimal(n: int): string {
    if n < 0 then "-" + Decimal(-n) else Decimal(n)
  }

  lemma {:induction false} NumberOfDecimal(n: nat)
    ensures Number(Decimal(n)) == n
  {
    if n < 10 {
      assert Decimal(n)[..0] == "";
    } else {
      NumberOfDecimal(n / 10);
      assert Decimal(n)[..|Decimal(n)| - 1] == Decimal(n / 10);
    }
  }

  // The digits of a number in decimal notation are its digits without leading zeros.
  lemma {:induction false} DecimalOfNumber(s: string)
    requires AllDigits(s) && s != "" && (|s| > 1 ==> s[0] != '0')
    ensures Decimal(Number(s)) == s
  {
    var t, c := s[..|s| - 1], s[|s| - 1];
    assert s == t + [c];
    if t != "" {
      DecimalOfNumber(t);
      NumberPositive(t);
      assert Number(s) / 10 == Number(t) && Number(s) % 10 == DigitVal(c);
    } else {
      assert Number(t) == 0;
    }
  }

  lemma {:induction false} NumberPositive(s: string)
    requires AllDigits(s) && s != "" && s[0] != '0'
    ensures Number(s) > 0
  {
    if |s| > 1 {
      NumberPositive(s[..|s| - 1]);
    } else {
      assert s[..0] == "";
    }
  }

  // One pass of short division by ten; the quotient keeps no leading zero.
  method DivideByTen(rem: seq<Byte>) returns (q: seq<Byte>, r: int)
    ensures 0 <= r < 10 && Val(rem) == 10 * Val(q) + r
    ensures q == [] || (Canonical(q) && q[0] != 0)
    ensures |q| <= |rem|
  {
    q, r := [], 0;
    for k := 0 to |rem|
      invariant 0 <= r < 10 && Val(rem[..k]) == 10 * Val(q) + r
      invariant |q| <= k && (q == [] || q[0] != 0)
    {
      assert rem[..k + 1] == rem[..k] + [rem[k]];
      ValAppend(rem[..k], rem[k]);
      var val := r * 256 + rem[k];
      if q != [] || val / 10 > 0 {
        ValAppend(q, val / 10);
        q := q + [val / 10];
      }
      r := val % 10;
    }
    assert rem[..|rem|] == rem;
  }

  function Reversed(s: string): (r: string)
    ensures |r| == |s|
  {
    if s == "" then "" else Reversed(s[1..]) + [s[0]]
  }

  lemma {:induction false} ReversedAppend(s: string, c: char)
    ensures Reversed(s + [c]) == [c] + Reversed(s)
  {
    if s != "" {
      assert (s + [c])[1..] == s[1..] + [c];
      ReversedAppend(s[1..], c);
    }
  }

  lemma NonZeroVal(q: seq<Byte>)
    requires q != [] && q[0] != 0
    ensures Val(q) > 0
  {
    LeadingDigit(q);
    MulMono(1, q[0], Pow256(|q| - 1));
  }

  method ToDecimalString(a: BigInt) returns (s: string)
    requires |a.bytes| > 0
    ensures s == SignedDecimal(Value(a))
  {
    var zero := IsZero(a);
    if zero {
      return "0";
    }
    var neg := IsNegative(a);
    var mag := Magnitude(a);
    var result, rem := "", mag;
    ghost var left: int := Val(mag);
    CanonicalZero(mag);
    while true
      invariant left > 0 && Val(rem) == left
      invariant Decimal(left) + Reversed(result) == Decimal(Val(mag))
      decreases left
    {
      var q, r := DivideByTen(rem);
      ReversedAppend(result, DigitChar(r));
      result := result + [DigitChar(r)];
      if q == [] {
        break;
      }
      NonZeroVal(q);
      assert left / 10 == Val(q) && left % 10 == r;
      assert Decimal(left) == Decimal(Val(q)) + [DigitChar(r)];
      rem := q;
      left := left / 10;
    }
    if neg {
      ReversedAppend(result, '-');
      result := result + "-";
    }
    s := Reversed(result);
  }

  predicate IsSpace(c: char) {
    c == ' ' || c == '\t' || c == '\n' || c == '\r' || c == '\U{000B}' || c == '\U{000C}'
  }

  function SkipSpaces(s: string): string {
    if s != "" && IsSpace(s[0]) then SkipSpaces(s[1..]) else s
  }

  // What the decimal constructor accepts: spaces, an optional sign, digits; nothing means zero.
  function Parsed(s: string): Option<int> {
    var t := SkipSpaces(s);
    var neg := t != "" && t[0] == '-';
    var digits := if t != "" && (t[0] == '-' || t[0] == '+') then t[1..] else t;
    if AllDigits(digits) then Some(if neg then -Number(digits) else Number(digits)) else None
  }

  lemma ScaleColumn(d: Byte, carry: int, w: int)
    ensures ((d * 10 + carry) % 256) * w + ((d * 10 + carry) / 256) * (256 * w) == 10 * (d * w) + carry * w
  {
    var v := d * 10 + carry;
    assert (v / 256) * (256 * w) == (256 * (v / 256)) * w;
    assert (v % 256) * w + (256 * (v / 256)) * w == v * w;
  }

  // Columns from k on hold ten times the old digits plus the new one.
  ghost predicate ScaledFrom(before: seq<Byte>, mag: seq<Byte>, digit: int, k: nat, carry: int) {
    && |mag| == |before| && k <= |mag|
    && mag[..k] == before[..k]
    && Val(mag[k..]) + carry * Pow256(|mag| - k) == 10 * Val(before[k..]) + digit
  }

  lemma ScaledColumn(before: seq<Byte>, mag: seq<Byte>, digit: int, k: nat, carry: int)
    requires k < |mag| && 0 <= carry < 10 && ScaledFrom(before, mag, digit, k + 1, carry)
    ensures var v := mag[k] as int * 10 + carry;
            0 <= v / 256 < 10 && ScaledFrom(before, mag[k := v % 256], digit, k, v / 256)
  {
    var v := mag[k] as int * 10 + carry;
    var t := mag[k := v % 256];
    assert mag[k] == mag[..k + 1][k] == before[k];
    assert t[k + 1..] == mag[k + 1..];
    assert t[..k] == mag[..k + 1][..k] == before[..k + 1][..k];
    ValFrom(t, k);
    ValFrom(before, k);
    ScaleColumn(mag[k], carry, Pow256(|mag| - k - 1));
    assert Pow256(|mag| - k) == 256 * Pow256(|mag| - k - 1);
  }

  method TimesTenPlus(mag0: seq<Byte>, digit: int) returns (mag: seq<Byte>)
    requires 0 <= digit < 10
    ensures Val(mag) == 10 * Val(mag0) + digit
    ensures |mag| >= |mag0|
  {
    mag := mag0;
    var carry, i := digit, |mag| - 1;
    assert mag0[|mag0|..] == [];
    while i >= 0
      invariant -1 <= i < |mag| && 0 <= carry < 10
      invariant ScaledFrom(mag0, mag, digit, i + 1, carry)
    {
      var v := mag[i] as int * 10 + carry;
      ScaledColumn(mag0, mag, digit, i, carry);
      mag := mag[i := v % 256];
      carry := v / 256;
      i := i - 1;
    }
    assert mag[0..] == mag && mag0[0..] == mag0;
    while carry > 0
      invariant 0 <= carry < 10 && |mag| >= |mag0|
      invariant Val(mag) + carry * Pow256(|mag|) == 10 * Val(mag0) + digit
      decreases carry
    {
      var top: Byte := carry % 256;
      ValPrepend(top, mag);
      mag := [top] + mag;
      carry := carry / 256;
    }
  }

  method FromDecimal(decimal: string) returns (r: Result<BigInt>)
    ensures r.Ok? <==> Parsed(decimal).Some?
    ensures r.Ok? ==> Minimal(r.value) && Value(r.value) == Parsed(decimal).value
  {
    var s := decimal;
    while s != "" && IsSpace(s[0])
      invariant SkipSpaces(s) == SkipSpaces(decimal)
      decreases |s|
    {
      s := s[1..];
    }
    var neg := false;
    if s != "" && s[0] == '-' {
      neg := true;
      s := s[1..];
    } else if s != "" && s[0] == '+' {
      s := s[1..];
    }
    if s == "" {
      SingleDigit(0);
      return Ok(BigInt([0]));
    }
    var mag: seq<Byte> := [0];
    SingleDigit(0);
    for k := 0 to |s|
      invariant AllDigits(s[..k]) && |mag| > 0
      invariant Val(mag) == Number(s[..k])
    {
      if !IsDigit(s[k]) {
        return Err("invalid decimal");
      }
      assert s[..k + 1] == s[..k] + [s[k]];
      assert s[..k + 1][..k] == s[..k];
      mag := TimesTenPlus(mag, DigitVal(s[k]));
    }
    assert s[..|s|] == s;
    mag := StripLeadingZeros(mag);
    CanonicalZero(mag);
    var isZ := |mag| == 1 && mag[0] == 0;
    var a := FromSignMag(neg && !isZ, mag);
    r := Ok(a);
  }

  // Text made from a number is read back as that number ...
  lemma ParsedOfDecimal(n: int)
    ensures Parsed(SignedDecimal(n)) == Some(n)
  {
    NumberOfDecimal(Abs(n));
    var s := SignedDecimal(n);
    assert SkipSpaces(s) == s;
    if n < 0 {
      assert s[1..] == Decimal(-n);
    }
  }

  // ... so the decimal constructor undoes toDecimalString, byte for byte.
  method DecimalRoundTrip(a: BigInt) returns (s: string, b: BigInt)
    requires Minimal(a)
    ensures s == SignedDecimal(Value(a)) && b == a
  {
    s := ToDecimalString(a);
    ParsedOfDecimal(Value(a));
    var r := FromDecimal(s);
    MinimalUnique(r.value, a);
    b := r.value;
  }
}
