/** BigInt: two's-complement big-endian bytes, its signed value, and the operations that
    compose the magnitude loops. Every result is in minimal form, so equal bytes are equal numbers. */
module BigInts {
  import opened Bytes
  import opened Magnitudes

  datatype BigInt = BigInt(bytes: seq<Byte>)

  function SignedVal(s: seq<Byte>): int {
    if s != [] && s[0] >= 128 then Val(s) - Pow256(|s|) else Val(s)
  }

  function Value(a: BigInt): int {
    SignedVal(a.bytes)
  }

  // A sign byte that the next byte already implies is redundant.
  predicate Redundant(s: seq<Byte>) {
    |s| > 1 && ((s[0] == 0 && s[1] < 128) || (s[0] == 255 && s[1] >= 128))
  }

  predicate MinimalBytes(s: seq<Byte>) {
    |s| > 0 && !Redundant(s)
  }

  predicate Minimal(a: BigInt) {
    MinimalBytes(a.bytes)
  }

  // ---- two's complement ----------------------------------------------------------------

  lemma HalfRange(s: seq<Byte>)
    requires |s| > 0
    ensures -128 * Pow256(|s| - 1) <= SignedVal(s) < 128 * Pow256(|s| - 1)
  {
    var p := Pow256(|s| - 1);
    LeadingDigit(s);
    if s[0] >= 128 {
      MulMono(128, s[0], p);
      MulMono(s[0] as int + 1, 256, p);
    } else {
      MulMono(s[0] + 1, 128, p);
    }
  }

  // A minimal string of more than one byte has a value no shorter string can have.
  lemma MinimalRange(s: seq<Byte>)
    requires MinimalBytes(s) && |s| > 1
    ensures SignedVal(s) < -128 * Pow256(|s| - 2) || 128 * Pow256(|s| - 2) <= SignedVal(s)
  {
    var p, t := Pow256(|s| - 2), s[1..];
    LeadingDigit(t);
    ValPrepend(s[0], t);
    assert s == [s[0]] + t;
    assert Pow256(|t|) == 256 * p && Pow256(|s|) == 65536 * p;
    TwoLeadingDigits(s[0], t[0], p, Val(t));
  }

  lemma TwoLeadingDigits(x: Byte, y: Byte, p: int, tail: int)
    requires p > 0 && y * p <= tail < (y as int + 1) * p
    requires !(x == 0 && y < 128) && !(x == 255 && y >= 128)
    ensures var v := x * (256 * p) + tail - if x >= 128 then 65536 * p else 0; v < -128 * p || 128 * p <= v
  {
    if x == 0 {
      MulMono(128, y, p);
    } else if x == 255 {
      MulMono(y as int + 1, 128, p);
    } else if x >= 128 {
      MulMono(y as int + 1, 256, p);
      MulMono(x, 254, 256 * p);
    } else {
      MulMono(0, y, p);
      MulMono(1, x, 256 * p);
    }
  }

  lemma LongerMinimalDiffers(a: seq<Byte>, b: seq<Byte>)
    requires MinimalBytes(a) && MinimalBytes(b) && |a| < |b|
    ensures SignedVal(a) != SignedVal(b)
  {
    HalfRange(a);
    MinimalRange(b);
    PowMono(|a| - 1, |b| - 2);
  }

  // Byte equality is value equality on minimal forms.
  lemma MinimalUnique(a: BigInt, b: BigInt)
    requires Minimal(a) && Minimal(b)
    ensures a == b <==> Value(a) == Value(b)
  {
    if Value(a) == Value(b) {
      if |a.bytes| < |b.bytes| {
        LongerMinimalDiffers(a.bytes, b.bytes);
      } else if |b.bytes| < |a.bytes| {
        LongerMinimalDiffers(b.bytes, a.bytes);
      } else {
        ValBound(a.bytes);
        ValBound(b.bytes);
        SameLengthUnique(a.bytes, b.bytes);
      }
    }
  }

  lemma DropSignByte(s: seq<Byte>)
    requires Redundant(s)
    ensures SignedVal(s[1..]) == SignedVal(s)
  {
    var t := s[1..];
    assert s == [s[0]] + t;
    ValPrepend(s[0], t);
    assert Pow256(|s|) == 256 * Pow256(|t|);
  }

  method Normalise(bytes: seq<Byte>) returns (r: seq<Byte>)
    requires |bytes| > 0
    ensures MinimalBytes(r) && SignedVal(r) == SignedVal(bytes)
  {
    r := bytes;
    while |r| > 1
      invariant |r| > 0 && SignedVal(r) == SignedVal(bytes)
      decreases |r|
    {
      var topZero, topFF, nextNeg := r[0] == 0, r[0] == 255, r[1] >= 128;
      if topZero && !nextNeg {
        DropSignByte(r);
        r := r[1..];
      } else if topFF && nextNeg {
        DropSignByte(r);
        r := r[1..];
      } else {
        break;
      }
    }
  }

  function Flip(s: seq<Byte>): (r: seq<Byte>)
    ensures |r| == |s|
  {
    seq(|s|, i requires 0 <= i < |s| => 255 - s[i])
  }

  lemma {:induction false} FlipVal(s: seq<Byte>)
    ensures Val(Flip(s)) == Pow256(|s|) - 1 - Val(s)
  {
    if s != [] {
      var t := s[..|s| - 1];
      assert Flip(s)[..|t|] == Flip(t);
      FlipVal(t);
    }
  }

  // Complement and add one: the 256^n complement, carry included.
  method Complement(s: seq<Byte>) returns (r: seq<Byte>, carry: Byte)
    ensures |r| == |s| && carry <= 1
    ensures Val(r) + carry * Pow256(|s|) == Pow256(|s|) - Val(s)
  {
    r := Flip(s);
    FlipVal(s);
    carry := 1;
    var i := |r| - 1;
    while i >= 0 && carry > 0
      invariant -1 <= i < |r| == |s| && carry <= 1
      invariant Val(r) + carry * Pow256(|r| - 1 - i) == Pow256(|s|) - Val(s)
    {
      var v := r[i] as int + carry;
      ghost var w := Pow256(|r| - 1 - i);
      SetDigit(r, i, v % 256);
      CarryStep(v, w);
      assert (v % 256 - r[i]) * w == v % 256 * w - r[i] * w;
      assert v * w == r[i] * w + carry * w;
      r := r[i := v % 256];
      carry := v / 256;
      i := i - 1;
    }
  }

  method IsNegative(a: BigInt) returns (neg: bool)
    requires |a.bytes| > 0
    ensures neg <==> Value(a) < 0
  {
    ValBound(a.bytes);
    neg := a.bytes[0] >= 128;
  }

  function Abs(x: int): nat {
    if x < 0 then -x else x
  }

  method Magnitude(a: BigInt) returns (mag: seq<Byte>)
    requires |a.bytes| > 0
    ensures Canonical(mag) && Val(mag) == Abs(Value(a))
  {
    ValBound(a.bytes);
    var neg := IsNegative(a);
    if neg {
      var r, carry := Complement(a.bytes);
      LeadingDigit(a.bytes);
      MulMono(1, a.bytes[0], Pow256(|a.bytes| - 1));
      mag := StripLeadingZeros(r);
    } else {
      mag := StripLeadingZeros(a.bytes);
    }
  }

  // Exact for every positive magnitude, and for zero when it is written as [] or [0].
  method FromSignMag(negative: bool, mag: seq<Byte>) returns (a: BigInt)
    requires negative && |mag| > 1 ==> Val(mag) > 0
    ensures Minimal(a) && Value(a) == if negative then -Val(mag) else Val(mag)
  {
    if mag == [] || (|mag| == 1 && mag[0] == 0) {
      return BigInt([0]);
    }
    var bytes;
    if !negative {
      PrependSign(0, mag);
      bytes := if mag[0] >= 128 then [0] + mag else mag;
    } else {
      NonZeroMag(mag);
      var r, carry := Complement(mag);
      NegativeBytes(mag, r, carry);
      assert carry == 0;  // so the byte 0x01 is never inserted in front
      bytes := if r[0] < 128 then [255] + r else r;
    }
    bytes := Normalise(bytes);
    a := BigInt(bytes);
  }

  lemma PrependSign(sign: Byte, s: seq<Byte>)
    requires sign == 0 || sign == 255
    ensures SignedVal([sign] + s) == if sign == 0 then Val(s) else Val(s) - Pow256(|s|)
  {
    var t := [sign] + s;
    assert t[0] == sign && |t| == |s| + 1;
    if sign == 0 {
      ValPrepend(0, s);
    } else {
      ValPrepend(255, s);
      assert Pow256(|t|) == 256 * Pow256(|s|);
    }
  }

  lemma NonZeroMag(mag: seq<Byte>)
    requires mag != [] && mag != [0] && (|mag| > 1 ==> Val(mag) > 0)
    ensures Val(mag) > 0
  {
    if |mag| == 1 {
      assert mag == [] + [mag[0]];
      ValAppend([], mag[0]);
    }
  }

  // The complement of a non-zero magnitude does not overflow and is its negation modulo 256^n.
  lemma NegativeBytes(mag: seq<Byte>, r: seq<Byte>, carry: Byte)
    requires |r| == |mag| > 0 && Val(mag) > 0
    requires Val(r) + carry * Pow256(|mag|) == Pow256(|mag|) - Val(mag)
    ensures carry == 0
    ensures SignedVal(if r[0] < 128 then [255] + r else r) == -Val(mag)
  {
    NoCarryOut(Val(r), carry, Pow256(|mag|), Val(mag));
    ValBound(mag);
    PrependSign(255, r);
  }

  lemma NoCarryOut(r: int, carry: nat, p: int, m: int)
    requires p > 0 && m > 0 && r >= 0 && r + carry * p == p - m
    ensures carry == 0 && r == p - m
  {
    if carry > 0 {
      MulMono(1, carry, p);
    }
  }

  method IsZero(a: BigInt) returns (zero: bool)
    requires |a.bytes| > 0
    ensures zero <==> Value(a) == 0
  {
    for i := 0 to |a.bytes|
      invariant forall k :: 0 <= k < i ==> a.bytes[k] == 0
    {
      if a.bytes[i] != 0 {
        NonZeroByte(a.bytes, i);
        ValBound(a.bytes);
        return false;
      }
    }
    ZerosVal(a.bytes);
    zero := true;
  }

  lemma NonZeroByte(s: seq<Byte>, i: nat)
    requires i < |s| && s[i] != 0
    ensures Val(s) > 0
  {
    ValConcat(s[..i], s[i..]);
    assert s == s[..i] + s[i..];
    LeadingDigit(s[i..]);
    MulMono(1, s[i], Pow256(|s| - i - 1));
  }

  // ---- order and arithmetic ------------------------------------------------------------

  method CompareTo(a: BigInt, b: BigInt) returns (c: int)
    requires |a.bytes| > 0 && |b.bytes| > 0
    ensures c < 0 <==> Value(a) < Value(b)
    ensures c == 0 <==> Value(a) == Value(b)
  {
    var na := IsNegative(a);
    var no := IsNegative(b);
    if na != no {
      return if na then -1 else 1;
    }
    var ma := Magnitude(a);
    var mo := Magnitude(b);
    c := CompareAbsMag(ma, mo);
    c := if na then -c else c;
  }

  method Add(a: BigInt, b: BigInt) returns (r: BigInt)
    requires |a.bytes| > 0 && |b.bytes| > 0
    ensures Minimal(r) && Value(r) == Value(a) + Value(b)
  {
    var na := IsNegative(a);
    var no := IsNegative(b);
    var ma := Magnitude(a);
    var mo := Magnitude(b);
    if na == no {
      var sum := AddMag(ma, mo);
      r := FromSignMag(na, sum);
    } else {
      var c := CompareAbsMag(ma, mo);
      if c == 0 {
        return BigInt([0]);
      }
      if c > 0 {
        NoLonger(mo, ma);
        var d := SubMag(ma, mo);
        r := FromSignMag(na, d);
      } else {
        NoLonger(ma, mo);
        var d := SubMag(mo, ma);
        r := FromSignMag(no, d);
      }
    }
  }

  lemma NoLonger(a: seq<Byte>, b: seq<Byte>)
    requires Canonical(a) && Canonical(b) && Val(a) <= Val(b)
    ensures |a| <= |b|
  {
    if |b| < |a| {
      ShorterIsLess(b, a);
    }
  }

  method Negate(a: BigInt) returns (r: BigInt)
    requires |a.bytes| > 0
    ensures |r.bytes| > 0 && Value(r) == -Value(a)
    ensures Minimal(a) || Value(a) != 0 ==> Minimal(r)
  {
    var zero := IsZero(a);
    if zero {
      return a;
    }
    var neg := IsNegative(a);
    var mag := Magnitude(a);
    r := FromSignMag(!neg, mag);
  }

  method Sub(a: BigInt, b: BigInt) returns (r: BigInt)
    requires |a.bytes| > 0 && |b.bytes| > 0
    ensures Minimal(r) && Value(r) == Value(a) - Value(b)
  {
    var m := Negate(b);
    r := Add(a, m);
  }

  method Mul(a: BigInt, b: BigInt) returns (r: BigInt)
    requires |a.bytes| > 0 && |b.bytes| > 0
    ensures Minimal(r) && Value(r) == Value(a) * Value(b)
  {
    var ma := Magnitude(a);
    var mo := Magnitude(b);
    var rm := MulMag(ma, mo);
    var na := IsNegative(a);
    var no := IsNegative(b);
    CanonicalZero(rm);
    SignOfProduct(Value(a), Value(b));
    r := FromSignMag(na != no && !(|rm| == 1 && rm[0] == 0), rm);
  }

  lemma SignOfProduct(x: int, y: int)
    ensures x * y == if (x < 0) != (y < 0) then -(Abs(x) * Abs(y)) else Abs(x) * Abs(y)
  {
  }

  // ---- division ------------------------------------------------------------------------

  // The binary search: the largest digit whose multiple of b fits in rem.
  method QuotientDigit(rem: seq<Byte>, b: seq<Byte>) returns (d: Byte)
    requires Canonical(rem) && Canonical(b)
    ensures Val(b) * d <= Val(rem)
    ensures d < 255 ==> Val(rem) < Val(b) * (d as int + 1)
  {
    var lo, hi := 0, 255;
    while lo < hi
      invariant 0 <= lo <= hi <= 255
      invariant Val(b) * lo <= Val(rem)
      invariant hi < 255 ==> Val(rem) < Val(b) * (hi + 1)
    {
      var mid: Byte := (lo + hi + 1) / 2;
      var t := MulMag(b, [mid]);
      SingleDigit(mid);
      var c := CompareAbsMag(t, rem);
      if c <= 0 {
        lo := mid;
      } else {
        hi := mid - 1;
      }
    }
    d := lo;
  }

  lemma SingleDigit(d: Byte)
    ensures Val([d]) == d
  {
    ValAppend([], d);
    assert [] + [d] == [d];
  }

  // Long division, most significant digit first. Dividing by zero is not refused:
  // every quotient digit is then 255 and the remainder is the dividend.
  method DivmodMag(a: seq<Byte>, b: seq<Byte>) returns (q: seq<Byte>, rem: seq<Byte>)
    requires Canonical(a) && Canonical(b)
    ensures Canonical(q) && Canonical(rem)
    ensures Val(a) == Val(q) * Val(b) + Val(rem)
    ensures Val(b) > 0 ==> Val(rem) < Val(b)
    ensures Val(b) == 0 ==> rem == a && Val(q) == Pow256(|a|) - 1
  {
    var c := CompareAbsMag(a, b);
    if c < 0 {
      SingleDigit(0);
      return [0], a;
    }
    q, rem := [], [];
    for k := 0 to |a|
      invariant DividedSoFar(a[..k], b, q, rem)
    {
      assert a[..k + 1] == a[..k] + [a[k]];
      ghost var prevRem := rem;
      ValAppend(rem, a[k]);
      rem := StripLeadingZeros(rem + [a[k]]);
      var d := QuotientDigit(rem, b);
      if d > 0 {
        var t := MulMag(b, [d]);
        SingleDigit(d);
        NoLonger(t, rem);
        rem := SubMag(rem, t);
      }
      DivisionStep(a[..k], a[k], b, q, prevRem, d, rem);
      q := q + [d];
    }
    assert a[..|a|] == a;
    q := StripLeadingZeros(q);
    rem := StripLeadingZeros(rem);
    if Val(b) == 0 {
      assert Val(q) * Val(b) == 0;
      CanonicalUnique(rem, a);
    }
  }

  // The digits consumed so far are divided; the remainder is ready for the next digit.
  ghost predicate DividedSoFar(prefix: seq<Byte>, b: seq<Byte>, q: seq<Byte>, rem: seq<Byte>) {
    && |q| == |prefix|
    && Val(prefix) == Val(q) * Val(b) + Val(rem)
    && (prefix != [] ==> Canonical(rem))
    && (if Val(b) > 0 then Val(rem) < Val(b) else Val(q) == Pow256(|prefix|) - 1)
  }

  // The digit found leaves less than one divisor, because the previous remainder did.
  lemma DivisionStep(prefix: seq<Byte>, digit: Byte, b: seq<Byte>, q: seq<Byte>, prev: seq<Byte>, d: Byte, rem: seq<Byte>)
    requires DividedSoFar(prefix, b, q, prev) && Canonical(rem)
    requires Val(rem) == 256 * Val(prev) + digit - Val(b) * d
    requires d < 255 ==> 256 * Val(prev) + digit < Val(b) * (d as int + 1)
    ensures DividedSoFar(prefix + [digit], b, q + [d], rem)
  {
    ValAppend(prefix, digit);
    ValAppend(q, d);
    DivisionArithmetic(Val(q), Val(q + [d]), Val(b), Val(prev), digit, d, Val(rem));
    if Val(b) == 0 {
      assert Pow256(|prefix| + 1) == 256 * Pow256(|prefix|);
    }
  }

  lemma DivisionArithmetic(q: int, next: int, b: int, prev: int, digit: int, d: int, rem: int)
    requires b >= 0 && 0 <= prev && 0 <= digit < 256 && 0 <= d <= 255
    requires next == 256 * q + d && rem == 256 * prev + digit - b * d
    requires b > 0 ==> prev < b
    requires d < 255 ==> 256 * prev + digit < b * (d + 1)
    ensures 256 * (q * b + prev) + digit == next * b + rem
    ensures if b > 0 then rem < b else d == 255
  {
    assert next * b == 256 * (q * b) + b * d;
    assert b * (d + 1) == b * d + b;
  }

  // Quotient truncated toward zero, remainder with the sign of the dividend.
  ghost predicate TruncatedDivision(x: int, y: int, q: int, r: int) {
    && x == q * y + r
    && Abs(r) < Abs(y)
    && (r != 0 ==> (r < 0 <==> x < 0))
  }

  lemma TruncatedFromMagnitudes(x: int, y: int, q: int, r: int)
    requires q >= 0 && r >= 0 && Abs(x) == q * Abs(y) + r && r < Abs(y)
    ensures TruncatedDivision(x, y, if (x < 0) != (y < 0) then -q else q, if x < 0 then -r else r)
  {
    assert (-q) * y == q * (-y) == -(q * y);
  }

  // With a zero divisor: as many bytes 255 as the dividend has, under its sign.
  function DividedByZero(x: int): int {
    var q := Pow256(|MagnitudeBytes(Abs(x))|) - 1;
    if x < 0 then -q else q
  }

  method Div(a: BigInt, b: BigInt) returns (r: BigInt)
    requires |a.bytes| > 0 && |b.bytes| > 0
    ensures Minimal(r)
    ensures Value(b) != 0 ==> TruncatedDivision(Value(a), Value(b), Value(r), Value(a) - Value(r) * Value(b))
    ensures Value(b) == 0 ==> Value(r) == DividedByZero(Value(a))
  {
    var ma := Magnitude(a);
    var mo := Magnitude(b);
    var q, rem := DivmodMag(ma, mo);
    MagnitudeBytesValue(Val(ma));
    CanonicalUnique(ma, MagnitudeBytes(Val(ma)));
    var na := IsNegative(a);
    var no := IsNegative(b);
    CanonicalZero(q);
    r := FromSignMag(na != no && !(|q| == 1 && q[0] == 0), q);
    if Value(b) != 0 {
      TruncatedFromMagnitudes(Value(a), Value(b), Val(q), Val(rem));
    }
  }

  method Mod(a: BigInt, b: BigInt) returns (r: BigInt)
    requires |a.bytes| > 0 && |b.bytes| > 0
    ensures Minimal(r)
    ensures Value(b) != 0 ==> exists q :: TruncatedDivision(Value(a), Value(b), q, Value(r))
    ensures Value(b) == 0 ==> Value(r) == Value(a)
  {
    var ma := Magnitude(a);
    var mo := Magnitude(b);
    var q, rem := DivmodMag(ma, mo);
    var na := IsNegative(a);
    CanonicalZero(rem);
    r := FromSignMag(na && !(|rem| == 1 && rem[0] == 0), rem);
    if Value(b) != 0 {
      TruncatedFromMagnitudes(Value(a), Value(b), Val(q), Val(rem));
    }
  }
}
