/** MiniNumber: a decimal `unscaled * 10^-scale` kept to 64 significant digits by truncation. */
module MiniNumbers {
  import opened Bytes
  import opened Magnitudes
  import opened BigInts
  import opened Decimals

  const MAX_DIGITS := 64
  const MAX_DECIMAL_PLACES := 44

  datatype MiniNumber = MiniNumber(unscaled: BigInt, scale: int)

  const ZERO := MiniNumber(BigInt([0]), 0)

  function PowTen(n: nat): (p: int)
    ensures p > 0
  {
    if n == 0 then 1 else 10 * PowTen(n - 1)
  }

  // The number u * 10^-s.
  ghost function Real(u: int, s: int): real
    decreases if s < 0 then -s else s
  {
    if s == 0 then u as real
    else if s > 0 then Real(u, s - 1) / 10.0
    else 10.0 * Real(u, s + 1)
  }

  ghost function Exact(m: MiniNumber): real {
    Real(Value(m.unscaled), m.scale)
  }

  function NumDigits(n: nat): nat {
    |Decimal(n)|
  }

  function Truncate(v: int, e: nat): int {
    if v < 0 then -(-v / PowTen(e)) else v / PowTen(e)
  }

  // ---- powers of ten and scales --------------------------------------------------------

  lemma {:induction false} PowTenSum(m: nat, n: nat)
    ensures PowTen(m + n) == PowTen(m) * PowTen(n)
  {
    if n > 0 {
      PowTenSum(m, n - 1);
      assert PowTen(m) * PowTen(n) == 10 * (PowTen(m) * PowTen(n - 1));
    }
  }

  // One more decimal place is a tenth of the number, on either side of the point.
  lemma RealTenth(u: int, s: int)
    ensures 10.0 * Real(u, s + 1) == Real(u, s)
  {
  }

  // Ten times the digits at one more decimal place is the same number.
  lemma RealStep(u: int, s: int)
    ensures Real(10 * u, s + 1) == Real(u, s)
  {
    RealTimesTen(u, s);
    RealTenth(10 * u, s);
  }

  lemma {:induction false} RealTimesTen(u: int, s: int)
    ensures Real(10 * u, s) == 10.0 * Real(u, s)
    decreases if s < 0 then -s else s
  {
    if s != 0 {
      RealTimesTen(u, if s > 0 then s - 1 else s + 1);
    }
  }

  lemma {:induction false} RealRescale(u: int, s: int, k: nat)
    ensures Real(u * PowTen(k), s + k) == Real(u, s)
  {
    if k > 0 {
      RealRescale(u, s, k - 1);
      RealStep(u * PowTen(k - 1), s + k - 1);
      assert u * PowTen(k) == 10 * (u * PowTen(k - 1));
    }
  }

  lemma {:induction false} RealLinear(u: int, v: int, s: int)
    ensures Real(u + v, s) == Real(u, s) + Real(v, s)
    ensures Real(-u, s) == -Real(u, s)
    ensures Real(u, s) < Real(v, s) <==> u < v
    ensures Real(u, s) == Real(v, s) <==> u == v
    ensures Real(0, s) == 0.0
    decreases if s < 0 then -s else s
  {
    if s != 0 {
      RealLinear(u, v, if s > 0 then s - 1 else s + 1);
    }
  }

  lemma CastProduct(u: int, v: int)
    ensures (u * v) as real == u as real * v as real
  {
  }

  // Multiplying the digits multiplies the number.
  lemma {:induction false} RealTimes(u: int, v: int, w: int, s: int, x: real, y: real, z: real)
    requires w == u * v && x == Real(u, s) && y == v as real && z == Real(w, s)
    ensures z == x * y
    decreases if s < 0 then -s else s
  {
    if s > 0 {
      RealTimes(u, v, w, s - 1, 10.0 * x, y, 10.0 * z);
    } else if s < 0 {
      RealTimes(u, v, w, s + 1, x / 10.0, y, z / 10.0);
    } else {
      CastProduct(u, v);
    }
  }

  // A product at scales s and 0 gives the product at scales s and t, up or down.
  lemma {:induction false} RaiseTogether(w: int, s: int, v: int, t: nat, x: real, y: real, z: real)
    requires Real(w, s) == x * Real(v, 0) && y == Real(v, t) && z == Real(w, s + t)
    ensures z == x * y
  {
    if t > 0 {
      RaiseTogether(w, s, v, t - 1, x, 10.0 * y, 10.0 * z);
    }
  }

  lemma TenTimes(x: real, y: real, z: real)
    requires z == 10.0 * y
    ensures 10.0 * (x * y) == x * z
  {
  }

  lemma {:induction false} LowerTogether(w: int, s: int, v: int, t: int, x: real, y: real, z: real)
    requires t <= 0 && Real(w, s) == x * Real(v, 0) && y == Real(v, t) && z == Real(w, s + t)
    ensures z == x * y
    decreases -t
  {
    if t < 0 {
      LowerTogether(w, s, v, t + 1, x, y / 10.0, z / 10.0);
      TenTimes(x, y / 10.0, y);
    }
  }

  // Multiplying digits and adding scales multiplies the numbers.
  lemma RealProduct(u: int, s: int, v: int, t: int, w: int, x: real, y: real, z: real)
    requires w == u * v && x == Real(u, s) && y == Real(v, t) && z == Real(w, s + t)
    ensures z == x * y
  {
    RealTimes(u, v, w, s, x, Real(v, 0), Real(w, s));
    if t >= 0 {
      RaiseTogether(w, s, v, t, x, y, z);
    } else {
      LowerTogether(w, s, v, t, x, y, z);
    }
  }

  // Whatever truncates one name of a number truncates the other.
  lemma SameTruncates(x: real, y: real, r: MiniNumber)
    requires Truncates(x, r) && x == y
    ensures Truncates(y, r)
  {
  }

  lemma {:induction false} DigitsBound(n: nat)
    requires n > 0
    ensures PowTen(NumDigits(n) - 1) <= n < PowTen(NumDigits(n))
  {
    if n < 10 {
      assert PowTen(1) == 10 * PowTen(0);
    } else {
      DigitsBound(n / 10);
      assert NumDigits(n) == NumDigits(n / 10) + 1;
    }
  }

  lemma {:induction false} PowTenMono(m: nat, n: nat)
    requires m <= n
    ensures PowTen(m) <= PowTen(n)
  {
    if m < n {
      PowTenMono(m, n - 1);
    }
  }

  // The digit count is the least power of ten above the number.
  lemma DigitsUnique(n: nat, d: nat)
    requires n > 0 && n < PowTen(d)
    ensures NumDigits(n) <= d
  {
    DigitsBound(n);
    if d < NumDigits(n) {
      PowTenMono(d, NumDigits(n) - 1);
    }
  }

  lemma DivideBounds(n: nat, p: int)
    requires p > 0
    ensures 0 <= n / p && n / p * p <= n < n / p * p + p
  {
    assert n == n / p * p + n % p;
  }

  // Cutting a numeral to its first k digits divides by a power of ten.
  lemma {:induction false} PrefixNumber(s: string, k: nat)
    requires AllDigits(s) && k <= |s|
    ensures Number(s[..k]) == Number(s) / PowTen(|s| - k)
  {
    if k == |s| {
      assert s[..k] == s;
      assert PowTen(0) == 1;
    } else {
      var t, p := s[..|s| - 1], PowTen(|s| - 1 - k);
      PrefixNumber(t, k);
      assert t[..k] == s[..k];
      assert PowTen(|s| - k) == 10 * p;
      DivideTwice(Number(t), DigitVal(s[|s| - 1]), p);
    }
  }

  lemma DivideTwice(n: int, d: int, p: int)
    requires n >= 0 && 0 <= d < 10 && p > 0
    ensures (10 * n + d) / (10 * p) == n / p
  {
    var q, r := n / p, n % p;
    assert n == q * p + r;
    assert 10 * n + d == q * (10 * p) + (10 * r + d);
    QuotientUnique(10 * n + d, 10 * p, q, 10 * r + d);
  }

  lemma QuotientUnique(n: int, p: int, q: int, r: int)
    requires p > 0 && 0 <= r < p && n == q * p + r
    ensures n / p == q
  {
    var q', r' := n / p, n % p;
    assert n == q' * p + r';
    assert (q - q') * p == r' - r;
    if q' < q {
      MulMono(1, q - q', p);
    } else if q < q' {
      MulMono(q - q', -1, p);
    }
  }

  lemma MulCancel(a: int, b: int, p: int)
    requires p > 0 && a * p < b * p
    ensures a < b
  {
    if b <= a {
      MulMono(b, a, p);
    }
  }

  lemma ParsedDigits(digits: string, neg: bool)
    requires AllDigits(digits) && digits != ""
    ensures Parsed(if neg then "-" + digits else digits) == Some(if neg then -Number(digits) else Number(digits))
  {
    var s := if neg then "-" + digits else digits;
    assert SkipSpaces(s) == s;
    assert neg ==> s[1..] == digits;
  }

  // ---- truncation ----------------------------------------------------------------------

  // r is x cut toward zero after 64 significant digits: exact whenever 64 digits can write x.
  ghost predicate Truncates(x: real, r: MiniNumber) {
    var e, ulp := Exact(r), Real(1, r.scale);
    && NumDigits(Abs(Value(r.unscaled))) <= MAX_DIGITS
    && (if x < 0.0 then x <= e < 0.0 && e - ulp < x else 0.0 <= e <= x && x < e + ulp)
    && (x != 0.0 ==> e != 0.0)
    && (e != x ==> NumDigits(Abs(Value(r.unscaled))) == MAX_DIGITS)
    && (forall w, t :: NumDigits(Abs(w)) <= MAX_DIGITS && Real(w, t) == x ==> e == x)
  }

  lemma MulSucc(q: int, p: int)
    ensures (q + 1) * p == q * p + p
  {
  }

  lemma MulNonNegative(q: int, p: int)
    requires q >= 0 && p >= 0
    ensures q * p >= 0
  {
  }

  lemma MulNegate(q: int, p: int)
    ensures -q * p == -(q * p)
  {
  }

  lemma MulAssociate(a: int, b: int, c: int)
    ensures a * (b * c) == a * b * c
  {
  }

  lemma TruncateMagnitude(v: int, e: nat)
    ensures Abs(Truncate(v, e)) == Abs(v) / PowTen(e)
    ensures var t := Truncate(v, e) * PowTen(e);
            if v < 0 then v <= t <= 0 && t - PowTen(e) < v else 0 <= t <= v && v < t + PowTen(e)
  {
    var n, p := Abs(v), PowTen(e);
    var q := n / p;
    DivideBounds(n, p);
    MulNegate(q, p);
    MulNonNegative(q, p);
    if v < 0 {
      assert Truncate(v, e) == -q;
    } else {
      assert Truncate(v, e) == q;
    }
  }

  lemma QuotientDigits(n: nat, d: nat, e: nat)
    requires n > 0 && d > 0 && NumDigits(n) == d + e
    ensures PowTen(d - 1) <= n / PowTen(e) < PowTen(d)
  {
    var p, q := PowTen(e), n / PowTen(e);
    DigitsBound(n);
    DivideBounds(n, p);
    PowTenSum(d - 1, e);
    PowTenSum(d, e);
    MulSucc(q, p);
    MulCancel(PowTen(d - 1), q + 1, p);
    MulCancel(q, PowTen(d), p);
  }

  lemma DigitsExactly(n: nat, d: nat)
    requires d > 0 && PowTen(d - 1) <= n < PowTen(d)
    ensures NumDigits(n) == d
  {
    DigitsUnique(n, d);
    DigitsBound(n);
    if NumDigits(n) < d {
      PowTenMono(NumDigits(n), d - 1);
    }
  }

  lemma TruncatedDigitCount(v: int, d: nat, e: nat)
    requires d > 0 && NumDigits(Abs(v)) == d + e && v != 0
    ensures NumDigits(Abs(Truncate(v, e))) == d && Truncate(v, e) != 0
  {
    QuotientDigits(Abs(v), d, e);
    TruncateMagnitude(v, e);
    DigitsExactly(Abs(v) / PowTen(e), d);
  }

  lemma TruncatedDigits(v: int, e: nat)
    requires NumDigits(Abs(v)) == MAX_DIGITS + e
    ensures NumDigits(Abs(Truncate(v, e))) == MAX_DIGITS
    ensures Truncate(v, e) != 0
  {
    var d := MAX_DIGITS;
    TruncatedDigitCount(v, d, e);
  }

  lemma DigitsOfScaled(n: nat, k: nat)
    requires n > 0
    ensures n * PowTen(k) > 0 && NumDigits(n * PowTen(k)) == NumDigits(n) + k
  {
    var d, p := NumDigits(n), PowTen(k);
    DigitsBound(n);
    MulMono(PowTen(d - 1), n, p);
    MulMono(1, n, p);
    MulMono(n + 1, PowTen(d), p);
    assert (n + 1) * p == n * p + p;
    PowTenSum(d - 1, k);
    PowTenSum(d, k);
    DigitsUnique(n * p, d + k);
    DigitsBound(n * p);
    if NumDigits(n * p) < d + k {
      PowTenMono(NumDigits(n * p), d + k - 1);
    }
  }

  // A number that 64 digits can write loses nothing when cut to 64 digits.
  lemma WritableIsKept(v: int, s: int, e: nat, w: int, t: int)
    requires v != 0 && NumDigits(Abs(v)) == MAX_DIGITS + e
    requires NumDigits(Abs(w)) <= MAX_DIGITS && Real(w, t) == Real(v, s)
    ensures Truncate(v, e) * PowTen(e) == v
  {
    if t <= s {
      var k := s - t;
      RealRescale(w, t, k);
      RealLinear(w * PowTen(k), v, s);
      KeptMultiple(v, e, w, k);
    } else {
      var k := t - s;
      RealRescale(v, s, k);
      RealLinear(v * PowTen(k), w, t);
      AbsProduct(v, PowTen(k));
      DigitsOfScaled(Abs(v), k);
    }
  }

  lemma KeptMultiple(v: int, e: nat, w: int, k: nat)
    requires v != 0 && v == w * PowTen(k)
    requires NumDigits(Abs(v)) == MAX_DIGITS + e && NumDigits(Abs(w)) <= MAX_DIGITS
    ensures Truncate(v, e) * PowTen(e) == v
  {
    AbsProduct(w, PowTen(k));
    DigitsOfScaled(Abs(w), k);
    PowTenSum(k - e, e);
    MulAssociate(w, PowTen(k - e), PowTen(e));
    TruncateMultiple(w * PowTen(k - e), e);
  }

  lemma AbsProduct(x: int, p: int)
    requires p > 0
    ensures Abs(x * p) == Abs(x) * p
  {
  }

  lemma TruncateMultiple(m: int, e: nat)
    ensures Truncate(m * PowTen(e), e) == m
  {
    var p := PowTen(e);
    AbsProduct(m, p);
    QuotientUnique(Abs(m) * p, p, Abs(m), 0);
    if m < 0 {
      assert m * p < 0;
    } else {
      assert m * p >= 0;
    }
  }

  function Excess(v: int): nat {
    if NumDigits(Abs(v)) > MAX_DIGITS then NumDigits(Abs(v)) - MAX_DIGITS else 0
  }

  lemma TruncationIsTruncates(v: int, s: int, r: MiniNumber)
    requires v != 0
    requires r.scale == s - Excess(v) && Value(r.unscaled) == Truncate(v, Excess(v))
    ensures Truncates(Real(v, s), r)
  {
    var e, t := Excess(v), Truncate(v, Excess(v));
    var te := t * PowTen(e);
    RealRescale(t, s - e, e);
    RealRescale(1, s - e, e);
    TruncateMagnitude(v, e);
    if e == 0 {
      TruncateNothing(v);
    } else {
      TruncatedDigits(v, e);
    }
    assert te != 0 by {
      if e == 0 {
        assert PowTen(0) == 1 && te == v;
      } else {
        MulNonZero(t, PowTen(e));
      }
    }
    BoundsAtScale(v, te, PowTen(e), s);
    forall w, x | NumDigits(Abs(w)) <= MAX_DIGITS && Real(w, x) == Real(v, s)
      ensures te == v
    {
      if e > 0 {
        WritableIsKept(v, s, e, w, x);
      } else {
        assert PowTen(0) == 1;
      }
    }
  }

  lemma MulNonZero(x: int, p: int)
    requires x != 0 && p != 0
    ensures x * p != 0
  {
  }

  // Integer bounds around v carry over to the numbers they denote at one scale.
  lemma BoundsAtScale(v: int, t: int, p: int, s: int)
    requires v != 0 && t != 0
    requires if v < 0 then v <= t <= 0 && t - p < v else 0 <= t <= v && v < t + p
    ensures var (x, e, ulp) := (Real(v, s), Real(t, s), Real(p, s));
            && (if x < 0.0 then x <= e < 0.0 && e - ulp < x else 0.0 <= e <= x && x < e + ulp)
            && x != 0.0 && e != 0.0 && (e == x <==> t == v)
  {
    RealOrder(v, 0, s);
    RealOrder(t, 0, s);
    RealOrder(t, v, s);
    if v < 0 {
      BelowByLess(t, v, p, s);
    } else {
      BelowByLess(v, t, p, s);
    }
  }

  lemma BelowByLess(a: int, b: int, p: int, s: int)
    requires a < b + p
    ensures Real(a, s) < Real(b, s) + Real(p, s)
  {
    RealOrder(a, b + p, s);
    RealSum(b, p, s);
  }

  lemma RealOrder(u: int, v: int, s: int)
    ensures Real(u, s) < Real(v, s) <==> u < v
    ensures Real(u, s) == Real(v, s) <==> u == v
    ensures Real(0, s) == 0.0
  {
    RealLinear(u, v, s);
  }

  lemma RealSum(u: int, v: int, s: int)
    ensures Real(u + v, s) == Real(u, s) + Real(v, s)
  {
    RealLinear(u, v, s);
  }

  lemma RealDifference(u: int, v: int, s: int)
    ensures Real(u - v, s) == Real(u, s) - Real(v, s)
  {
    RealLinear(u - v, v, s);
  }

  lemma ZeroTruncates(s: int)
    ensures Truncates(Real(0, s), ZERO)
  {
    SingleDigit(0);
    RealLinear(0, 0, s);
    RealLinear(0, 1, 0);
  }

  // ---- the re-read quotient ------------------------------------------------------------

  function TopByte(n: nat): Byte {
    if n < 256 then n else TopByte(n / 256)
  }

  lemma {:induction false} TopByteOfVal(s: seq<Byte>)
    requires Canonical(s)
    ensures TopByte(Val(s)) == s[0]
  {
    if |s| == 1 {
      SingleDigit(s[0]);
      assert s == [s[0]];
    } else {
      var t := s[..|s| - 1];
      NonZeroVal(t);
      TopByteOfVal(t);
      assert Val(s) / 256 == Val(t);
    }
  }

  // An unsigned quotient read back as two's complement keeps its value exactly when its top bit is clear.
  lemma RereadQuotient(q: seq<Byte>)
    requires Canonical(q)
    ensures SignedVal(q) == Val(q) <==> TopByte(Val(q)) < 128
  {
    TopByteOfVal(q);
  }

  // v divided by 10^c as the source does it: the quotient's magnitude read back as two's complement,
  // with the sign of v.
  function Requotient(v: int, c: nat): int {
    var q := SignedVal(MagnitudeBytes(DividedByTen(Abs(v), c)));
    if v < 0 then -q else q
  }

  // It is truncation toward zero exactly when the quotient's top bit is clear.
  lemma RequotientTruncates(v: int, c: nat)
    ensures Requotient(v, c) == Truncate(v, c) <==> TopBitClear(v, c)
  {
    var n := DividedByTen(Abs(v), c);
    MagnitudeBytesValue(n);
    RereadQuotient(MagnitudeBytes(n));
  }

  // 1280 at scale 45 keeps its four digits, and clamping it to scale 44 stores -128.
  lemma ClampGoesWrong()
    ensures var u := BigInt([5, 0]);
            Value(u) == 1280 && Excess(1280) == 0 && Truncate(1280, 1) == 128 && Requotient(1280, 1) == -128
  {
    var s: seq<Byte> := [5, 0];
    ValAppend([], 5);
    ValAppend([5], 0);
    assert [] + [5] == [5] && [5] + [0] == s;
    var q: seq<Byte> := [128];
    ValAppend([], 128);
    assert [] + [128] == q;
    assert PowTen(1) == 10 && Pow256(1) == 256;
    assert MagnitudeBytes(128) == q;
    assert PowTen(4) == 10000 by { assert PowTen(2) == 100; }
    DigitsUnique(1280, 4);
  }

  // ---- construction --------------------------------------------------------------------

  method Pow10(n: nat) returns (r: BigInt)
    ensures Minimal(r) && Value(r) == PowTen(n)
  {
    var ten := BigInt([10]);
    r := BigInt([1]);
    SingleDigit(1);
    SingleDigit(10);
    for i := 0 to n
      invariant Minimal(r) && Value(r) == PowTen(i)
    {
      r := Mul(r, ten);
    }
  }

  // The clamp to 44 decimal places divides t by 10^c and re-reads the quotient as a signed number.
  predicate TopBitClear(t: int, c: nat) {
    TopByte(DividedByTen(Abs(t), c)) < 128
  }

  function DividedByTen(n: nat, c: nat): nat {
    DivideBounds(n, PowTen(c));
    n / PowTen(c)
  }

  // The first 64 digits, and the scale that goes with them; zero loses its scale.
  method KeepSignificant(u: BigInt, scale: int) returns (r: MiniNumber)
    requires |u.bytes| > 0
    ensures |r.unscaled.bytes| > 0
    ensures Value(u) == 0 ==> r == ZERO
    ensures Value(u) != 0 ==> r.scale == scale - Excess(Value(u))
    ensures Value(u) != 0 ==> Value(r.unscaled) == Truncate(Value(u), Excess(Value(u)))
    ensures Minimal(u) ==> Minimal(r.unscaled)
  {
    var dec := ToDecimalString(u);
    var neg := dec != "" && dec[0] == '-';
    var digits := if neg then dec[1..] else dec;
    ghost var v := Value(u);
    assert digits == Decimal(Abs(v)) && (neg <==> v < 0);
    var first := 0;
    while first < |digits| && digits[first] == '0'
      invariant first <= |digits| && (v != 0 ==> first == 0)
      invariant forall i :: 0 <= i < first ==> digits[i] == '0'
    {
      first := first + 1;
    }
    if first == |digits| {
      return ZERO;
    }
    assert v != 0;
    digits := digits[first..];
    assert digits == Decimal(Abs(v));
    if |digits| <= MAX_DIGITS {
      TruncateNothing(v);
      return MiniNumber(u, scale);
    }
    var excess := |digits| - MAX_DIGITS;
    PrefixNumber(digits, MAX_DIGITS);
    NumberOfDecimal(Abs(v));
    digits := digits[..MAX_DIGITS];
    ParsedDigits(digits, neg);
    TruncateByMagnitude(v, excess, Number(digits));
    var parsed := FromDecimal(if neg then "-" + digits else digits);
    r := MiniNumber(parsed.value, scale - excess);
  }

  lemma TruncateByMagnitude(v: int, e: nat, q: int)
    requires q == Abs(v) / PowTen(e)
    ensures Truncate(v, e) == if v < 0 then -q else q
  {
  }

  lemma TruncateNothing(v: int)
    ensures Truncate(v, 0) == v
  {
  }

  // Past 44 decimal places after the cut to 64 digits, u * 10^-scale is stored as the re-read quotient.
  ghost predicate Clamped(u: int, scale: int, r: MiniNumber) {
    var c := scale - Excess(u) - MAX_DECIMAL_PLACES;
    u != 0 && c > 0 ==> r.scale == MAX_DECIMAL_PLACES && Value(r.unscaled) == Requotient(Truncate(u, Excess(u)), c)
  }

  // What is stored for u * 10^-scale: its truncation to 64 digits as long as that leaves at most 44
  // decimal places; past that, the re-read quotient.
  method New(u: BigInt, scale: int) returns (r: MiniNumber)
    requires |u.bytes| > 0
    ensures |r.unscaled.bytes| > 0 && (Value(u) == 0 ==> r == ZERO)
    ensures scale - Excess(Value(u)) <= MAX_DECIMAL_PLACES ==> Truncates(Real(Value(u), scale), r)
    ensures Clamped(Value(u), scale, r)
  {
    r := KeepSignificant(u, scale);
    if Value(u) == 0 {
      ZeroTruncates(scale);
    } else {
      TruncationIsTruncates(Value(u), scale, r);
    }
    if r.scale > MAX_DECIMAL_PLACES {
      var clamped := Clamp(r.unscaled, r.scale - MAX_DECIMAL_PLACES);
      r := MiniNumber(clamped, MAX_DECIMAL_PLACES);
    }
  }

  method Clamp(u: BigInt, excess: nat) returns (r: BigInt)
    requires |u.bytes| > 0
    ensures |r.bytes| > 0 && Value(r) == Requotient(Value(u), excess)
  {
    var divisor := Pow10(excess);
    var neg := IsNegative(u);
    var absU := u;
    if neg {
      absU := Negate(u);
    }
    var a := Magnitude(absU);
    var b := Magnitude(divisor);
    var q, rem := DivmodMag(a, b);
    QuotientUnique(Val(a), Val(b), Val(q), Val(rem));
    MagnitudeBytesValue(Val(q));
    CanonicalUnique(q, MagnitudeBytes(Val(q)));
    r := BigInt(q);
    if neg {
      r := Negate(r);
    }
  }

  // ---- arithmetic ----------------------------------------------------------------------

  predicate WellFormed(m: MiniNumber) {
    |m.unscaled.bytes| > 0
  }

  function Larger(s: int, t: int): int {
    if s < t then t else s
  }

  // The unscaled value of a number at a larger scale.
  function Raised(m: MiniNumber, scale: int): int
    requires m.scale <= scale
  {
    Value(m.unscaled) * PowTen(scale - m.scale)
  }

  method AlignScales(a: MiniNumber, b: MiniNumber) returns (ua: BigInt, ub: BigInt, scale: int)
    requires WellFormed(a) && WellFormed(b)
    ensures |ua.bytes| > 0 && |ub.bytes| > 0
    ensures scale == Larger(a.scale, b.scale)
    ensures Value(ua) == Raised(a, scale) && Value(ub) == Raised(b, scale)
    ensures Real(Value(ua), scale) == Exact(a) && Real(Value(ub), scale) == Exact(b)
  {
    scale := if a.scale < b.scale then b.scale else a.scale;
    var da, db := scale - a.scale, scale - b.scale;
    assert PowTen(0) == 1;
    ua, ub := a.unscaled, b.unscaled;
    if da > 0 {
      var p := Pow10(da);
      RealRescale(Value(ua), a.scale, da);
      ua := Mul(ua, p);
    }
    if db > 0 {
      var p := Pow10(db);
      RealRescale(Value(ub), b.scale, db);
      ub := Mul(ub, p);
    }
  }

  method AddNumbers(a: MiniNumber, b: MiniNumber) returns (r: MiniNumber)
    requires WellFormed(a) && WellFormed(b)
    ensures WellFormed(r)
    ensures var scale := Larger(a.scale, b.scale);
            var w := Raised(a, scale) + Raised(b, scale);
            && (w == 0 ==> r == ZERO) && Clamped(w, scale, r)
            && (scale - Excess(w) <= MAX_DECIMAL_PLACES ==> Truncates(Exact(a) + Exact(b), r))
  {
    var ua, ub, scale := AlignScales(a, b);
    var u := Add(ua, ub);
    RealSum(Value(ua), Value(ub), scale);
    r := New(u, scale);
  }

  method SubNumbers(a: MiniNumber, b: MiniNumber) returns (r: MiniNumber)
    requires WellFormed(a) && WellFormed(b)
    ensures WellFormed(r)
    ensures var scale := Larger(a.scale, b.scale);
            var w := Raised(a, scale) - Raised(b, scale);
            && (w == 0 ==> r == ZERO) && Clamped(w, scale, r)
            && (scale - Excess(w) <= MAX_DECIMAL_PLACES ==> Truncates(Exact(a) - Exact(b), r))
  {
    var ua, ub, scale := AlignScales(a, b);
    var u := Sub(ua, ub);
    RealDifference(Value(ua), Value(ub), scale);
    r := New(u, scale);
  }

  // Up to 44 decimal places after the cut to 64 digits, the exact product truncated; past that, its
  // digits clamped through the re-read quotient.
  method MultNumbers(a: MiniNumber, b: MiniNumber) returns (r: MiniNumber)
    requires WellFormed(a) && WellFormed(b)
    ensures WellFormed(r) && (Value(a.unscaled) * Value(b.unscaled) == 0 ==> r == ZERO)
    ensures a.scale + b.scale - Excess(Value(a.unscaled) * Value(b.unscaled)) <= MAX_DECIMAL_PLACES ==>
              Truncates(Exact(a) * Exact(b), r)
    ensures Clamped(Value(a.unscaled) * Value(b.unscaled), a.scale + b.scale, r)
  {
    var u := Mul(a.unscaled, b.unscaled);
    r := New(u, a.scale + b.scale);
    if a.scale + b.scale - Excess(Value(u)) <= MAX_DECIMAL_PLACES {
      ProductTruncates(a, b, Value(u), r, Exact(a) * Exact(b));
    }
  }

  lemma ProductTruncates(a: MiniNumber, b: MiniNumber, w: int, r: MiniNumber, p: real)
    requires w == Value(a.unscaled) * Value(b.unscaled) && p == Exact(a) * Exact(b)
    requires Truncates(Real(w, a.scale + b.scale), r)
    ensures Truncates(p, r)
  {
    var z := Real(w, a.scale + b.scale);
    RealProduct(Value(a.unscaled), a.scale, Value(b.unscaled), b.scale, w, Exact(a), Exact(b), z);
    SameTruncates(z, p, r);
  }

  method CompareNumbers(a: MiniNumber, b: MiniNumber) returns (c: int)
    requires WellFormed(a) && WellFormed(b)
    ensures c < 0 <==> Exact(a) < Exact(b)
    ensures c == 0 <==> Exact(a) == Exact(b)
  {
    var ua, ub, scale := AlignScales(a, b);
    c := CompareTo(ua, ub);
    RealLinear(Value(ua), Value(ub), scale);
  }
}
