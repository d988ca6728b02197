/** The unsigned value of a big-endian byte string, the order on canonical strings, and the
    schoolbook loops of BigInt proved against that value. */
module Magnitudes {
  import opened Bytes

  function Pow256(n: nat): (p: int)
    ensures p > 0
  {
    if n == 0 then 1 else 256 * Pow256(n - 1)
  }

  function Val(s: seq<Byte>): (v: int)
    ensures v >= 0
  {
    if s == [] then 0 else 256 * Val(s[..|s| - 1]) + s[|s| - 1]
  }

  predicate Canonical(s: seq<Byte>) {
    |s| > 0 && (|s| > 1 ==> s[0] != 0)
  }

  // ---- properties of the value ---------------------------------------------------------

  lemma {:induction false} ValAppend(s: seq<Byte>, b: Byte)
    ensures Val(s + [b]) == 256 * Val(s) + b
  {
    assert (s + [b])[..|s|] == s;
  }

  lemma {:induction false} ValPrepend(b: Byte, s: seq<Byte>)
    ensures Val([b] + s) == b * Pow256(|s|) + Val(s)
  {
    if s == [] {
      ValAppend([], b);
      assert [] + [b] == [b];
    } else {
      var t, last := s[..|s| - 1], s[|s| - 1];
      assert [b] + s == ([b] + t) + [last];
      ValAppend([b] + t, last);
      ValPrepend(b, t);
      assert 256 * (b * Pow256(|t|)) == b * Pow256(|s|);
    }
  }

  lemma ValFrom(s: seq<Byte>, i: nat)
    requires i < |s|
    ensures Val(s[i..]) == s[i] * Pow256(|s| - i - 1) + Val(s[i + 1..])
  {
    assert s[i..] == [s[i]] + s[i + 1..];
    ValPrepend(s[i], s[i + 1..]);
  }

  lemma {:induction false} ValBound(s: seq<Byte>)
    ensures Val(s) < Pow256(|s|)
  {
    if s != [] {
      ValBound(s[..|s| - 1]);
    }
  }

  lemma MulMono(a: int, b: int, p: nat)
    requires a <= b
    ensures a * p <= b * p
  {
  }

  lemma {:induction false} PowMono(m: nat, n: nat)
    requires m <= n
    ensures Pow256(m) <= Pow256(n)
  {
    if m < n {
      PowMono(m, n - 1);
    }
  }

  lemma {:induction false} PowSum(m: nat, n: nat)
    ensures Pow256(m + n) == Pow256(m) * Pow256(n)
  {
    if n > 0 {
      PowSum(m, n - 1);
      var p, q := Pow256(m), Pow256(n - 1);
      assert 256 * (p * q) == p * (256 * q);
    }
  }

  lemma LeadingDigit(s: seq<Byte>)
    requires |s| > 0
    ensures s[0] * Pow256(|s| - 1) <= Val(s) < (s[0] + 1) * Pow256(|s| - 1)
  {
    ValFrom(s, 0);
    assert s[0..] == s;
    ValBound(s[1..]);
    assert (s[0] + 1) * Pow256(|s| - 1) == s[0] * Pow256(|s| - 1) + Pow256(|s| - 1);
  }

  lemma ShorterIsLess(a: seq<Byte>, b: seq<Byte>)
    requires Canonical(b) && |a| < |b|
    requires |a| > 0
    ensures Val(a) < Val(b)
  {
    ValBound(a);
    PowMono(|a|, |b| - 1);
    LeadingDigit(b);
    MulMono(1, b[0], Pow256(|b| - 1));
  }

  // Same-length strings are ordered by their first difference.
  lemma FirstDifference(a: seq<Byte>, b: seq<Byte>, i: nat)
    requires i < |a| == |b| && a[..i] == b[..i] && a[i] < b[i]
    ensures Val(a) < Val(b)
  {
    LeadingDigit(a[i..]);
    LeadingDigit(b[i..]);
    MulMono(a[i] + 1, b[i], Pow256(|a| - i - 1));
    ValConcat(a[..i], a[i..]);
    ValConcat(b[..i], b[i..]);
    assert a[..i] + a[i..] == a;
    assert b[..i] + b[i..] == b;
  }

  lemma {:induction false} ValConcat(a: seq<Byte>, b: seq<Byte>)
    ensures Val(a + b) == Val(a) * Pow256(|b|) + Val(b)
  {
    if b == [] {
      assert a + b == a;
    } else {
      var t, last := b[..|b| - 1], b[|b| - 1];
      assert a + b == (a + t) + [last];
      ValAppend(a + t, last);
      ValConcat(a, t);
      TimesShifted(Val(a), Pow256(|t|));
    }
  }

  lemma TimesShifted(x: int, p: int)
    ensures x * (256 * p) == 256 * (x * p)
  {
  }

  // Canonical strings denote distinct numbers.
  lemma CanonicalUnique(a: seq<Byte>, b: seq<Byte>)
    requires Canonical(a) && Canonical(b) && Val(a) == Val(b)
    ensures a == b
  {
    if |a| < |b| {
      ShorterIsLess(a, b);
    } else if |b| < |a| {
      ShorterIsLess(b, a);
    } else {
      SameLengthUnique(a, b);
    }
  }

  lemma {:induction false} SameLengthUnique(a: seq<Byte>, b: seq<Byte>)
    requires |a| == |b| && Val(a) == Val(b)
    ensures a == b
  {
    if a != [] {
      SameLengthUnique(a[..|a| - 1], b[..|b| - 1]);
      assert a == a[..|a| - 1] + [a[|a| - 1]];
      assert b == b[..|b| - 1] + [b[|b| - 1]];
    }
  }

  lemma CarryStep(v: nat, p: nat)
    ensures v % 256 * p + v / 256 * (256 * p) == v * p
  {
    assert v / 256 * (256 * p) == 256 * (v / 256) * p;
    assert (v % 256 + 256 * (v / 256)) * p == v % 256 * p + 256 * (v / 256) * p;
  }

  // A string as long as a canonical one and no smaller is canonical too.
  lemma NotShorter(r: seq<Byte>, s: seq<Byte>)
    requires Canonical(s) && |r| == |s| && Val(s) <= Val(r)
    ensures Canonical(r)
  {
    if |r| > 1 {
      LeadingDigit(r);
      LeadingDigit(s);
      MulMono(1, s[0], Pow256(|s| - 1));
    }
  }

  lemma SetDigit(s: seq<Byte>, k: nat, b: Byte)
    requires k < |s|
    ensures Val(s[k := b]) == Val(s) + (b - s[k]) * Pow256(|s| - k - 1)
  {
    var t := s[k := b];
    ValConcat(s[..k], s[k..]);
    ValConcat(t[..k], t[k..]);
    assert s == s[..k] + s[k..] && t == t[..k] + t[k..] && t[..k] == s[..k];
    ValFrom(s, k);
    ValFrom(t, k);
    assert t[k + 1..] == s[k + 1..];
    assert (b - s[k]) * Pow256(|s| - k - 1) == b * Pow256(|s| - k - 1) - s[k] * Pow256(|s| - k - 1);
  }

  lemma {:induction false} ZerosVal(s: seq<Byte>)
    requires forall i :: 0 <= i < |s| ==> s[i] == 0
    ensures Val(s) == 0
  {
    if s != [] {
      ZerosVal(s[..|s| - 1]);
    }
  }

  lemma CanonicalZero(s: seq<Byte>)
    requires Canonical(s)
    ensures Val(s) == 0 <==> s == [0]
  {
    ValAppend([], 0);
    assert [] + [0] == [0];
    if Val(s) == 0 {
      CanonicalUnique(s, [0]);
    }
  }

  // ---- the loops -----------------------------------------------------------------------

  // The canonical magnitude of a natural number.
  function MagnitudeBytes(n: nat): (s: seq<Byte>)
    ensures |s| > 0
  {
    if n < 256 then [n] else MagnitudeBytes(n / 256) + [n % 256]
  }

  lemma {:induction false} MagnitudeBytesValue(n: nat)
    ensures Val(MagnitudeBytes(n)) == n && Canonical(MagnitudeBytes(n)) && (n > 0 ==> MagnitudeBytes(n)[0] != 0)
  {
    if n < 256 {
      ValAppend([], n);
      assert [] + [n] == [n];
    } else {
      MagnitudeBytesValue(n / 256);
      ValAppend(MagnitudeBytes(n / 256), n % 256);
    }
  }

  method StripLeadingZeros(v: seq<Byte>) returns (r: seq<Byte>)
    ensures Val(r) == Val(v)
    ensures if v == [] then r == [] else Canonical(r)
    ensures |r| <= |v| && r == v[|v| - |r|..]
  {
    var i := 0;
    while i + 1 < |v| && v[i] == 0
      invariant 0 <= i <= |v| && (v != [] ==> i < |v|)
      invariant Val(v[i..]) == Val(v)
    {
      ValFrom(v, i);
      i := i + 1;
    }
    r := v[i..];
  }

  method CompareAbsMag(a: seq<Byte>, b: seq<Byte>) returns (c: int)
    requires Canonical(a) && Canonical(b)
    ensures c < 0 <==> Val(a) < Val(b)
    ensures c == 0 <==> Val(a) == Val(b)
    ensures c == 0 <==> a == b
  {
    if |a| != |b| {
      if |a| < |b| {
        ShorterIsLess(a, b);
        return -1;
      }
      ShorterIsLess(b, a);
      return 1;
    }
    var i := 0;
    while i < |a|
      invariant 0 <= i <= |a| && a[..i] == b[..i]
    {
      if a[i] < b[i] {
        FirstDifference(a, b, i);
        return -1;
      }
      if b[i] < a[i] {
        FirstDifference(b, a, i);
        return 1;
      }
      i := i + 1;
    }
    assert a == a[..i] && b == b[..i];
    c := 0;
  }

  // Digits of a shorter operand, padded with zeros on the left.
  function Digit(s: seq<Byte>, k: int): Byte
    requires k < |s|
  {
    if k >= 0 then s[k] else 0
  }

  function Tail(s: seq<Byte>, k: int): int
    requires k <= |s|
  {
    Val(s[if k < 0 then 0 else k..])
  }

  lemma TailStep(s: seq<Byte>, k: int)
    requires k < |s|
    ensures Tail(s, k) == Digit(s, k) * Pow256(|s| - k - 1) + Tail(s, k + 1)
  {
    if k >= 0 {
      ValFrom(s, k);
    }
  }

  // One column of an addition: digits x and y, incoming carry c, column weight p.
  lemma AddColumn(x: Byte, y: Byte, c: nat, p: nat, r: int, a: int, b: int)
    requires r + c * p == a + b
    ensures var v := x + c + y; (v % 256 * p + r) + v / 256 * (256 * p) == (x * p + a) + (y * p + b)
  {
    CarryStep(x + c + y, p);
    assert (x + c + y) * p == x * p + c * p + y * p;
  }

  // One column of a subtraction: incoming borrow c, outgoing borrow d.
  lemma SubColumn(x: Byte, y: Byte, c: nat, d: nat, v: Byte, p: nat, r: int, a: int, b: int)
    requires r + b == a + c * p
    requires v + y + c == x + 256 * d
    ensures (v * p + r) + (y * p + b) == (x * p + a) + d * (256 * p)
  {
    assert (v + y + c) * p == v * p + y * p + c * p;
    assert (x + 256 * d) * p == x * p + d * (256 * p);
  }

  // The columns from k on are done: their digits of r, with the carry, hold the sum.
  ghost predicate SumFrom(r: seq<Byte>, big: seq<Byte>, small: seq<Byte>, k: nat, carry: nat) {
    && |small| <= |big| == |r| && k <= |big|
    && Tail(r, k) + carry * Pow256(|big| - k) == Tail(big, k) + Tail(small, k - (|big| - |small|))
  }

  lemma SumColumn(r: seq<Byte>, big: seq<Byte>, small: seq<Byte>, k: nat, carry: nat, v: nat)
    requires k < |r| && carry <= 1 && SumFrom(r, big, small, k + 1, carry)
    requires v == big[k] + carry + Digit(small, k - (|big| - |small|))
    ensures v / 256 <= 1 && SumFrom(r[k := v % 256], big, small, k, v / 256)
  {
    var t, y, p := r[k := v % 256], k - (|big| - |small|), Pow256(|big| - k - 1);
    assert t[k + 1..] == r[k + 1..];
    TailStep(t, k);
    TailStep(big, k);
    TailStep(small, y);
    AddColumn(big[k], Digit(small, y), carry, p, Tail(r, k + 1), Tail(big, k + 1), Tail(small, y + 1));
    assert Pow256(|big| - k) == 256 * p;
  }

  lemma SumDone(r: seq<Byte>, big: seq<Byte>, small: seq<Byte>, carry: Byte)
    requires SumFrom(r, big, small, 0, carry)
    ensures Val(if carry > 0 then [carry] + r else r) == Val(big) + Val(small)
    ensures carry == 0 && Canonical(big) ==> Canonical(r)
  {
    assert r[0..] == r && big[0..] == big && small[0..] == small;
    ValPrepend(carry, r);
    if carry == 0 && Canonical(big) {
      NotShorter(r, big);
    }
  }

  method AddMag(a: seq<Byte>, b: seq<Byte>) returns (r: seq<Byte>)
    ensures Val(r) == Val(a) + Val(b)
    ensures Canonical(a) && Canonical(b) ==> Canonical(r)
  {
    var big, small := a, b;
    if |a| < |b| {
      big, small := b, a;
    }
    r := seq(|big|, _ => 0);
    var carry, i, bi := 0, |big| - 1, |small| - 1;
    while i >= 0
      invariant -1 <= i < |big| && bi == i - (|big| - |small|) && 0 <= carry <= 1
      invariant SumFrom(r, big, small, i + 1, carry)
    {
      var d: int := if bi >= 0 then small[bi] else 0;
      var v := big[i] as int + carry + d;
      SumColumn(r, big, small, i, carry, v);
      r := r[i := v % 256];
      carry := v / 256;
      i, bi := i - 1, bi - 1;
    }
    SumDone(r, big, small, carry);
    if carry > 0 {
      var top: Byte := carry;
      r := [top] + r;
    }
  }

  ghost predicate DifferenceFrom(r: seq<Byte>, a: seq<Byte>, b: seq<Byte>, k: nat, borrow: nat) {
    && |b| <= |a| == |r| && k <= |a|
    && Tail(r, k) + Tail(b, k - (|a| - |b|)) == Tail(a, k) + borrow * Pow256(|a| - k)
  }

  lemma DifferenceColumn(r: seq<Byte>, a: seq<Byte>, b: seq<Byte>, k: nat, borrow: nat, due: nat, v: Byte)
    requires k < |r| && DifferenceFrom(r, a, b, k + 1, borrow)
    requires v + Digit(b, k - (|a| - |b|)) + borrow == a[k] + 256 * due
    ensures DifferenceFrom(r[k := v], a, b, k, due)
  {
    var t, y, p := r[k := v], k - (|a| - |b|), Pow256(|a| - k - 1);
    assert t[k + 1..] == r[k + 1..];
    TailStep(t, k);
    TailStep(a, k);
    TailStep(b, y);
    SubColumn(a[k], Digit(b, y), borrow, due, v, p, Tail(r, k + 1), Tail(a, k + 1), Tail(b, y + 1));
    assert Pow256(|a| - k) == 256 * p;
  }

  lemma DifferenceDone(r: seq<Byte>, a: seq<Byte>, b: seq<Byte>, borrow: nat)
    requires DifferenceFrom(r, a, b, 0, borrow) && Val(b) <= Val(a)
    ensures Val(r) == Val(a) - Val(b)
  {
    assert r[0..] == r && a[0..] == a && b[0..] == b;
    ValBound(r);
    if borrow > 0 {
      MulMono(1, borrow, Pow256(|a|));
    }
  }

  method SubMag(a: seq<Byte>, b: seq<Byte>) returns (r: seq<Byte>)
    requires Val(b) <= Val(a) && |b| <= |a|
    ensures Val(r) == Val(a) - Val(b)
    ensures a != [] ==> Canonical(r)
  {
    r := seq(|a|, _ => 0);
    var borrow, i, bi := 0, |a| - 1, |b| - 1;
    while i >= 0
      invariant -1 <= i < |a| && bi == i - (|a| - |b|) && 0 <= borrow <= 1
      invariant DifferenceFrom(r, a, b, i + 1, borrow)
    {
      var v := a[i] as int - borrow - (if bi >= 0 then b[bi] else 0) as int;
      ghost var due := borrow;
      if v < 0 {
        v, borrow := v + 256, 1;
      } else {
        borrow := 0;
      }
      DifferenceColumn(r, a, b, i, due, borrow, v);
      r := r[i := v];
      i, bi := i - 1, bi - 1;
    }
    DifferenceDone(r, a, b, borrow);
    r := StripLeadingZeros(r);
  }

  // Rows below i are added in full, row i from column j on, with `carry` still to be placed.
  ghost predicate ProductSoFar(r: seq<Byte>, a: seq<Byte>, b: seq<Byte>, i: nat, j: nat, carry: nat) {
    && i < |a| && j <= |b| && |r| == |a| + |b|
    && (forall k :: 0 <= k <= i ==> r[k] == 0)
    && Val(r) + carry * Pow256(|r| - 1 - (i + j))
       == Val(a[i + 1..]) * Val(b) + a[i] * Val(b[j..]) * Pow256(|a| - 1 - i)
  }

  lemma ProductColumnValue(rv: int, carry: nat, digit: Byte, x: Byte, y: Byte, w: nat, p: nat, q: nat,
                           rows: int, tail: int, v: nat)
    requires rv + carry * w == rows + x * tail * p
    requires v == digit + x * y + carry && w == p * q
    ensures rv + (v % 256 - digit) * w + v / 256 * (256 * w) == rows + x * (y * q + tail) * p
  {
    CarryStep(v, w);
    assert (v % 256 - digit) * w == v % 256 * w - digit * w;
    assert v * w == digit * w + x * y * w + carry * w;
    assert x * (y * q + tail) * p == x * y * (p * q) + x * tail * p;
  }

  lemma ColumnFits(d: Byte, x: Byte, y: Byte, carry: Byte)
    ensures 0 <= d + x * y + carry < 65536
  {
    MulMono(x, 255, y);
  }

  lemma ProductColumn(r: seq<Byte>, a: seq<Byte>, b: seq<Byte>, i: nat, j: nat, carry: Byte, v: nat)
    requires j < |b| && ProductSoFar(r, a, b, i, j + 1, carry)
    requires v == r[i + j + 1] + a[i] * b[j] + carry
    ensures v / 256 < 256 && ProductSoFar(r[i + j + 1 := v % 256], a, b, i, j, v / 256)
  {
    ColumnFits(r[i + j + 1], a[i], b[j], carry);
    var t, k := r[i + j + 1 := v % 256], i + j + 1;
    var w, p, q := Pow256(|r| - 1 - k), Pow256(|a| - 1 - i), Pow256(|b| - 1 - j);
    SetDigit(r, k, v % 256);
    PowSum(|a| - 1 - i, |b| - 1 - j);
    ValFrom(b, j);
    ProductColumnValue(Val(r), carry, r[k], a[i], b[j], w, p, q, Val(a[i + 1..]) * Val(b), Val(b[j + 1..]), v);
    assert Pow256(|r| - 1 - (i + j)) == 256 * w;
  }

  // The rows from k on are added in full; every digit above them is still zero.
  ghost predicate RowsFrom(r: seq<Byte>, a: seq<Byte>, b: seq<Byte>, k: nat) {
    && k <= |a| && |r| == |a| + |b|
    && (forall t :: 0 <= t < k ==> r[t] == 0)
    && Val(r) == Val(a[k..]) * Val(b)
  }

  lemma NoRows(r: seq<Byte>, a: seq<Byte>, b: seq<Byte>)
    requires |r| == |a| + |b| && forall t :: 0 <= t < |r| ==> r[t] == 0
    ensures RowsFrom(r, a, b, |a|)
  {
    ZerosVal(r);
    assert a[|a|..] == [];
  }

  lemma AllRows(r: seq<Byte>, a: seq<Byte>, b: seq<Byte>)
    requires RowsFrom(r, a, b, 0)
    ensures Val(r) == Val(a) * Val(b)
  {
    assert a[0..] == a;
  }

  lemma ProductRowStart(r: seq<Byte>, a: seq<Byte>, b: seq<Byte>, i: nat)
    requires i < |a| && RowsFrom(r, a, b, i + 1)
    ensures ProductSoFar(r, a, b, i, |b|, 0)
  {
    assert b[|b|..] == [];
    assert a[i] * 0 * Pow256(|a| - 1 - i) == 0;
  }

  lemma ProductRowValue(x: Byte, p: nat, u: nat, w: nat)
    ensures (x * p + u) * w == u * w + x * w * p
  {
    assert (x * p + u) * w == x * p * w + u * w;
    assert x * p * w == x * w * p;
  }

  // The row's last carry lands on a digit that is still zero.
  lemma ProductRow(r: seq<Byte>, a: seq<Byte>, b: seq<Byte>, i: nat, carry: Byte)
    requires ProductSoFar(r, a, b, i, 0, carry)
    ensures r[i] == 0 && RowsFrom(r[i := carry], a, b, i)
  {
    SetDigit(r, i, carry);
    assert (carry - r[i]) * Pow256(|r| - i - 1) == carry * Pow256(|r| - 1 - (i + 0));
    assert b[0..] == b;
    ValFrom(a, i);
    ProductRowValue(a[i], Pow256(|a| - 1 - i), Val(a[i + 1..]), Val(b));
  }

  method MulColumn(r0: seq<Byte>, a: seq<Byte>, b: seq<Byte>, i: nat, j: nat, carry: Byte)
    returns (r: seq<Byte>, next: Byte)
    requires j < |b| && ProductSoFar(r0, a, b, i, j + 1, carry)
    ensures ProductSoFar(r, a, b, i, j, next)
  {
    var v := r0[i + j + 1] as int + a[i] as int * b[j] as int + carry;
    ProductColumn(r0, a, b, i, j, carry, v);
    r := r0[i + j + 1 := v % 256];
    next := v / 256;
  }

  // One row of the schoolbook product: a[i] times b, added in place.
  method MulRow(r0: seq<Byte>, a: seq<Byte>, b: seq<Byte>, i: nat) returns (r: seq<Byte>)
    requires i < |a| && b != [] && RowsFrom(r0, a, b, i + 1)
    ensures RowsFrom(r, a, b, i)
  {
    r := r0;
    var carry: Byte, j := 0, |b| - 1;
    ProductRowStart(r, a, b, i);
    while j >= 0
      invariant -1 <= j < |b|
      invariant ProductSoFar(r, a, b, i, j + 1, carry)
    {
      r, carry := MulColumn(r, a, b, i, j, carry);
      j := j - 1;
    }
    ProductRow(r, a, b, i, carry);
    r := r[i := r[i] + carry];
  }

  method MulMag(a: seq<Byte>, b: seq<Byte>) returns (r: seq<Byte>)
    ensures Val(r) == Val(a) * Val(b) && Canonical(r)
  {
    if a == [] || b == [] {
      return [0];
    }
    r := seq(|a| + |b|, _ => 0);
    NoRows(r, a, b);
    var i := |a| - 1;
    while i >= 0
      invariant -1 <= i < |a|
      invariant RowsFrom(r, a, b, i + 1)
    {
      r := MulRow(r, a, b, i);
      i := i - 1;
    }
    AllRows(r, a, b);
    r := StripLeadingZeros(r);
  }

  // ---- words ---------------------------------------------------------------------------

  // A 32-bit word is its number in bytes, most significant first.
  lemma WordIsBigEndian(n: nat)
    ensures Val(WordBytes(n)) == n % WORD
  {
    var b := WordBytes(n);
    FourBytes(b[0], b[1], b[2], b[3]);
    assert b == [b[0], b[1], b[2], b[3]];
  }

  lemma ReadWordIsValue(b: seq<Byte>)
    requires |b| >= 4
    ensures ReadWord(b) == Val(b[..4])
  {
    FourBytes(b[0], b[1], b[2], b[3]);
    assert b[..4] == [b[0], b[1], b[2], b[3]];
  }

  lemma FourBytes(a: Byte, b: Byte, c: Byte, d: Byte)
    ensures Val([a, b, c, d]) == a as int * 0x100_0000 + b as int * 0x1_0000 + c as int * 0x100 + d as int
  {
    ValAppend([], a);
    ValAppend([a], b);
    ValAppend([a, b], c);
    ValAppend([a, b, c], d);
    assert [] + [a] == [a] && [a] + [b] == [a, b] && [a, b] + [c] == [a, b, c] && [a, b, c] + [d] == [a, b, c, d];
  }
}
