/**
 * Bit strings, and the loop that regroups them: a shift buffer takes in values of one width and
 * gives out values of another.
 */
module Bits {
  import opened Bytes
  import opened MmrSpec
  import opened MiniNumbers

  // v as w bits, most significant first.
  function BitsOf(v: int, w: nat): (b: seq<bool>)
    ensures |b| == w
    decreases w
  {
    if w == 0 then [] else BitsOf(v / 2, w - 1) + [v % 2 == 1]
  }

  function FromBits(b: seq<bool>): (v: nat)
  {
    if b == [] then 0 else 2 * FromBits(b[..|b| - 1]) + (if b[|b| - 1] then 1 else 0)
  }

  // The bits of a list of w-bit values.
  function Unpack(vs: seq<int>, w: nat): seq<bool>
  {
    if vs == [] then [] else BitsOf(vs[0], w) + Unpack(vs[1..], w)
  }

  // The whole w-bit groups of a bit string, as values.
  function Pack(b: seq<bool>, w: nat): (vs: seq<nat>)
    requires w > 0
    decreases |b|
  {
    if |b| < w then [] else [FromBits(b[..w])] + Pack(b[w..], w)
  }

  // The bits after the last whole group.
  function Leftover(b: seq<bool>, w: nat): (r: seq<bool>)
    requires w > 0
    ensures |r| < w
    decreases |b|
  {
    if |b| < w then b else Leftover(b[w..], w)
  }

  lemma {:induction false} UnpackLength(vs: seq<int>, w: nat)
    ensures |Unpack(vs, w)| == |vs| * w
  {
    if vs != [] {
      UnpackLength(vs[1..], w);
    }
  }

  // ---- values and bits -----------------------------------------------------------------

  lemma {:induction false} FromBitsBound(b: seq<bool>)
    ensures FromBits(b) < Pow2(|b|)
  {
    if b != [] {
      FromBitsBound(b[..|b| - 1]);
    }
  }

  lemma {:induction false} FromBitsOf(v: nat, w: nat)
    requires v < Pow2(w)
    ensures FromBits(BitsOf(v, w)) == v
  {
    if w > 0 {
      FromBitsOf(v / 2, w - 1);
      assert BitsOf(v, w)[..w - 1] == BitsOf(v / 2, w - 1);
    }
  }

  lemma {:induction false} BitsOfFrom(b: seq<bool>)
    ensures BitsOf(FromBits(b), |b|) == b
  {
    if b != [] {
      BitsOfFrom(b[..|b| - 1]);
      assert b == b[..|b| - 1] + [b[|b| - 1]];
    }
  }

  lemma Doubled(x: int, p: int)
    ensures x * (2 * p) == 2 * (x * p)
  {
  }

  lemma FromBitsPush(b: seq<bool>, bit: bool)
    ensures FromBits(b + [bit]) == 2 * FromBits(b) + (if bit then 1 else 0)
  {
    assert (b + [bit])[..|b|] == b;
  }

  lemma {:induction false} FromBitsConcat(a: seq<bool>, b: seq<bool>)
    ensures FromBits(a + b) == FromBits(a) * Pow2(|b|) + FromBits(b)
  {
    if b == [] {
      assert a + b == a;
    } else {
      var c, bit := b[..|b| - 1], b[|b| - 1];
      FromBitsConcat(a, c);
      FromBitsPush(a + c, bit);
      ConcatAssociates(a, c, [bit]);
      assert b == c + [bit];
      Doubled(FromBits(a), Pow2(|c|));
    }
  }

  lemma {:induction false} Pow2Sum(m: nat, n: nat)
    ensures Pow2(m + n) == Pow2(m) * Pow2(n) && Pow2(n) > 0
  {
    if n > 0 {
      Pow2Sum(m, n - 1);
      assert Pow2(m) * Pow2(n) == 2 * (Pow2(m) * Pow2(n - 1));
    }
  }

  lemma DivModIs(n: int, d: int, q: int, r: int)
    requires n == q * d + r && 0 <= r < d
    ensures n / d == q && n % d == r
  {
    QuotientUnique(n, d, q, r);
  }

  // ---- regrouping ----------------------------------------------------------------------

  // The buffer's low bits are the bits not yet given out; what lies above them is stale.
  ghost predicate Pending(b: seq<bool>, buf: nat, count: nat) {
    |b| == count && Pow2(count) > 0 && buf % Pow2(count) == FromBits(b)
  }

  lemma ModOfMod(x: nat, d: nat, k: nat)
    requires d > 0 && k > 0
    ensures d * k > 0 && x % (d * k) % d == x % d
  {
    MulNonZero(d, k);
    assert d * k > 0;
    var q, r := x / (d * k), x % (d * k);
    var s, t := r / d, r % d;
    assert x == (k * q + s) * d + t by {
      assert x == (d * k) * q + r && r == d * s + t;
      assert (d * k) * q == (k * q) * d;
    }
    DivModIs(x, d, k * q + s, t);
  }

  lemma ShiftedRemainder(buf: nat, c: nat, p: nat, v: nat)
    requires c > 0 && v < p
    ensures c * p > 0 && (buf * p + v) % (c * p) == (buf % c) * p + v
  {
    var q, r := buf / c, buf % c;
    assert buf * p == q * (c * p) + r * p by {
      assert buf == c * q + r;
      assert (c * q) * p == q * (c * p);
    }
    assert (r + 1) * p <= c * p;
    assert (r + 1) * p == r * p + p;
    DivModIs(buf * p + v, c * p, q, r * p + v);
  }

  lemma SplitRemainder(buf: nat, p: nat, c: nat, high: nat, low: nat)
    requires p > 0 && c > 0 && p * c > 0 && buf % (p * c) == high * c + low && high < p && low < c
    ensures buf / c % p == high && buf % c == low
  {
    var q := buf / (p * c);
    assert buf == (q * p + high) * c + low by {
      assert buf == (p * c) * q + (high * c + low);
      assert (p * c) * q == (q * p) * c;
    }
    DivModIs(buf, c, q * p + high, low);
    DivModIs(q * p + high, p, q, high);
  }

  // Taking a value in, even where the buffer's width n drops stale high bits.
  lemma ShiftIn(b: seq<bool>, buf: nat, count: nat, v: nat, w: nat, n: nat)
    requires Pending(b, buf, count) && v < Pow2(w) && count + w <= n
    ensures Pow2(n) > 0 && Pending(b + BitsOf(v, w), (buf * Pow2(w) + v) % Pow2(n), count + w)
  {
    Pow2Sum(count, w);
    Pow2Sum(count + w, n - count - w);
    ShiftedRemainder(buf, Pow2(count), Pow2(w), v);
    ModOfMod(buf * Pow2(w) + v, Pow2(count + w), Pow2(n - count - w));
    FromBitsConcat(b, BitsOf(v, w));
    FromBitsOf(v, w);
  }

  // Cutting the oldest w bits out.
  lemma CutOut(b: seq<bool>, buf: nat, count: nat, w: nat)
    requires Pending(b, buf, count) && w <= count
    ensures Pow2(count - w) > 0 && Pow2(w) > 0
    ensures buf / Pow2(count - w) % Pow2(w) == FromBits(b[..w])
    ensures Pending(b[w..], buf, count - w)
  {
    Pow2Sum(w, count - w);
    Pow2Sum(count - w, w);
    assert b == b[..w] + b[w..];
    FromBitsConcat(b[..w], b[w..]);
    FromBitsBound(b[..w]);
    FromBitsBound(b[w..]);
    SplitRemainder(buf, Pow2(w), Pow2(count - w), FromBits(b[..w]), FromBits(b[w..]));
  }

  lemma {:induction false} UnpackConcat(a: seq<int>, b: seq<int>, w: nat)
    ensures Unpack(a + b, w) == Unpack(a, w) + Unpack(b, w)
  {
    if a == [] {
      assert a + b == b;
    } else {
      assert (a + b)[1..] == a[1..] + b;
      UnpackConcat(a[1..], b, w);
    }
  }

  lemma UnpackPush(vs: seq<int>, v: int, w: nat)
    ensures Unpack(vs + [v], w) == Unpack(vs, w) + BitsOf(v, w)
  {
    UnpackConcat(vs, [v], w);
    assert Unpack([v], w) == BitsOf(v, w);
  }

  lemma BytesFit(data: seq<Byte>)
    ensures Fits(data, 8)
  {
    assert Pow2(8) == 256;
  }

  lemma FitsCons(v: nat, vs: seq<int>, w: nat)
    requires Fits(vs, w) && v < Pow2(w)
    ensures Fits([v] + vs, w)
  {
  }

  lemma FitsPush(vs: seq<int>, v: nat, w: nat)
    requires Fits(vs, w) && v < Pow2(w)
    ensures Fits(vs + [v], w)
  {
  }

  lemma UnpackSnoc(vs: seq<int>, j: nat, w: nat)
    requires j < |vs|
    ensures Unpack(vs[..j + 1], w) == Unpack(vs[..j], w) + BitsOf(vs[j], w)
  {
    assert vs[..j + 1] == vs[..j] + [vs[j]];
    UnpackPush(vs[..j], vs[j], w);
  }

  // The bits taken in are those given out followed by the pending ones.
  ghost predicate Regrouping(all: seq<bool>, r: seq<nat>, out: nat, rest: seq<bool>) {
    all == Unpack(r, out) + rest && Fits(r, out)
  }

  ghost predicate Fits(vs: seq<int>, w: nat) {
    forall i | 0 <= i < |vs| :: 0 <= vs[i] < Pow2(w)
  }

  lemma GiveOut(all: seq<bool>, r: seq<nat>, out: nat, rest: seq<bool>)
    requires Regrouping(all, r, out, rest) && out <= |rest|
    ensures Regrouping(all, r + [FromBits(rest[..out])], out, rest[out..])
  {
    var v := FromBits(rest[..out]);
    FromBitsBound(rest[..out]);
    BitsOfFrom(rest[..out]);
    UnpackPush(r, v, out);
    FitsPush(r, v, out);
    assert rest == rest[..out] + rest[out..];
  }

  // Give out whole groups while there are any and fewer than `cap` are out.
  method Drain(ghost all: seq<bool>, given: seq<nat>, out: nat, ghost kept: seq<bool>, buf: nat, bits: nat, cap: Option<nat>)
    returns (r: seq<nat>, count: nat, ghost rest: seq<bool>)
    requires out > 0 && Pending(kept, buf, bits) && Regrouping(all, given, out, kept) && WithinCap(given, cap)
    ensures Pending(rest, buf, count) && Regrouping(all, r, out, rest) && WithinCap(r, cap)
    ensures count < out || cap == Some(|r|)
  {
    r, count, rest := given, bits, kept;
    while count >= out && cap != Some(|r|)
      invariant Pending(rest, buf, count) && Regrouping(all, r, out, rest) && WithinCap(r, cap)
    {
      CutOut(rest, buf, count, out);
      GiveOut(all, r, out, rest);
      count := count - out;
      r, rest := r + [buf / Pow2(count) % Pow2(out)], rest[out..];
    }
  }

  predicate WithinCap(r: seq<nat>, cap: Option<nat>) {
    cap.None? || |r| <= cap.value
  }

  // Values of w bits in, whole groups of `out` bits out, through an n-bit buffer; left as soon as
  // `cap` groups are out, if there is a cap.
  method Regroup(vs: seq<int>, w: nat, out: nat, n: nat, cap: Option<nat>) returns (r: seq<nat>)
    requires out > 0 && out - 1 + w <= n && Fits(vs, w)
    ensures var all := Pack(Unpack(vs, w), out);
            r == if WithinCap(all, cap) then all else all[..cap.value]
  {
    r := [];
    var buf: nat, count: nat, j := 0, 0, 0;
    ghost var rest: seq<bool> := [];
    while j < |vs| && cap != Some(|r|)
      invariant j <= |vs| && WithinCap(r, cap) && (count < out || cap == Some(|r|))
      invariant Pending(rest, buf, count) && Regrouping(Unpack(vs[..j], w), r, out, rest)
    {
      ShiftIn(rest, buf, count, vs[j], w, n);
      UnpackSnoc(vs, j, w);
      buf := (buf * Pow2(w) + vs[j]) % Pow2(n);
      r, count, rest := Drain(Unpack(vs[..j + 1], w), r, out, rest + BitsOf(vs[j], w), buf, count + w, cap);
      j := j + 1;
    }
    GroupsSoFar(vs, j, w, r, out, rest);
  }

  // The groups given out are the first of all the groups; all of them once nothing is left.
  lemma GroupsSoFar(vs: seq<int>, j: nat, w: nat, r: seq<nat>, out: nat, rest: seq<bool>)
    requires j <= |vs| && out > 0 && Regrouping(Unpack(vs[..j], w), r, out, rest)
    ensures var all := Pack(Unpack(vs, w), out);
            |r| <= |all| && r == all[..|r|] && (j == |vs| && |rest| < out ==> all == r)
  {
    var tail := rest + Unpack(vs[j..], w);
    assert vs == vs[..j] + vs[j..];
    UnpackConcat(vs[..j], vs[j..], w);
    assert Unpack(vs, w) == Unpack(r, out) + tail;
    PackUnpackRest(r, out, tail);
    if j == |vs| {
      assert tail == rest;
    }
  }

  // ---- round trips ---------------------------------------------------------------------

  lemma ConcatAssociates<T>(a: seq<T>, b: seq<T>, c: seq<T>)
    ensures a + b + c == a + (b + c)
  {
  }

  lemma FitsTail(vs: seq<int>, w: nat)
    requires vs != [] && Fits(vs, w)
    ensures Fits(vs[1..], w) && FromBits(BitsOf(vs[0], w)) == vs[0]
  {
    FromBitsOf(vs[0], w);
    assert forall i | 0 <= i < |vs| - 1 :: vs[1..][i] == vs[i + 1];
  }

  lemma PackCons(first: seq<bool>, b: seq<bool>, w: nat, v: nat, vs: seq<int>)
    requires w > 0 && |first| == w && FromBits(first) == v && Pack(b, w) == vs
    ensures Pack(first + b, w) == [v] + vs
  {
    assert (first + b)[..w] == first && (first + b)[w..] == b;
  }

  // Unpacked values pack back, whatever bits follow.
  lemma {:induction false} PackUnpackRest(vs: seq<int>, w: nat, rest: seq<bool>)
    requires w > 0 && Fits(vs, w)
    ensures Pack(Unpack(vs, w) + rest, w) == vs + Pack(rest, w)
  {
    if vs == [] {
      assert Unpack(vs, w) + rest == rest;
    } else {
      var v, tail := vs[0], vs[1..];
      var first, mid := BitsOf(v, w), Unpack(tail, w);
      FitsTail(vs, w);
      PackUnpackRest(tail, w, rest);
      PackCons(first, mid + rest, w, v, tail + Pack(rest, w));
      ConcatAssociates(first, mid, rest);
      ConcatAssociates([v], tail, Pack(rest, w));
      assert vs == [v] + tail;
    }
  }

  lemma UnpackCons(v: int, vs: seq<int>, w: nat)
    ensures Unpack([v] + vs, w) == BitsOf(v, w) + Unpack(vs, w)
  {
    assert ([v] + vs)[1..] == vs;
  }

  // Packed bits unpack back, up to the last whole group.
  lemma {:induction false} UnpackPack(b: seq<bool>, w: nat)
    requires w > 0
    ensures Unpack(Pack(b, w), w) + Leftover(b, w) == b
    decreases |b|
  {
    if |b| >= w {
      var head, tail := b[..w], b[w..];
      BitsOfFrom(head);
      UnpackPack(tail, w);
      UnpackCons(FromBits(head), Pack(tail, w), w);
      Reassemble(b, w, head, Unpack(Pack(tail, w), w), Leftover(tail, w));
    }
  }

  lemma Reassemble(b: seq<bool>, w: nat, head: seq<bool>, mid: seq<bool>, rest: seq<bool>)
    requires w <= |b| && head == b[..w] && mid + rest == b[w..]
    ensures head + mid + rest == b
  {
    assert head + mid + rest == head + (mid + rest);
  }

  lemma {:induction false} PackFits(b: seq<bool>, w: nat)
    requires w > 0
    ensures Fits(Pack(b, w), w)
    decreases |b|
  {
    if |b| >= w {
      FromBitsBound(b[..w]);
      PackFits(b[w..], w);
      FitsCons(FromBits(b[..w]), Pack(b[w..], w), w);
    }
  }
}
