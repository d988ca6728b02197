/** Which bit of a byte string is which. */
module BitOrder {
  import opened Bytes
  import opened MmrSpec
  import opened MiniNumbers
  import opened Bits

  // Bit i of a number, counted from the lowest.
  predicate Bit(v: nat, i: nat) {
    PowerIsPositive(i);
    v / Pow2(i) % 2 == 1
  }

  lemma PowerIsPositive(i: nat)
    ensures Pow2(i) > 0
  {
    Pow2Sum(0, i);
  }

  // Bit b of value k, each value giving w, the highest first.
  lemma {:induction false} BitAt(vs: seq<int>, w: nat, k: nat, b: nat)
    requires k < |vs| && b < w && vs[k] >= 0
    ensures k * w + b < |Unpack(vs, w)|
    ensures Unpack(vs, w)[k * w + b] <==> Bit(vs[k], w - 1 - b)
  {
    if k == 0 {
      UnpackLength(vs, w);
      BitOf(vs[0], w, b);
      assert |vs| * w >= w;
    } else {
      BitAt(vs[1..], w, k - 1, b);
      assert (k - 1) * w + w == k * w;
    }
  }

  lemma {:induction false} BitOf(v: nat, w: nat, i: nat)
    requires i < w
    ensures BitsOf(v, w)[i] <==> Bit(v, w - 1 - i)
  {
    PowerIsPositive(w - 1 - i);
    if i < w - 1 {
      BitOf(v / 2, w - 1, i);
      PowerIsPositive(w - 2 - i);
      HalveThenDivide(v, Pow2(w - 2 - i));
    } else {
      assert Pow2(0) == 1;
    }
  }

  lemma HalveThenDivide(v: nat, p: nat)
    requires p > 0
    ensures v / 2 / p == v / (2 * p)
  {
    var q, r := v / 2 / p, v / 2 % p;
    assert v == q * (2 * p) + (2 * r + v % 2) by {
      assert v / 2 == p * q + r;
      assert p * q * 2 == q * (2 * p);
    }
    QuotientUnique(v, 2 * p, q, 2 * r + v % 2);
  }
}
