/** What a Merkle Mountain Range over a list of leaves is: which positions it stores,
    what each of them holds, where its peaks are and how they are bagged.
    Nothing here mentions the stored map; `Mmr` proves the stored map equal to this. */
module MmrSpec {
  import opened Bytes
  import opened MiniNumbers
  import opened Magnitudes

  datatype MmrData = MmrData(data: seq<Byte>, value: MiniNumber, spent: bool)

  datatype Pos = Pos(row: nat, entry: nat)

  function HashOnly(data: seq<Byte>): MmrData {
    MmrData(data, ZERO, false)
  }

  function Combine(hash: Hash, left: MmrData, right: MmrData): MmrData {
    HashOnly(hash(left.data + right.data))
  }

  // ---- positions -------------------------------------------------------------------

  // n with its low `row` bits dropped: the number of complete subtrees of height `row`
  // over n leaves, and also the entry of leaf n's ancestor in that row.
  function Shift(n: nat, row: nat): nat {
    if row == 0 then n else Shift(n, row - 1) / 2
  }

  function Pow2(k: nat): nat {
    if k == 0 then 1 else 2 * Pow2(k - 1)
  }

  predicate Stored(n: nat, p: Pos) {
    p.entry < Shift(n, p.row)
  }

  function Parent(p: Pos): Pos {
    Pos(p.row + 1, p.entry / 2)
  }

  function Sibling(p: Pos): Pos {
    Pos(p.row, if p.entry % 2 == 0 then p.entry + 1 else p.entry - 1)
  }

  function Ancestor(leaf: nat, row: nat): Pos {
    Pos(row, Shift(leaf, row))
  }

  lemma {:induction false} ShiftMonotone(m: nat, n: nat, row: nat)
    requires m <= n
    ensures Shift(m, row) <= Shift(n, row)
  {
    if row > 0 {
      ShiftMonotone(m, n, row - 1);
    }
  }

  lemma {:induction false} ShiftBound(n: nat, row: nat)
    ensures Shift(n, row) * Pow2(row) <= n < (Shift(n, row) + 1) * Pow2(row)
  {
    if row > 0 {
      ShiftBound(n, row - 1);
      HalveBound(Shift(n, row - 1), Pow2(row - 1), n);
    }
  }

  lemma HalveBound(s: nat, k: nat, n: nat)
    requires s * k <= n < (s + 1) * k
    ensures s / 2 * (2 * k) <= n < (s / 2 + 1) * (2 * k)
  {
    var h := s / 2;
    assert h * (2 * k) == (2 * h) * k;
    assert (h + 1) * (2 * k) == (2 * h + 2) * k;
    MulMono(2 * h, s, k);
    MulMono(s + 1, 2 * h + 2, k);
  }

  // The bit-shift form of "stored" is the arithmetic one: the subtree is complete.
  lemma StoredIffComplete(n: nat, p: Pos)
    ensures Stored(n, p) <==> (p.entry + 1) * Pow2(p.row) <= n
  {
    ShiftBound(n, p.row);
    var s, k := Shift(n, p.row), Pow2(p.row);
    if p.entry < s {
      MulMono(p.entry + 1, s, k);
    } else {
      MulMono(s + 1, p.entry + 1, k);
    }
  }

  // Deciding by the sibling (as the code does) is deciding by the parent.
  lemma SiblingIffParent(n: nat, p: Pos)
    requires Stored(n, p)
    ensures Stored(n, Sibling(p)) <==> Stored(n, Parent(p))
  {
  }

  lemma {:induction false} AncestorsStored(n: nat, leaf: nat, row: nat, k: nat)
    requires row <= k
    requires !Stored(n, Ancestor(leaf, row))
    ensures !Stored(n, Ancestor(leaf, k))
  {
    if row < k {
      AncestorsStored(n, leaf, row, k - 1);
    }
  }

  // ---- contents --------------------------------------------------------------------

  function NodeAt(hash: Hash, leaves: seq<MmrData>, p: Pos): MmrData
    requires Stored(|leaves|, p)
    decreases p.row
  {
    if p.row == 0 then leaves[p.entry]
    else Combine(hash, NodeAt(hash, leaves, Pos(p.row - 1, 2 * p.entry)),
                       NodeAt(hash, leaves, Pos(p.row - 1, 2 * p.entry + 1)))
  }

  lemma ChildrenOf(n: nat, p: Pos)
    requires p.row > 0 && Stored(n, p)
    ensures Stored(n, Pos(p.row - 1, 2 * p.entry)) && Stored(n, Pos(p.row - 1, 2 * p.entry + 1))
  {
  }

  lemma OffThePath(leaf: nat, p: Pos)
    requires p.row > 0 && p != Ancestor(leaf, p.row)
    ensures Pos(p.row - 1, 2 * p.entry) != Ancestor(leaf, p.row - 1) && Pos(p.row - 1, 2 * p.entry + 1) != Ancestor(leaf, p.row - 1)
  {
  }

  // A stored node depends on no leaf outside its own subtree.
  lemma {:induction false} NodeLocal(hash: Hash, a: seq<MmrData>, b: seq<MmrData>, changed: nat, p: Pos)
    requires Stored(|a|, p) && Stored(|b|, p)
    requires forall i :: 0 <= i < |a| && i < |b| && i != changed ==> a[i] == b[i]
    requires p != Ancestor(changed, p.row)
    ensures NodeAt(hash, a, p) == NodeAt(hash, b, p)
    decreases p.row
  {
    if p.row > 0 {
      ChildrenOf(|a|, p);
      ChildrenOf(|b|, p);
      OffThePath(changed, p);
      NodeLocal(hash, a, b, changed, Pos(p.row - 1, 2 * p.entry));
      NodeLocal(hash, a, b, changed, Pos(p.row - 1, 2 * p.entry + 1));
    }
  }

  // Node hashes depend only on leaf hashes, not on amounts or spent flags.
  lemma {:induction false} NodeDataFromLeafData(hash: Hash, a: seq<MmrData>, b: seq<MmrData>, p: Pos)
    requires |a| == |b| && Stored(|a|, p)
    requires forall i :: 0 <= i < |a| ==> a[i].data == b[i].data
    ensures NodeAt(hash, a, p).data == NodeAt(hash, b, p).data
    decreases p.row
  {
    if p.row > 0 {
      NodeDataFromLeafData(hash, a, b, Pos(p.row - 1, 2 * p.entry));
      NodeDataFromLeafData(hash, a, b, Pos(p.row - 1, 2 * p.entry + 1));
    }
  }

  // ---- peaks -----------------------------------------------------------------------

  predicate IsPeak(n: nat, p: Pos) {
    Stored(n, p) && !Stored(n, Parent(p))
  }

  // The peaks of the rows from `row` up, highest first, given that `row` holds c nodes.
  function PeaksFrom(c: nat, row: nat): seq<Pos> {
    if c == 0 then []
    else PeaksFrom(c / 2, row + 1) + if c % 2 == 1 then [Pos(row, c - 1)] else []
  }

  function Peaks(n: nat): seq<Pos> {
    PeaksFrom(n, 0)
  }

  predicate Above(a: Pos, b: Pos) {
    a.row > b.row || (a.row == b.row && a.entry > b.entry)
  }

  predicate Descending(s: seq<Pos>) {
    forall i, j :: 0 <= i < j < |s| ==> Above(s[i], s[j])
  }

  lemma {:induction false} PeaksFromSound(n: nat, row: nat, p: Pos)
    ensures p in PeaksFrom(Shift(n, row), row) <==> p.row >= row && IsPeak(n, p)
    decreases Shift(n, row)
  {
    var c := Shift(n, row);
    if c == 0 {
      if p.row >= row {
        ShiftZero(n, row, p.row);
      }
    } else {
      PeaksFromSound(n, row + 1, p);
      assert p.row == row && IsPeak(n, p) <==> p == Pos(row, c - 1) && c % 2 == 1;
    }
  }

  lemma {:induction false} PeaksFromDescend(c: nat, row: nat)
    ensures Descending(PeaksFrom(c, row))
    ensures forall p :: p in PeaksFrom(c, row) ==> p.row >= row
  {
    if c > 0 {
      PeaksFromDescend(c / 2, row + 1);
    }
  }

  lemma {:induction false} ShiftZero(n: nat, row: nat, k: nat)
    requires row <= k && Shift(n, row) == 0
    ensures Shift(n, k) == 0
  {
    if row < k {
      ShiftZero(n, row, k - 1);
    }
  }

  // Exactly the parentless positions, in bagging order.
  lemma PeaksSound(n: nat)
    ensures forall p :: p in Peaks(n) <==> IsPeak(n, p)
    ensures Descending(Peaks(n))
  {
    forall p: Pos
      ensures p in Peaks(n) <==> IsPeak(n, p)
    {
      PeaksFromSound(n, 0, p);
    }
    PeaksFromDescend(n, 0);
  }

  function SetBits(n: nat): nat {
    if n == 0 then 0 else n % 2 + SetBits(n / 2)
  }

  // One peak per set bit of the leaf count.
  lemma {:induction false} PeakPerSetBit(n: nat, row: nat)
    ensures |PeaksFrom(n, row)| == SetBits(n)
  {
    if n > 0 {
      PeakPerSetBit(n / 2, row + 1);
    }
  }

  lemma {:induction false} DescendingUnique(a: seq<Pos>, b: seq<Pos>)
    requires Descending(a) && Descending(b)
    requires forall p :: p in a <==> p in b
    ensures a == b
  {
    if a != [] {
      assert a[0] in b;
    }
    if b != [] {
      assert b[0] in a;
    }
    if a != [] {
      var a', b' := a[1..], b[1..];
      assert a[0] == b[0];
      forall p
        ensures p in a' <==> p in b'
      {
        assert p in a <==> p == a[0] || p in a';
        assert p in b <==> p == b[0] || p in b';
      }
      DescendingUnique(a', b');
    }
  }

  // ---- bagging and proofs ----------------------------------------------------------

  function Bag(hash: Hash, peaks: seq<MmrData>): MmrData
    requires |peaks| > 0
  {
    if |peaks| == 1 then peaks[0]
    else Combine(hash, Bag(hash, peaks[..|peaks| - 1]), peaks[|peaks| - 1])
  }

  function DataAt(hash: Hash, leaves: seq<MmrData>, ps: seq<Pos>): (s: seq<MmrData>)
    requires forall p :: p in ps ==> Stored(|leaves|, p)
    ensures |s| == |ps|
    ensures forall i :: 0 <= i < |ps| ==> Stored(|leaves|, ps[i]) && s[i] == NodeAt(hash, leaves, ps[i])
  {
    if ps == [] then [] else [NodeAt(hash, leaves, ps[0])] + DataAt(hash, leaves, ps[1..])
  }

  function PeakData(hash: Hash, leaves: seq<MmrData>): (s: seq<MmrData>)
    ensures |s| == |Peaks(|leaves|)|
  {
    PeaksSound(|leaves|);
    DataAt(hash, leaves, Peaks(|leaves|))
  }

  function Root(hash: Hash, leaves: seq<MmrData>): MmrData {
    if leaves == [] then HashOnly([])
    else
      PeakExists(|leaves|);
      Bag(hash, PeakData(hash, leaves))
  }

  lemma PeakExists(n: nat)
    requires n > 0
    ensures |Peaks(n)| > 0
  {
    PeakPerSetBit(n, 0);
    SetBitsPositive(n);
  }

  lemma {:induction false} SetBitsPositive(n: nat)
    requires n > 0
    ensures SetBits(n) > 0
  {
    if n % 2 == 0 {
      SetBitsPositive(n / 2);
    }
  }

  // Root hashes depend only on leaf hashes.
  lemma RootDataFromLeafData(hash: Hash, a: seq<MmrData>, b: seq<MmrData>)
    requires |a| == |b|
    requires forall i :: 0 <= i < |a| ==> a[i].data == b[i].data
    ensures Root(hash, a).data == Root(hash, b).data
  {
    if a != [] {
      PeakExists(|a|);
      PeaksSound(|a|);
      var ps := Peaks(|a|);
      forall i | 0 <= i < |ps|
        ensures Stored(|a|, ps[i])
        ensures PeakData(hash, a)[i].data == PeakData(hash, b)[i].data
      {
        assert ps[i] in ps;
        NodeDataFromLeafData(hash, a, b, ps[i]);
      }
      BagDataFromPeakData(hash, PeakData(hash, a), PeakData(hash, b));
    }
  }

  lemma {:induction false} BagDataFromPeakData(hash: Hash, a: seq<MmrData>, b: seq<MmrData>)
    requires |a| == |b| > 0
    requires forall i :: 0 <= i < |a| ==> a[i].data == b[i].data
    ensures Bag(hash, a).data == Bag(hash, b).data
  {
    if |a| > 1 {
      BagDataFromPeakData(hash, a[..|a| - 1], b[..|b| - 1]);
    }
  }

  // The value a sibling chain recomputes from a leaf at `entry`.
  function Climb(hash: Hash, data: MmrData, entry: nat, siblings: seq<MmrData>): MmrData
    decreases |siblings|
  {
    if siblings == [] then data
    else
      var next := if entry % 2 == 0 then Combine(hash, data, siblings[0]) else Combine(hash, siblings[0], data);
      Climb(hash, next, entry / 2, siblings[1..])
  }

  lemma {:induction false} ClimbSnoc(hash: Hash, data: MmrData, entry: nat, siblings: seq<MmrData>, next: MmrData)
    ensures Climb(hash, data, entry, siblings + [next]) ==
            (var d := Climb(hash, data, entry, siblings);
             if Shift(entry, |siblings|) % 2 == 0 then Combine(hash, d, next) else Combine(hash, next, d))
    decreases |siblings|
  {
    if siblings == [] {
      assert ([] + [next])[1..] == [];
    } else {
      var d := if entry % 2 == 0 then Combine(hash, data, siblings[0]) else Combine(hash, siblings[0], data);
      assert (siblings + [next])[1..] == siblings[1..] + [next];
      ClimbSnoc(hash, d, entry / 2, siblings[1..], next);
      ShiftHalf(entry, |siblings|);
    }
  }

  lemma {:induction false} ShiftHalf(n: nat, k: nat)
    requires k > 0
    ensures Shift(n, k) == Shift(n / 2, k - 1)
  {
    if k > 1 {
      ShiftHalf(n, k - 1);
    }
  }

  // ---- the root by its last peak -------------------------------------------------------

  // One more leaf over an even number of them is a peak of its own, hashed in last.
  lemma RootOfOneMore(hash: Hash, leaves: seq<MmrData>, d: MmrData)
    requires |leaves| % 2 == 0
    ensures Root(hash, [d]) == d
    ensures leaves != [] ==> Root(hash, leaves + [d]).data == hash(Root(hash, leaves).data + d.data)
  {
    LastPeak(hash, leaves, d);
    if leaves != [] {
      PeakExists(|leaves|);
      assert (PeakData(hash, leaves) + [d])[..|PeakData(hash, leaves)|] == PeakData(hash, leaves);
    }
    LastPeak(hash, [], d);
    assert [] + [d] == [d];
  }

  lemma LastPeak(hash: Hash, leaves: seq<MmrData>, d: MmrData)
    requires |leaves| % 2 == 0
    ensures PeakData(hash, leaves + [d]) == PeakData(hash, leaves) + [d]
  {
    var n := |leaves|;
    assert Peaks(n + 1) == Peaks(n) + [Pos(0, n)];
    PeaksSound(n);
    PeaksSound(n + 1);
    var all, was := PeakData(hash, leaves + [d]), PeakData(hash, leaves);
    forall i | 0 <= i < |was|
      ensures all[i] == was[i]
    {
      assert Peaks(n + 1)[i] == Peaks(n)[i];
      NodeLocal(hash, leaves + [d], leaves, n, Peaks(n)[i]);
    }
  }

  // Two leaves make one peak, the left hashed first.
  lemma RootOfTwo(hash: Hash, a: MmrData, b: MmrData)
    ensures Root(hash, [a, b]).data == hash(a.data + b.data)
  {
    assert PeaksFrom(1, 1) == [Pos(1, 0)] by { assert PeaksFrom(0, 2) == []; }
    assert Peaks(2) == [Pos(1, 0)];
    assert PeakData(hash, [a, b]) == [NodeAt(hash, [a, b], Pos(1, 0))];
  }
}
