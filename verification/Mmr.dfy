/** MMRSet and MMRProof: the stored map of nodes, updated in place, and the proofs issued from it. */
module Mmr {
  import opened Bytes
  import opened MiniNumbers
  import opened MmrSpec

  datatype MmrProof = MmrProof(entry: nat, data: MmrData, siblings: seq<MmrData>,
                               leftPeaks: seq<MmrData>, rightPeaks: seq<MmrData>)

  // What a proof recomputes: its local peak bagged between the peaks on either side.
  function Recomputed(hash: Hash, proof: MmrProof): MmrData {
    Bag(hash, proof.leftPeaks + [Climb(hash, proof.data, proof.entry, proof.siblings)] + proof.rightPeaks)
  }

  lemma {:induction false} BagAppend(hash: Hash, peaks: seq<MmrData>, next: MmrData)
    requires |peaks| > 0
    ensures Bag(hash, peaks + [next]) == Combine(hash, Bag(hash, peaks), next)
  {
    assert (peaks + [next])[..|peaks|] == peaks;
  }

  method CalculateLocalPeak(hash: Hash, proof: MmrProof) returns (current: MmrData)
    ensures current == Climb(hash, proof.data, proof.entry, proof.siblings)
  {
    current := proof.data;
    var entry := proof.entry;
    for i := 0 to |proof.siblings|
      invariant Climb(hash, current, entry, proof.siblings[i..])
             == Climb(hash, proof.data, proof.entry, proof.siblings)
    {
      var sibling := proof.siblings[i];
      assert proof.siblings[i..][1..] == proof.siblings[i + 1..];
      current := if entry % 2 == 0 then Combine(hash, current, sibling) else Combine(hash, sibling, current);
      entry := entry / 2;
    }
  }

  method CalculateProof(hash: Hash, proof: MmrProof) returns (root: MmrData)
    ensures root == Recomputed(hash, proof)
  {
    var localPeak := CalculateLocalPeak(hash, proof);
    var result := BagOnto(hash, [], None, proof.leftPeaks);
    root := if result.None? then localPeak else Combine(hash, result.value, localPeak);
    ghost var left := proof.leftPeaks + [localPeak];
    assert [] + proof.leftPeaks == proof.leftPeaks;
    if proof.leftPeaks != [] {
      BagAppend(hash, proof.leftPeaks, localPeak);
    }
    result := BagOnto(hash, left, Some(root), proof.rightPeaks);
    root := result.value;
  }

  // Folding more peaks into the bag of those already done, if any.
  method BagOnto(hash: Hash, ghost done: seq<MmrData>, start: Option<MmrData>, more: seq<MmrData>)
    returns (result: Option<MmrData>)
    requires start == if done == [] then None else Some(Bag(hash, done))
    ensures result == if done + more == [] then None else Some(Bag(hash, done + more))
  {
    result := start;
    assert done + more[..0] == done;
    for i := 0 to |more|
      invariant result == if done + more[..i] == [] then None else Some(Bag(hash, done + more[..i]))
    {
      ghost var so := done + more[..i];
      assert done + more[..i + 1] == so + [more[i]];
      if so != [] {
        BagAppend(hash, so, more[i]);
      }
      result := Some(if result.None? then more[i] else Combine(hash, result.value, more[i]));
    }
    assert more[..|more|] == more;
  }

  method VerifyProof(hash: Hash, proof: MmrProof, root: MmrData) returns (ok: bool)
    ensures ok <==> Recomputed(hash, proof).data == root.data
  {
    var computed := CalculateProof(hash, proof);
    ok := computed.data == root.data;
  }

  // Highest row first, then highest entry first.
  method SortPeaks(found: seq<Pos>) returns (sorted: seq<Pos>)
    requires forall i, j :: 0 <= i < j < |found| ==> found[i] != found[j]
    ensures Descending(sorted)
    ensures forall p :: p in sorted <==> p in found
  {
    sorted := [];
    for i := 0 to |found|
      invariant Descending(sorted)
      invariant forall p :: p in sorted <==> p in found[..i]
    {
      var p, k := found[i], 0;
      assert found[..i + 1] == found[..i] + [p];
      assert p !in found[..i];
      while k < |sorted| && Above(sorted[k], p)
        invariant k <= |sorted|
        invariant forall j :: 0 <= j < k ==> Above(sorted[j], p)
      {
        k := k + 1;
      }
      assert k < |sorted| ==> sorted[k] in sorted;
      assert forall j :: k <= j < |sorted| ==> Above(p, sorted[j]);
      sorted := sorted[..k] + [p] + sorted[k..];
    }
    assert found[..|found|] == found;
  }

  // ---- the proof of a leaf in a range --------------------------------------------------

  // The row where a leaf's stored ancestors end, seen from a row where they have not.
  function PeakRow(n: nat, leaf: nat, row: nat): (k: nat)
    requires Stored(n, Ancestor(leaf, row))
    ensures IsPeak(n, Ancestor(leaf, k))
    decreases Shift(n, row)
  {
    if Stored(n, Ancestor(leaf, row + 1)) then PeakRow(n, leaf, row + 1) else row
  }

  function LocalPeakOf(n: nat, leaf: nat): (p: Pos)
    requires leaf < n
    ensures IsPeak(n, p)
  {
    Ancestor(leaf, PeakRow(n, leaf, 0))
  }

  // The siblings on the way from a leaf up to its ancestor in row k.
  function SiblingData(hash: Hash, leaves: seq<MmrData>, leaf: nat, k: nat): (s: seq<MmrData>)
    requires Stored(|leaves|, Ancestor(leaf, k))
    ensures |s| == k
  {
    if k == 0 then []
    else
      SiblingIffParent(|leaves|, Ancestor(leaf, k - 1));
      SiblingData(hash, leaves, leaf, k - 1) + [NodeAt(hash, leaves, Sibling(Ancestor(leaf, k - 1)))]
  }

  function PeakIndex(peaks: seq<Pos>, p: Pos): (i: nat)
    requires p in peaks
    ensures i < |peaks| && peaks[i] == p
  {
    if peaks[0] == p then 0 else 1 + PeakIndex(peaks[1..], p)
  }

  function RangeProof(hash: Hash, leaves: seq<MmrData>, leaf: nat): MmrProof
    requires leaf < |leaves|
  {
    var p := LocalPeakOf(|leaves|, leaf);
    PeaksSound(|leaves|);
    var i := PeakIndex(Peaks(|leaves|), p);
    MmrProof(leaf, leaves[leaf], SiblingData(hash, leaves, leaf, p.row),
      PeakData(hash, leaves)[..i], PeakData(hash, leaves)[i + 1..])
  }

  lemma {:induction false} SiblingsClimb(hash: Hash, leaves: seq<MmrData>, leaf: nat, k: nat)
    requires leaf < |leaves| && Stored(|leaves|, Ancestor(leaf, k))
    ensures Climb(hash, leaves[leaf], leaf, SiblingData(hash, leaves, leaf, k)) == NodeAt(hash, leaves, Ancestor(leaf, k))
  {
    if k > 0 {
      var p := Ancestor(leaf, k - 1);
      SiblingIffParent(|leaves|, p);
      SiblingsClimb(hash, leaves, leaf, k - 1);
      ClimbSnoc(hash, leaves[leaf], leaf, SiblingData(hash, leaves, leaf, k - 1), NodeAt(hash, leaves, Sibling(p)));
      MergedNode(hash, leaves, p);
    }
  }

  lemma RangeProofRecomputes(hash: Hash, leaves: seq<MmrData>, leaf: nat)
    requires leaf < |leaves|
    ensures Recomputed(hash, RangeProof(hash, leaves, leaf)) == Root(hash, leaves)
  {
    var p := LocalPeakOf(|leaves|, leaf);
    PeaksSound(|leaves|);
    SiblingsClimb(hash, leaves, leaf, p.row);
    var data, i := PeakData(hash, leaves), PeakIndex(Peaks(|leaves|), p);
    PeakDataAt(hash, leaves, i);
    SplitAround(data, i);
  }

  lemma PeakDataAt(hash: Hash, leaves: seq<MmrData>, i: nat)
    requires i < |Peaks(|leaves|)|
    ensures Stored(|leaves|, Peaks(|leaves|)[i]) && PeakData(hash, leaves)[i] == NodeAt(hash, leaves, Peaks(|leaves|)[i])
  {
    PeaksSound(|leaves|);
    assert Peaks(|leaves|)[i] in Peaks(|leaves|);
  }

  lemma SplitAround(s: seq<MmrData>, i: nat)
    requires i < |s|
    ensures s == s[..i] + [s[i]] + s[i + 1..]
  {
  }

  // ---- the stored map ------------------------------------------------------------------

  // Correct everywhere except, possibly, strictly above `row` on the path of `leaf`,
  // where nodes may still be missing or stale.
  ghost predicate CorrectBelow(hash: Hash, nodes: map<Pos, MmrData>, leaves: seq<MmrData>, leaf: nat, row: nat) {
    && (forall p :: p in nodes ==> Stored(|leaves|, p))
    && (forall p {:trigger p in nodes} :: Stored(|leaves|, p) && !(p.row > row && p == Ancestor(leaf, p.row)) ==>
          p in nodes && nodes[p] == NodeAt(hash, leaves, p))
  }

  // The stored map is exactly the Merkle Mountain Range over `leaves`.
  ghost predicate Represents(hash: Hash, nodes: map<Pos, MmrData>, leaves: seq<MmrData>) {
    && (forall p :: p in nodes <==> Stored(|leaves|, p))
    && (forall p :: p in nodes ==> nodes[p] == NodeAt(hash, leaves, p))
  }

  lemma InternalNode(hash: Hash, leaves: seq<MmrData>, q: Pos, left: Pos, right: Pos)
    requires Stored(|leaves|, q) && q.row > 0
    requires left == Pos(q.row - 1, 2 * q.entry) && right == Pos(q.row - 1, 2 * q.entry + 1)
    ensures Stored(|leaves|, left) && Stored(|leaves|, right)
    ensures NodeAt(hash, leaves, q) == Combine(hash, NodeAt(hash, leaves, left), NodeAt(hash, leaves, right))
  {
    ChildrenStored(|leaves|, q);
  }

  lemma ChildrenStored(n: nat, q: Pos)
    requires Stored(n, q) && q.row > 0
    ensures Stored(n, Pos(q.row - 1, 2 * q.entry)) && Stored(n, Pos(q.row - 1, 2 * q.entry + 1))
  {
  }

  lemma MergedNode(hash: Hash, leaves: seq<MmrData>, p: Pos)
    requires Stored(|leaves|, p) && Stored(|leaves|, Sibling(p))
    ensures Stored(|leaves|, Parent(p))
    ensures NodeAt(hash, leaves, Parent(p)) ==
            if p.entry % 2 == 0 then Combine(hash, NodeAt(hash, leaves, p), NodeAt(hash, leaves, Sibling(p)))
            else Combine(hash, NodeAt(hash, leaves, Sibling(p)), NodeAt(hash, leaves, p))
  {
    SiblingIffParent(|leaves|, p);
    if p.entry % 2 == 0 {
      InternalNode(hash, leaves, Parent(p), p, Sibling(p));
    } else {
      InternalNode(hash, leaves, Parent(p), Sibling(p), p);
    }
  }

  lemma PropagateStep(hash: Hash, nodes: map<Pos, MmrData>, leaves: seq<MmrData>, leaf: nat, row: nat, next: MmrData)
    requires CorrectBelow(hash, nodes, leaves, leaf, row)
    requires Stored(|leaves|, Ancestor(leaf, row + 1))
    requires next == NodeAt(hash, leaves, Ancestor(leaf, row + 1))
    ensures CorrectBelow(hash, nodes[Ancestor(leaf, row + 1) := next], leaves, leaf, row + 1)
  {
    forall p | Stored(|leaves|, p) && !(p.row > row + 1 && p == Ancestor(leaf, p.row)) && p != Ancestor(leaf, row + 1)
      ensures p in nodes && nodes[p] == NodeAt(hash, leaves, p)
    {
      assert !(p.row > row && p == Ancestor(leaf, p.row));
    }
  }

  // The combination of a node with its sibling, in left-to-right order.
  function Merged(hash: Hash, nodes: map<Pos, MmrData>, p: Pos): MmrData
    requires p in nodes && Sibling(p) in nodes
  {
    var left := if p.entry % 2 == 0 then nodes[p] else nodes[Sibling(p)];
    var right := if p.entry % 2 == 0 then nodes[Sibling(p)] else nodes[p];
    Combine(hash, left, right)
  }

  lemma PathNodes(hash: Hash, nodes: map<Pos, MmrData>, leaves: seq<MmrData>, leaf: nat, row: nat)
    requires CorrectBelow(hash, nodes, leaves, leaf, row)
    requires Stored(|leaves|, Ancestor(leaf, row))
    ensures var p := Ancestor(leaf, row);
            && p in nodes && nodes[p] == NodeAt(hash, leaves, p)
            && (Sibling(p) in nodes <==> Stored(|leaves|, Sibling(p)))
            && (Sibling(p) in nodes ==> nodes[Sibling(p)] == NodeAt(hash, leaves, Sibling(p)))
  {
    assert Sibling(Ancestor(leaf, row)) != Ancestor(leaf, row);
  }

  lemma PropagateOnce(hash: Hash, nodes: map<Pos, MmrData>, leaves: seq<MmrData>, leaf: nat, row: nat)
    requires CorrectBelow(hash, nodes, leaves, leaf, row)
    requires Stored(|leaves|, Ancestor(leaf, row)) && Stored(|leaves|, Sibling(Ancestor(leaf, row)))
    ensures Ancestor(leaf, row) in nodes && Sibling(Ancestor(leaf, row)) in nodes
    ensures Parent(Ancestor(leaf, row)) == Ancestor(leaf, row + 1) && Stored(|leaves|, Ancestor(leaf, row + 1))
    ensures CorrectBelow(hash, nodes[Ancestor(leaf, row + 1) := Merged(hash, nodes, Ancestor(leaf, row))],
                         leaves, leaf, row + 1)
  {
    var p := Ancestor(leaf, row);
    PathNodes(hash, nodes, leaves, leaf, row);
    MergedNode(hash, leaves, p);
    assert Merged(hash, nodes, p) == NodeAt(hash, leaves, Parent(p));
    PropagateStep(hash, nodes, leaves, leaf, row, Merged(hash, nodes, p));
  }

  lemma PropagateDone(hash: Hash, nodes: map<Pos, MmrData>, leaves: seq<MmrData>, leaf: nat, row: nat)
    requires CorrectBelow(hash, nodes, leaves, leaf, row)
    requires Stored(|leaves|, Ancestor(leaf, row)) && !Stored(|leaves|, Sibling(Ancestor(leaf, row)))
    ensures Represents(hash, nodes, leaves)
  {
    SiblingIffParent(|leaves|, Ancestor(leaf, row));
    forall q | Stored(|leaves|, q) && q.row > row
      ensures q != Ancestor(leaf, q.row)
    {
      if q == Ancestor(leaf, q.row) {
        AncestorsStored(|leaves|, leaf, row + 1, q.row);
      }
    }
  }

  lemma PeaksRepresented(hash: Hash, nodes: map<Pos, MmrData>, leaves: seq<MmrData>)
    requires Represents(hash, nodes, leaves)
    ensures forall i :: 0 <= i < |Peaks(|leaves|)| ==>
              Peaks(|leaves|)[i] in nodes && nodes[Peaks(|leaves|)[i]] == PeakData(hash, leaves)[i]
  {
    PeaksSound(|leaves|);
    forall i | 0 <= i < |Peaks(|leaves|)|
      ensures Peaks(|leaves|)[i] in nodes && nodes[Peaks(|leaves|)[i]] == PeakData(hash, leaves)[i]
    {
      assert Peaks(|leaves|)[i] in Peaks(|leaves|);
    }
  }

  // Writing a new last leaf leaves everything correct but its ancestors.
  lemma AppendCorrect(hash: Hash, nodes: map<Pos, MmrData>, before: seq<MmrData>, data: MmrData)
    requires Represents(hash, nodes, before)
    ensures CorrectBelow(hash, nodes[Pos(0, |before|) := data], before + [data], |before|, 0)
  {
    var n, leaves := |before|, before + [data];
    var after := nodes[Pos(0, n) := data];
    forall p | Stored(n + 1, p) && !(p.row > 0 && p == Ancestor(n, p.row))
      ensures p in after && after[p] == NodeAt(hash, leaves, p)
    {
      if p.row > 0 || p.entry != n {
        GrowsOnPath(n, p);
        NodeLocal(hash, before, leaves, n, p);
      }
    }
    forall p | p in after
      ensures Stored(n + 1, p)
    {
      ShiftMonotone(n, n + 1, p.row);
    }
  }

  // So does replacing a leaf.
  lemma ReplaceCorrect(hash: Hash, nodes: map<Pos, MmrData>, before: seq<MmrData>, entry: nat, data: MmrData)
    requires Represents(hash, nodes, before) && entry < |before|
    ensures CorrectBelow(hash, nodes[Pos(0, entry) := data], before[entry := data], entry, 0)
  {
    var leaves, after := before[entry := data], nodes[Pos(0, entry) := data];
    forall p | Stored(|leaves|, p) && !(p.row > 0 && p == Ancestor(entry, p.row))
      ensures p in after && after[p] == NodeAt(hash, leaves, p)
    {
      if p != Pos(0, entry) {
        NodeLocal(hash, before, leaves, entry, p);
      }
    }
  }

  class MmrSet {
    const hash: Hash
    var nodes: map<Pos, MmrData>
    var leafCount: nat

    // The leaves as stored in row 0.
    ghost function Leaves(): (s: seq<MmrData>)
      reads this
      requires forall i :: 0 <= i < leafCount ==> Pos(0, i) in nodes
      ensures |s| == leafCount
    {
      seq(leafCount, i requires 0 <= i < leafCount reads this requires Pos(0, i) in nodes => nodes[Pos(0, i)])
    }

    ghost predicate Valid()
      reads this
    {
      && (forall i :: 0 <= i < leafCount ==> Pos(0, i) in nodes)
      && Represents(hash, nodes, Leaves())
    }

    constructor (hash: Hash)
      ensures Valid() && Leaves() == [] && this.hash == hash
    {
      this.hash := hash;
      nodes := map[];
      leafCount := 0;
      new;
      forall p: Pos
        ensures !Stored(0, p)
      {
        ShiftZero(0, 0, p.row);
      }
    }

    lemma RepresentsValid(leaves: seq<MmrData>)
      requires Represents(hash, nodes, leaves) && |leaves| == leafCount
      ensures Valid() && Leaves() == leaves
    {
      forall i | 0 <= i < leafCount
        ensures Pos(0, i) in nodes && nodes[Pos(0, i)] == leaves[i]
      {
        assert Stored(leafCount, Pos(0, i));
      }
      assert Leaves() == leaves;
    }

    function GetNode(p: Pos): (r: Option<MmrData>)
      reads this
    {
      if p in nodes then Some(nodes[p]) else None
    }

    method SetNode(p: Pos, data: MmrData)
      modifies this`nodes
      ensures nodes == old(nodes)[p := data]
    {
      nodes := nodes[p := data];
    }

    // Rewrites the ancestors of a leaf for as long as the sibling exists.
    method Propagate(leaf: nat, ghost leaves: seq<MmrData>)
      requires leaf < leafCount == |leaves|
      requires CorrectBelow(hash, nodes, leaves, leaf, 0)
      modifies this`nodes
      ensures Represents(hash, nodes, leaves)
    {
      var row, entry := 0, leaf;
      assert Stored(leafCount, Pos(0, leaf));
      while true
        invariant Pos(row, entry) == Ancestor(leaf, row) && Stored(leafCount, Pos(row, entry))
        invariant CorrectBelow(hash, nodes, leaves, leaf, row)
        decreases leafCount - row
      {
        var p := Pos(row, entry);
        PathNodes(hash, nodes, leaves, leaf, row);
        if GetNode(Sibling(p)).None? {
          PropagateDone(hash, nodes, leaves, leaf, row);
          break;
        }
        PropagateOnce(hash, nodes, leaves, leaf, row);
        RowBelowCount(leafCount, row + 1);
        SetNode(Parent(p), Merged(hash, nodes, p));
        row := row + 1;
        entry := entry / 2;
      }
    }

    method AddLeaf(data: MmrData) returns (entry: nat)
      requires Valid()
      modifies this
      ensures Valid() && Leaves() == old(Leaves()) + [data]
      ensures entry == old(leafCount)
    {
      ghost var before := Leaves();
      ghost var leaves := before + [data];
      entry := leafCount;
      leafCount := leafCount + 1;
      AppendCorrect(hash, nodes, before, data);
      SetNode(Pos(0, entry), data);
      Propagate(entry, leaves);
      RepresentsValid(leaves);
    }

    method UpdateLeaf(entry: nat, data: MmrData) returns (r: Result<()>)
      requires Valid()
      modifies this
      ensures Valid()
      ensures r.Ok? <==> entry < old(leafCount)
      ensures Leaves() == if r.Ok? then old(Leaves())[entry := data] else old(Leaves())
    {
      if GetNode(Pos(0, entry)).None? {
        assert !Stored(leafCount, Pos(0, entry));
        return Err("entry does not exist");
      }
      assert Stored(leafCount, Pos(0, entry));
      ghost var before := Leaves();
      ghost var leaves := before[entry := data];
      ReplaceCorrect(hash, nodes, before, entry, data);
      SetNode(Pos(0, entry), data);
      Propagate(entry, leaves);
      RepresentsValid(leaves);
      r := Ok(());
    }

    // Every stored node without a stored parent, highest row first.
    method CollectPeaks() returns (peaks: seq<Pos>)
      requires Valid()
      ensures peaks == Peaks(leafCount)
    {
      var found: seq<Pos> := [];
      var todo := nodes.Keys;
      while todo != {}
        invariant todo <= nodes.Keys
        invariant forall p :: p in found <==> p in nodes && p !in todo && IsPeak(leafCount, p)
        invariant forall i, j :: 0 <= i < j < |found| ==> found[i] != found[j]
      {
        var p :| p in todo;
        if Parent(p) !in nodes {
          found := found + [p];
        }
        todo := todo - {p};
      }
      peaks := SortPeaks(found);
      PeaksSound(leafCount);
      DescendingUnique(peaks, Peaks(leafCount));
    }

    method GetRoot() returns (root: MmrData)
      requires Valid()
      ensures root == Root(hash, Leaves())
    {
      if leafCount == 0 {
        return HashOnly([]);
      }
      var peaks := CollectPeaks();
      PeakExists(leafCount);
      PeaksRepresented(hash, nodes, Leaves());
      root := BagNodes(peaks, PeakData(hash, Leaves()));
    }

    method BagNodes(peaks: seq<Pos>, ghost data: seq<MmrData>) returns (root: MmrData)
      requires |peaks| == |data| > 0
      requires forall i :: 0 <= i < |peaks| ==> peaks[i] in nodes && nodes[peaks[i]] == data[i]
      ensures root == Bag(hash, data)
    {
      root := nodes[peaks[0]];
      for i := 1 to |peaks|
        invariant root == Bag(hash, data[..i])
      {
        assert data[..i + 1] == data[..i] + [data[i]];
        BagAppend(hash, data[..i], data[i]);
        root := Combine(hash, root, nodes[peaks[i]]);
      }
      assert data[..|peaks|] == data;
    }

    // Main result: every proof issued is the proof of its leaf in the range, and recomputes the root.
    method GetProof(leaf: nat) returns (r: Result<MmrProof>)
      requires Valid()
      ensures r.Ok? <==> leaf < leafCount
      ensures r.Ok? ==> r.value == RangeProof(hash, Leaves(), leaf)
      ensures r.Ok? ==> r.value.entry == leaf && r.value.data == Leaves()[leaf]
      ensures r.Ok? ==> Recomputed(hash, r.value) == Root(hash, Leaves())
    {
      assert Stored(leafCount, Pos(0, leaf)) <==> leaf < leafCount;
      if GetNode(Pos(0, leaf)).None? {
        return Err("leaf does not exist");
      }
      var data := nodes[Pos(0, leaf)];
      var siblings, p := CollectSiblings(leaf);
      var peaks := CollectPeaks();
      PeaksSound(leafCount);
      PeaksRepresented(hash, nodes, Leaves());
      var left, right := SplitPeaks(p, peaks, PeakData(hash, Leaves()));
      r := Ok(MmrProof(leaf, data, siblings, left, right));
      RangeProofRecomputes(hash, Leaves(), leaf);
    }

    method CollectSiblings(leaf: nat) returns (siblings: seq<MmrData>, p: Pos)
      requires Valid() && leaf < leafCount
      ensures p == LocalPeakOf(leafCount, leaf) && siblings == SiblingData(hash, Leaves(), leaf, p.row)
    {
      siblings := [];
      p := Pos(0, leaf);
      ghost var leaves := Leaves();
      assert Stored(leafCount, p);
      while true
        invariant Stored(leafCount, p) && p == Ancestor(leaf, p.row)
        invariant PeakRow(leafCount, leaf, p.row) == PeakRow(leafCount, leaf, 0)
        invariant siblings == SiblingData(hash, leaves, leaf, p.row)
        decreases leafCount - p.row
      {
        var sibNode := GetNode(Sibling(p));
        SiblingIffParent(leafCount, p);
        if sibNode.None? {
          break;
        }
        siblings := siblings + [sibNode.value];
        RowBelowCount(leafCount, p.row + 1);
        p := Pos(p.row + 1, p.entry / 2);
      }
    }

    // Peaks before the local peak go left, those after it go right.
    method SplitPeaks(own: Pos, peaks: seq<Pos>, ghost data: seq<MmrData>)
      returns (left: seq<MmrData>, right: seq<MmrData>)
      requires own in peaks && Descending(peaks) && |data| == |peaks|
      requires forall i :: 0 <= i < |peaks| ==> peaks[i] in nodes && nodes[peaks[i]] == data[i]
      ensures left == data[..PeakIndex(peaks, own)] && right == data[PeakIndex(peaks, own) + 1..]
    {
      ghost var at := PeakIndex(peaks, own);
      left, right := [], [];
      var foundOurs := false;
      for i := 0 to |peaks|
        invariant foundOurs <==> at < i
        invariant left == data[..if i <= at then i else at]
        invariant right == if i <= at then [] else data[at + 1..i]
      {
        if peaks[i] == own {
          foundOurs := true;
        } else if !foundOurs {
          left := left + [nodes[peaks[i]]];
        } else {
          right := right + [nodes[peaks[i]]];
        }
      }
      assert left == data[..at] && data[at + 1..] == data[at + 1..|peaks|];
    }
  }

  // Adding leaf n changes which nodes are stored only on the path of leaf n.
  lemma {:induction false} GrowsOnPath(n: nat, p: Pos)
    requires Stored(n + 1, p) && p != Ancestor(n, p.row)
    ensures Stored(n, p)
  {
    SuccShift(n, p.row);
  }

  lemma {:induction false} SuccShift(n: nat, row: nat)
    ensures Shift(n + 1, row) <= Shift(n, row) + 1
  {
    if row > 0 {
      SuccShift(n, row - 1);
    }
  }

  // A row that stores anything is below the leaf count, so climbing ends.
  lemma {:induction false} RowBelowCount(n: nat, row: nat)
    requires Shift(n, row) > 0
    ensures row < n
  {
    if row > 0 {
      RowBelowCount(n, row - 1);
      ShiftRowSum(n, row);
    }
  }

  lemma {:induction false} ShiftRowSum(n: nat, row: nat)
    requires Shift(n, row) > 0
    ensures Shift(n, row) + row <= n
  {
    if row > 0 {
      ShiftRowSum(n, row - 1);
    }
  }
}
