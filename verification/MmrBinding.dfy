/**
 * What an accepted MMR proof is worth. Recomputing a proof is a walk from its leaf hash, one hash a step;
 * two walks to one root with the same sides and starts of one length have the same start, unless two
 * different inputs hashed on them collide.
 */
module MmrBinding {
  import opened Bytes
  import opened MmrSpec
  import opened Mmr

  // ---- walks ---------------------------------------------------------------------------

  // The hash met at a step, to the left or to the right of the one carried.
  datatype Step = Step(left: bool, other: seq<Byte>)

  function Input(x: seq<Byte>, s: Step): seq<Byte> {
    if s.left then s.other + x else x + s.other
  }

  function Walk(hash: Hash, x: seq<Byte>, steps: seq<Step>): seq<Byte>
    decreases |steps|
  {
    if steps == [] then x else Walk(hash, hash(Input(x, steps[0])), steps[1..])
  }

  // Everything hashed on the way.
  function Inputs(hash: Hash, x: seq<Byte>, steps: seq<Step>): set<seq<Byte>>
    decreases |steps|
  {
    if steps == [] then {} else {Input(x, steps[0])} + Inputs(hash, hash(Input(x, steps[0])), steps[1..])
  }

  // Two different byte strings with one hash, one from each set.
  ghost predicate Collide(hash: Hash, xs: set<seq<Byte>>, ys: set<seq<Byte>>) {
    exists x, y | x in xs && y in ys :: Collides(hash, x, y)
  }

  predicate SameSides(a: seq<Step>, b: seq<Step>) {
    |a| == |b| && forall i | 0 <= i < |a| :: a[i].left == b[i].left
  }

  lemma InputBinds(x: seq<Byte>, s: Step, y: seq<Byte>, t: Step)
    requires |x| == |y| && s.left == t.left && Input(x, s) == Input(y, t)
    ensures x == y
  {
    var u := Input(x, s);
    if s.left {
      assert x == u[|u| - |x|..] && y == Input(y, t)[|u| - |x|..];
    } else {
      assert x == u[..|x|] && y == Input(y, t)[..|x|];
    }
  }

  lemma Widen(hash: Hash, xs: set<seq<Byte>>, ys: set<seq<Byte>>, us: set<seq<Byte>>, vs: set<seq<Byte>>)
    requires Collide(hash, xs, ys) && xs <= us && ys <= vs
    ensures Collide(hash, us, vs)
  {
    var x, y :| x in xs && y in ys && Collides(hash, x, y);
    assert x in us && y in vs;
  }

  lemma {:induction false} WalkBinds(hash: Hash, x: seq<Byte>, a: seq<Step>, y: seq<Byte>, b: seq<Step>)
    requires |x| == |y| && SameSides(a, b) && Walk(hash, x, a) == Walk(hash, y, b)
    ensures x == y || Collide(hash, Inputs(hash, x, a), Inputs(hash, y, b))
    decreases |a|
  {
    if a != [] {
      var u, v := Input(x, a[0]), Input(y, b[0]);
      var us, vs := Inputs(hash, hash(u), a[1..]), Inputs(hash, hash(v), b[1..]);
      WalkBinds(hash, hash(u), a[1..], hash(v), b[1..]);
      if hash(u) != hash(v) {
        Widen(hash, us, vs, {u} + us, {v} + vs);
      } else if u == v {
        InputBinds(x, a[0], y, b[0]);
      } else {
        assert u in {u} + us && v in {v} + vs && Collides(hash, u, v);
      }
    }
  }

  lemma {:induction false} WalkConcat(hash: Hash, x: seq<Byte>, a: seq<Step>, b: seq<Step>)
    ensures Walk(hash, x, a + b) == Walk(hash, Walk(hash, x, a), b)
    decreases |a|
  {
    if a == [] {
      assert a + b == b;
    } else {
      assert (a + b)[1..] == a[1..] + b;
      WalkConcat(hash, hash(Input(x, a[0])), a[1..], b);
    }
  }

  // ---- the walk of a proof -------------------------------------------------------------

  // Up the siblings, on the sides the entry's parity says; then past the bagged peaks to the left, if
  // there are any, and past each peak to the right.
  function Steps(hash: Hash, p: MmrProof): seq<Step> {
    Turns(p.entry, p.siblings) + LeftStep(hash, p.leftPeaks) + RightSteps(p.rightPeaks)
  }

  function Turns(entry: nat, siblings: seq<MmrData>): seq<Step>
    decreases |siblings|
  {
    if siblings == [] then [] else [Step(entry % 2 == 1, siblings[0].data)] + Turns(entry / 2, siblings[1..])
  }

  function LeftStep(hash: Hash, peaks: seq<MmrData>): seq<Step> {
    if peaks == [] then [] else [Step(true, Bag(hash, peaks).data)]
  }

  function RightSteps(peaks: seq<MmrData>): seq<Step> {
    seq(|peaks|, i requires 0 <= i < |peaks| => Step(false, peaks[i].data))
  }

  lemma {:induction false} ClimbIsWalk(hash: Hash, x: MmrData, entry: nat, siblings: seq<MmrData>)
    ensures Climb(hash, x, entry, siblings).data == Walk(hash, x.data, Turns(entry, siblings))
    decreases |siblings|
  {
    if siblings != [] {
      var up := if entry % 2 == 0 then Combine(hash, x, siblings[0]) else Combine(hash, siblings[0], x);
      ClimbIsWalk(hash, up, entry / 2, siblings[1..]);
      assert Turns(entry, siblings)[1..] == Turns(entry / 2, siblings[1..]);
    }
  }

  lemma OneStep(hash: Hash, x: seq<Byte>, s: Step)
    ensures Walk(hash, x, [s]) == hash(Input(x, s)) && Inputs(hash, x, [s]) == {Input(x, s)}
  {
    assert [s][1..] == [];
    assert Walk(hash, hash(Input(x, s)), []) == hash(Input(x, s));
    assert Inputs(hash, hash(Input(x, s)), []) == {};
  }

  lemma LeftIsStep(hash: Hash, left: seq<MmrData>, peak: MmrData)
    ensures Bag(hash, left + [peak]).data == Walk(hash, peak.data, LeftStep(hash, left))
  {
    if left == [] {
      assert left + [peak] == [peak];
    } else {
      BagAppend(hash, left, peak);
      OneStep(hash, peak.data, Step(true, Bag(hash, left).data));
    }
  }

  lemma {:induction false} RightAreSteps(hash: Hash, bagged: seq<MmrData>, right: seq<MmrData>)
    requires bagged != []
    ensures Bag(hash, bagged + right).data == Walk(hash, Bag(hash, bagged).data, RightSteps(right))
    decreases |right|
  {
    if right == [] {
      assert bagged + right == bagged;
    } else {
      var init, last := right[..|right| - 1], right[|right| - 1];
      RightAreSteps(hash, bagged, init);
      assert bagged + right == bagged + init + [last];
      assert RightSteps(right) == RightSteps(init) + [Step(false, last.data)];
      BagAppend(hash, bagged + init, last);
      WalkConcat(hash, Bag(hash, bagged).data, RightSteps(init), [Step(false, last.data)]);
      OneStep(hash, Bag(hash, bagged + init).data, Step(false, last.data));
    }
  }

  lemma RecomputedIsWalk(hash: Hash, p: MmrProof)
    ensures Recomputed(hash, p).data == Walk(hash, p.data.data, Steps(hash, p))
  {
    var peak := Climb(hash, p.data, p.entry, p.siblings);
    ClimbIsWalk(hash, p.data, p.entry, p.siblings);
    LeftIsStep(hash, p.leftPeaks, peak);
    RightAreSteps(hash, p.leftPeaks + [peak], p.rightPeaks);
    WalkConcat(hash, p.data.data, Turns(p.entry, p.siblings), LeftStep(hash, p.leftPeaks));
    WalkConcat(hash, p.data.data, Turns(p.entry, p.siblings) + LeftStep(hash, p.leftPeaks), RightSteps(p.rightPeaks));
  }

  // ---- what acceptance binds -----------------------------------------------------------

  // Everything hashed from a proof's leaf to its root.
  function ProofInputs(hash: Hash, p: MmrProof): set<seq<Byte>> {
    Inputs(hash, p.data.data, Steps(hash, p))
  }

  // As many steps, each on the same side.
  predicate SameShape(hash: Hash, p: MmrProof, q: MmrProof) {
    SameSides(Steps(hash, p), Steps(hash, q))
  }

  // Main result, for siblings and peaks of any lengths.
  lemma AcceptedProofsAgree(hash: Hash, p: MmrProof, q: MmrProof)
    requires SameShape(hash, p, q) && |p.data.data| == |q.data.data|
    requires Recomputed(hash, p).data == Recomputed(hash, q).data
    ensures p.data.data == q.data.data || Collide(hash, ProofInputs(hash, p), ProofInputs(hash, q))
  {
    RecomputedIsWalk(hash, p);
    RecomputedIsWalk(hash, q);
    WalkBinds(hash, p.data.data, Steps(hash, p), q.data.data, Steps(hash, q));
  }

  // Main result: a proof accepted under a range's root, of the shape the range gives a leaf, carries that
  // leaf's hash exactly when the two hashes have one length, or else exhibits a collision.
  lemma AcceptedProofIsLeaf(hash: Hash, leaves: seq<MmrData>, leaf: nat, p: MmrProof)
    requires leaf < |leaves| && SameShape(hash, p, RangeProof(hash, leaves, leaf))
    requires Recomputed(hash, p).data == Root(hash, leaves).data
    ensures (p.data.data == leaves[leaf].data <==> |p.data.data| == |leaves[leaf].data|)
            || Collide(hash, ProofInputs(hash, p), ProofInputs(hash, RangeProof(hash, leaves, leaf)))
  {
    RangeProofRecomputes(hash, leaves, leaf);
    if |p.data.data| == |leaves[leaf].data| {
      AcceptedProofsAgree(hash, p, RangeProof(hash, leaves, leaf));
    }
  }

  // A proof with the range's entry and counts has its shape; of the peaks to the left it matters only
  // whether there are any.
  lemma CountsGiveShape(hash: Hash, p: MmrProof, q: MmrProof)
    requires p.entry == q.entry && |p.siblings| == |q.siblings| && |p.rightPeaks| == |q.rightPeaks|
    requires p.leftPeaks == [] <==> q.leftPeaks == []
    ensures SameShape(hash, p, q)
  {
    TurnsBySides(p.entry, p.siblings, q.siblings);
  }

  lemma {:induction false} TurnsBySides(entry: nat, a: seq<MmrData>, b: seq<MmrData>)
    requires |a| == |b|
    ensures |Turns(entry, a)| == |a| && SameSides(Turns(entry, a), Turns(entry, b))
    decreases |a|
  {
    if a != [] {
      TurnsBySides(entry / 2, a[1..], b[1..]);
    }
  }

  // The shape is needed: verification asks nothing of it, and with no siblings and no other peaks
  // any root is accepted as a leaf of itself, at any entry.
  lemma RootProvesItself(hash: Hash, entry: nat, root: MmrData)
    ensures Recomputed(hash, MmrProof(entry, root, [], [], [])) == root
  {
  }

  // So is the length: two leaf hashes in one are accepted in place of the first, beside an empty sibling,
  // and checking them hashes just what checking the range's own proof does.
  lemma WideLeafIsAccepted(hash: Hash, a: MmrData, b: MmrData)
    requires b.data != []
    ensures var p, q := MmrProof(0, HashOnly(a.data + b.data), [HashOnly([])], [], []), RangeProof(hash, [a, b], 0);
            && SameShape(hash, p, q) && Recomputed(hash, p).data == Root(hash, [a, b]).data
            && p.data.data != a.data && !Collide(hash, ProofInputs(hash, p), ProofInputs(hash, q))
  {
    var p, q := MmrProof(0, HashOnly(a.data + b.data), [HashOnly([])], [], []), RangeProof(hash, [a, b], 0);
    ProofOfTwo(hash, a, b);
    RangeProofRecomputes(hash, [a, b], 0);
    RecomputedIsWalk(hash, p);
    RecomputedIsWalk(hash, q);
    StepsOfOne(hash, p);
    StepsOfOne(hash, q);
    OneStep(hash, p.data.data, Step(false, []));
    OneStep(hash, a.data, Step(false, b.data));
    assert a.data + b.data + [] == a.data + b.data;
  }

  lemma StepsOfOne(hash: Hash, p: MmrProof)
    requires p.entry == 0 && |p.siblings| == 1 && p.leftPeaks == p.rightPeaks == []
    ensures Steps(hash, p) == [Step(false, p.siblings[0].data)]
  {
    assert Turns(0, p.siblings[1..]) == [];
  }

  lemma ProofOfTwo(hash: Hash, a: MmrData, b: MmrData)
    ensures RangeProof(hash, [a, b], 0) == MmrProof(0, a, [b], [], [])
  {
    var leaves := [a, b];
    assert Shift(2, 1) == 1 && Shift(2, 2) == 0 && Shift(0, 1) == Shift(0, 2) == 0;
    assert PeakRow(2, 0, 1) == 1;
    assert LocalPeakOf(2, 0) == Ancestor(0, 1);
    assert SiblingData(hash, leaves, 0, 0) == [];
    assert SiblingData(hash, leaves, 0, 1) == [NodeAt(hash, leaves, Pos(0, 1))];
    PeakPerSetBit(2, 0);
    assert SetBits(2) == 1 by { assert SetBits(1) == 1; }
  }
}
