/** The block tree as a value: what adding a block, choosing the tip and trimming mean,
    what every run keeps, and that trimming does not change which tip is chosen later. */
module TreeSpec {
  import opened Bytes
  import opened Reorg

  // link: the parent a node hangs from (none for the root); claimed: its header's superblock parent 0.
  datatype Info = Info(link: Option<Id>, claimed: Id, weight: int, depth: int)

  datatype Tree = Empty | Tree(root: Id, tip: Id, nodes: map<Id, Info>)

  ghost predicate ValidNode(t: Tree, x: Id)
    requires t.Tree? && t.root in t.nodes && x in t.nodes
  {
    var n := t.nodes[x];
    if x == t.root then n.link == None && n.depth == 0
    else
      && n.link == Some(n.claimed) && n.claimed in t.nodes
      && n.depth == t.nodes[n.claimed].depth + 1 && n.depth > 0
      && n.weight == t.nodes[n.claimed].weight + 1
  }

  // One tree under the root, hanging by header parents, whose tip no node outweighs.
  ghost predicate ValidTree(t: Tree) {
    t.Tree? ==>
      && t.root in t.nodes && t.tip in t.nodes
      && (forall x {:trigger ValidNode(t, x)} :: x in t.nodes ==> ValidNode(t, x))
      && (forall x :: x in t.nodes ==> t.nodes[x].weight <= t.nodes[t.tip].weight)
  }

  // ---- adding --------------------------------------------------------------------------

  function Add(t: Tree, b: Block): Tree {
    match t
    case Empty => Tree(b.id, b.id, map[b.id := Info(None, b.parent, 1, 0)])
    case Tree(root, tip, nodes) =>
      if b.id in nodes || b.parent !in nodes then t
      else
        var p := nodes[b.parent];
        var n := Info(Some(b.parent), b.parent, p.weight + 1, p.depth + 1);
        Tree(root, if tip in nodes && n.weight > nodes[tip].weight then b.id else tip, nodes[b.id := n])
  }

  // Added or already there; false for an orphan.
  predicate Accepts(t: Tree, b: Block) {
    t.Empty? || b.id in t.nodes || b.parent in t.nodes
  }

  lemma AddKeepsValid(t: Tree, b: Block)
    requires ValidTree(t)
    ensures ValidTree(Add(t, b))
  {
    var t' := Add(t, b);
    if t.Tree? && t' != t {
      assert ValidNode(t, b.parent);
      forall x | x in t'.nodes
        ensures ValidNode(t', x)
      {
        if x != b.id {
          assert ValidNode(t, x);
        }
      }
    }
  }

  // Weights are depths counted from the root's weight.
  lemma {:induction false} WeightIsDepth(t: Tree, x: Id)
    requires ValidTree(t) && t.Tree? && x in t.nodes
    ensures t.nodes[x].weight - t.nodes[x].depth == t.nodes[t.root].weight && t.nodes[x].depth >= 0
    decreases t.nodes[x].depth
  {
    assert ValidNode(t, x);
    if x != t.root {
      assert ValidNode(t, t.nodes[x].claimed);
      WeightIsDepth(t, t.nodes[x].claimed);
    }
  }

  // ---- ancestors -----------------------------------------------------------------------

  ghost predicate Descends(t: Tree, a: Id, x: Id)
    requires ValidTree(t) && t.Tree? && x in t.nodes
    decreases t.nodes[x].depth
  {
    assert ValidNode(t, x);
    if x == a then true
    else if x == t.root then false
    else
      assert ValidNode(t, t.nodes[x].claimed);
      Descends(t, a, t.nodes[x].claimed)
  }

  lemma {:induction false} DescendsDepth(t: Tree, a: Id, x: Id)
    requires ValidTree(t) && t.Tree? && x in t.nodes && Descends(t, a, x)
    ensures a in t.nodes && t.nodes[a].depth <= t.nodes[x].depth
    ensures t.nodes[a].depth == t.nodes[x].depth ==> a == x
    decreases t.nodes[x].depth
  {
    if x != a {
      assert ValidNode(t, x);
      assert ValidNode(t, t.nodes[x].claimed);
      DescendsDepth(t, a, t.nodes[x].claimed);
    }
  }

  // The k-th ancestor, or the root when there are fewer.
  ghost function Up(t: Tree, x: Id, k: nat): (a: Id)
    requires ValidTree(t) && t.Tree? && x in t.nodes
    ensures a in t.nodes && Descends(t, a, x)
    decreases k
  {
    assert ValidNode(t, x);
    if k == 0 || x == t.root then x else Up(t, t.nodes[x].claimed, k - 1)
  }

  // From the root down to x.
  ghost function Chain(t: Tree, x: Id): (c: seq<Id>)
    requires ValidTree(t) && t.Tree? && x in t.nodes
    ensures |c| == t.nodes[x].depth + 1 > 0 && c[0] == t.root && c[|c| - 1] == x
    decreases t.nodes[x].depth
  {
    assert ValidNode(t, x);
    if x == t.root then
      [x]
    else
      assert ValidNode(t, t.nodes[x].claimed);
      Chain(t, t.nodes[x].claimed) + [x]
  }

  ghost function CanonicalChain(t: Tree): seq<Id>
    requires ValidTree(t)
  {
    if t.Empty? then [] else Chain(t, t.tip)
  }

  // ---- trimming ------------------------------------------------------------------------

  // The given nodes with r as root, renumbered from depth 0; weights stay.
  function Kept(nodes: map<Id, Info>, ids: set<Id>, r: Id): map<Id, Info>
    requires ids <= nodes.Keys && r in nodes
  {
    map x | x in ids ::
      Info(if x == r then None else nodes[x].link, nodes[x].claimed, nodes[x].weight, nodes[x].depth - nodes[r].depth)
  }

  ghost function DescendantsOf(t: Tree, r: Id): set<Id>
    requires ValidTree(t) && t.Tree?
  {
    set x | x in t.nodes && Descends(t, r, x)
  }

  // Keep exactly the subtree of r.
  ghost function Subtree(t: Tree, r: Id): Tree
    requires ValidTree(t) && t.Tree? && r in t.nodes
  {
    Tree(r, t.tip, Kept(t.nodes, DescendantsOf(t, r), r))
  }

  // A negative depth keeps the tip alone, as depth 0 does.
  ghost function Trim(t: Tree, keepDepth: int): Tree
    requires ValidTree(t)
  {
    if t.Empty? then t
    else
      var r := Up(t, t.tip, if keepDepth < 0 then 0 else keepDepth);
      if r == t.root then t else Subtree(t, r)
  }

  lemma SubtreeValid(t: Tree, r: Id)
    requires ValidTree(t) && t.Tree? && Descends(t, r, t.tip)
    requires r in t.nodes
    ensures ValidTree(Subtree(t, r))
  {
    var t' := Subtree(t, r);
    forall x | x in t'.nodes
      ensures ValidNode(t', x)
    {
      assert ValidNode(t, x);
      DescendsDepth(t, r, x);
    }
  }

  lemma TrimKeepsValid(t: Tree, keepDepth: int)
    requires ValidTree(t)
    ensures ValidTree(Trim(t, keepDepth))
  {
    if t.Tree? {
      SubtreeValid(t, Up(t, t.tip, if keepDepth < 0 then 0 else keepDepth));
    }
  }

  lemma {:induction false} SubtreeChain(t: Tree, r: Id, x: Id)
    requires ValidTree(t) && t.Tree? && r in t.nodes && x in t.nodes
    requires Descends(t, r, x) && Descends(t, r, t.tip)
    ensures ValidTree(Subtree(t, r)) && x in Subtree(t, r).nodes
    ensures t.nodes[r].depth <= t.nodes[x].depth
    ensures t.nodes[r].depth >= 0
    ensures Chain(Subtree(t, r), x) == Chain(t, x)[t.nodes[r].depth..]
    decreases t.nodes[x].depth
  {
    SubtreeValid(t, r);
    DescendsDepth(t, r, x);
    WeightIsDepth(t, r);
    assert ValidNode(t, x);
    if x != r {
      assert ValidNode(t, t.nodes[x].claimed);
      SubtreeChain(t, r, t.nodes[x].claimed);
    }
  }

  lemma {:induction false} UpDepth(t: Tree, x: Id, k: nat)
    requires ValidTree(t) && t.Tree? && x in t.nodes
    ensures t.nodes[Up(t, x, k)].depth == if k < t.nodes[x].depth then t.nodes[x].depth - k else 0
    decreases k
  {
    assert ValidNode(t, x);
    WeightIsDepth(t, x);
    if k > 0 && x != t.root {
      UpDepth(t, t.nodes[x].claimed, k - 1);
    }
  }

  // Trimming to depth k leaves the last k + 1 blocks of the canonical chain, or all of a shorter one.
  lemma TrimmedChain(t: Tree, k: nat)
    requires ValidTree(t)
    ensures ValidTree(Trim(t, k))
    ensures var c := CanonicalChain(t);
            CanonicalChain(Trim(t, k)) == if |c| <= k + 1 then c else c[|c| - (k + 1)..]
  {
    TrimKeepsValid(t, k);
    if t.Tree? {
      var r := Up(t, t.tip, k);
      UpDepth(t, t.tip, k);
      if r != t.root {
        SubtreeChain(t, r, t.tip);
      } else {
        assert ValidNode(t, t.root);
      }
    }
  }

  // ---- what trimming does not change ---------------------------------------------------

  function AddAll(t: Tree, bs: seq<Block>): Tree
    decreases |bs|
  {
    if bs == [] then t else AddAll(Add(t, bs[0]), bs[1..])
  }

  // A copy of a block outside r's subtree does not hang from inside it.
  ghost predicate StaysOutside(t: Tree, r: Id, b: Block)
    requires ValidTree(t) && t.Tree?
  {
    b.id in t.nodes && !Descends(t, r, b.id) ==> b.parent in t.nodes ==> !Descends(t, r, b.parent)
  }

  // So it is with every copy that has the header of its original.
  lemma CopiesStayOutside(t: Tree, r: Id, b: Block)
    requires ValidTree(t) && t.Tree?
    requires b.id in t.nodes ==> b.parent == t.nodes[b.id].claimed && (b.id == t.root ==> b.parent !in t.nodes)
    ensures StaysOutside(t, r, b)
  {
    if b.id in t.nodes {
      assert ValidNode(t, b.id);
    }
  }

  ghost predicate AllStayOutside(t: Tree, r: Id, bs: seq<Block>)
    requires ValidTree(t) && t.Tree?
    decreases |bs|
  {
    bs != [] ==>
      && StaysOutside(t, r, bs[0])
      && (AddKeepsValid(t, bs[0]); AllStayOutside(Add(t, bs[0]), r, bs[1..]))
  }

  // At every step the tip is in r's subtree.
  ghost predicate TipStaysInside(t: Tree, r: Id, bs: seq<Block>)
    requires ValidTree(t) && t.Tree?
    decreases |bs|
  {
    && Descends(t, r, t.tip)
    && (bs != [] ==> (AddKeepsValid(t, bs[0]); TipStaysInside(Add(t, bs[0]), r, bs[1..])))
  }

  // At every step the tips are the same.
  ghost predicate TipsAgree(small: Tree, big: Tree, bs: seq<Block>)
    requires small.Tree? && big.Tree?
    decreases |bs|
  {
    small.tip == big.tip && (bs != [] ==> TipsAgree(Add(small, bs[0]), Add(big, bs[0]), bs[1..]))
  }

  // small holds the subtree of its root in big, with the same weights and the same tip.
  ghost predicate Shadows(small: Tree, big: Tree)
    requires ValidTree(big)
  {
    && big.Tree? && small.Tree? && small.root in big.nodes && small.tip == big.tip
    && small.tip in small.nodes
    && (forall x :: x in small.nodes <==> x in big.nodes && Descends(big, small.root, x))
    && (forall x :: x in small.nodes ==> small.nodes[x].weight == big.nodes[x].weight)
  }

  lemma {:induction false} DescendsAfterAdd(t: Tree, b: Block, a: Id, x: Id)
    requires ValidTree(t) && t.Tree? && x in t.nodes && ValidTree(Add(t, b)) && a in t.nodes
    ensures Descends(Add(t, b), a, x) == Descends(t, a, x)
    decreases t.nodes[x].depth
  {
    var t' := Add(t, b);
    assert ValidNode(t, x) && ValidNode(t', x);
    if x != a && x != t.root {
      assert ValidNode(t, t.nodes[x].claimed);
      DescendsAfterAdd(t, b, a, t.nodes[x].claimed);
    }
  }

  // A block keeps the tips together exactly when the tip it leads to is in the kept part; a block that
  // neither is nor hangs from a removed one is accepted or refused alike.
  lemma ShadowsAdd(small: Tree, big: Tree, b: Block)
    requires ValidTree(big) && Shadows(small, big) && StaysOutside(big, small.root, b)
    ensures ValidTree(Add(big, b)) && Add(small, b).root == small.root
    ensures var big' := Add(big, b);
            && (Descends(big', small.root, big'.tip) <==> Shadows(Add(small, b), big'))
            && (Descends(big', small.root, big'.tip) <==> Add(small, b).tip == big'.tip)
    ensures (b.id in big.nodes ==> b.id in small.nodes) && (b.parent in big.nodes ==> b.parent in small.nodes) ==>
              Accepts(small, b) == Accepts(big, b)
  {
    AddKeepsValid(big, b);
    var small', big' := Add(small, b), Add(big, b);
    forall x | x in big.nodes
      ensures Descends(big', small.root, x) == Descends(big, small.root, x)
    {
      DescendsAfterAdd(big, b, small.root, x);
    }
    if big' != big {
      assert ValidNode(big', b.id);
    }
  }

  // Main result: whatever blocks follow, a tree and its trimmed shadow select the same tip at every step
  // exactly when the tip of the tree never leaves the kept part.
  lemma {:induction false} SameTip(small: Tree, big: Tree, bs: seq<Block>)
    requires ValidTree(big) && Shadows(small, big) && AllStayOutside(big, small.root, bs)
    ensures TipsAgree(small, big, bs) <==> TipStaysInside(big, small.root, bs)
    ensures TipsAgree(small, big, bs) ==> ValidTree(AddAll(big, bs)) && Shadows(AddAll(small, bs), AddAll(big, bs))
    decreases |bs|
  {
    if bs != [] {
      ShadowsAdd(small, big, bs[0]);
      if Shadows(Add(small, bs[0]), Add(big, bs[0])) {
        SameTip(Add(small, bs[0]), Add(big, bs[0]), bs[1..]);
      } else {
        assert !TipsAgree(Add(small, bs[0]), Add(big, bs[0]), bs[1..]);
        assert !TipStaysInside(Add(big, bs[0]), small.root, bs[1..]);
      }
    }
  }

  lemma TrimSelectsSameTip(t: Tree, keepDepth: int, bs: seq<Block>)
    requires ValidTree(t) && t.Tree? && AllStayOutside(t, Trim(t, keepDepth).root, bs)
    ensures TipsAgree(Trim(t, keepDepth), t, bs) <==> TipStaysInside(t, Trim(t, keepDepth).root, bs)
    ensures TipsAgree(Trim(t, keepDepth), t, bs) ==>
              var (a, b) := (AddAll(Trim(t, keepDepth), bs), AddAll(t, bs)); a.Tree? && b.Tree? && a.tip == b.tip
  {
    var small := Trim(t, keepDepth);
    var r := Up(t, t.tip, if keepDepth < 0 then 0 else keepDepth);
    if r == t.root {
      forall x | x in t.nodes
        ensures Descends(t, t.root, x)
      {
        RootAboveAll(t, x);
      }
    }
    assert Shadows(small, t);
    SameTip(small, t, bs);
  }

  // Blocks that neither are nor hang from removed ones never lead the tip out of the kept part.
  ghost predicate AllInside(t: Tree, r: Id, bs: seq<Block>)
    requires ValidTree(t) && t.Tree?
    decreases |bs|
  {
    bs != [] ==>
      && (bs[0].id in t.nodes ==> Descends(t, r, bs[0].id))
      && (bs[0].parent in t.nodes ==> Descends(t, r, bs[0].parent))
      && (AddKeepsValid(t, bs[0]); AllInside(Add(t, bs[0]), r, bs[1..]))
  }

  lemma {:induction false} InsideKeepsTip(t: Tree, r: Id, bs: seq<Block>)
    requires ValidTree(t) && t.Tree? && r in t.nodes && Descends(t, r, t.tip) && AllInside(t, r, bs)
    ensures AllStayOutside(t, r, bs) && TipStaysInside(t, r, bs)
    decreases |bs|
  {
    if bs != [] {
      var b, t' := bs[0], Add(t, bs[0]);
      AddKeepsValid(t, b);
      DescendsAfterAdd(t, b, r, t.tip);
      if t' != t {
        assert ValidNode(t', b.id);
        DescendsAfterAdd(t, b, r, b.parent);
      }
      InsideKeepsTip(t', r, bs[1..]);
    }
  }

  lemma {:induction false} RootAboveAll(t: Tree, x: Id)
    requires ValidTree(t) && t.Tree? && x in t.nodes
    ensures Descends(t, t.root, x)
    decreases t.nodes[x].depth
  {
    assert ValidNode(t, x);
    if x != t.root {
      assert ValidNode(t, t.nodes[x].claimed);
      RootAboveAll(t, t.nodes[x].claimed);
    }
  }

  // ---- runs ----------------------------------------------------------------------------

  datatype TreeOp = AddBlock(block: Block) | TrimTo(keepDepth: int)

  // The tree after any sequence of additions and trims, from empty.
  ghost function Grown(ops: seq<TreeOp>): (t: Tree)
    ensures ValidTree(t)
  {
    if ops == [] then Empty
    else
      var t, last := Grown(ops[..|ops| - 1]), ops[|ops| - 1];
      match last
      case AddBlock(b) => AddKeepsValid(t, b); Add(t, b)
      case TrimTo(k) => TrimKeepsValid(t, k); Trim(t, k)
  }

  // Over every run: every node but the root hangs from its header's parent and below the root,
  // weight minus depth is one constant, and no node outweighs the tip.
  lemma EveryRun(ops: seq<TreeOp>, x: Id)
    requires Grown(ops).Tree? && x in Grown(ops).nodes
    ensures var t := Grown(ops);
            t.root in t.nodes && t.tip in t.nodes && Descends(t, t.root, x)
            && (x != t.root ==> t.nodes[x].link == Some(t.nodes[x].claimed) && t.nodes[x].claimed in t.nodes)
            && t.nodes[x].weight - t.nodes[x].depth == t.nodes[t.root].weight
            && t.nodes[x].weight <= t.nodes[t.tip].weight
  {
    var t := Grown(ops);
    assert ValidNode(t, x);
    WeightIsDepth(t, x);
    RootAboveAll(t, x);
  }
}
