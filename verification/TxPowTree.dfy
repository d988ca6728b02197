/** TxPowTree: the block tree on the heap, nodes linked by parent and children pointers.
    Every method is proved equal to its meaning on values in TreeSpec. */
module TxPowTrees {
  import opened Bytes
  import opened Reorg
  import opened TreeSpec

  class TreeNode {
    const block: Block
    var parent: TreeNode?
    var children: seq<TreeNode>
    var depth: int
    var weight: int

    constructor (block: Block)
      ensures this.block == block && parent == null && children == [] && depth == 0
    {
      this.block := block;
      parent, children, depth, weight := null, [], 0, 0;
    }

    method AddChild(child: TreeNode)
      requires child != this
      modifies this`children, child`parent, child`depth
      ensures child.parent == this && child.depth == depth + 1 && children == old(children) + [child]
    {
      child.parent := this;
      child.depth := depth + 1;
      children := children + [child];
    }

    method DetachParent()
      modifies this`parent, this`depth
      ensures parent == null && depth == 0
    {
      parent := null;
      depth := 0;
    }
  }

  class TxPowTree {
    var root: TreeNode?
    var tip: TreeNode?
    var nodes: map<Id, TreeNode>
    ghost var repr: set<TreeNode>  // the live nodes

    // A node and its parent, a node and its children point at each other, and at nothing outside the tree.
    ghost predicate Linked(n: TreeNode)
      reads `nodes, `root, `repr, repr`parent, repr`children, n`parent, n`children
    {
      && n.block.id in nodes && nodes[n.block.id] == n
      && (n.parent == null <==> n == root)
      && (n.parent != null ==> n.parent in repr && n in n.parent.children && n.parent.block.id == n.block.parent)
      && (forall i :: 0 <= i < |n.children| ==> n.children[i] in repr && n.children[i].parent == n)
      && (forall i, j :: 0 <= i < j < |n.children| ==> n.children[i] != n.children[j])
    }

    ghost predicate Shape()
      reads this, repr`parent, repr`children
    {
      && (root == null <==> repr == {}) && (tip == null <==> repr == {})
      && (root != null ==> root in repr) && (tip != null ==> tip in repr)
      && (forall x :: x in nodes ==> nodes[x] in repr && nodes[x].block.id == x)
      && (forall n {:trigger Linked(n)} :: n in repr ==> Linked(n))
    }

    ghost function InfoOf(n: TreeNode): Info
      reads n`parent, n`weight, n`depth
    {
      Info(if n.parent == null then None else Some(n.parent.block.id), n.block.parent, n.weight, n.depth)
    }

    ghost function Infos(): map<Id, Info>
      requires forall x :: x in nodes ==> nodes[x] in repr
      reads `nodes, `repr, repr`parent, repr`weight, repr`depth
    {
      map x | x in nodes :: InfoOf(nodes[x])
    }

    // The tree as a value.
    ghost function Model(): Tree
      requires Shape()
      reads this, repr
    {
      if root == null then Empty else Tree(root.block.id, tip.block.id, Infos())
    }

    ghost predicate Valid()
      reads this, repr
    {
      Shape() && ValidTree(Model())
    }

    constructor ()
      ensures Valid() && Model() == Empty && repr == {}
    {
      root, tip, nodes := null, null, map[];
      repr := {};
    }

    lemma NodeFacts(n: TreeNode)
      requires Valid() && n in repr
      ensures Linked(n) && Model().Tree? && n.block.id in Model().nodes
      ensures Model().nodes[n.block.id] == InfoOf(n) && ValidNode(Model(), n.block.id)
    {
      assert Linked(n);
    }

    method AddTxPow(b: Block) returns (accepted: bool)
      requires Valid()
      modifies this, repr
      ensures Valid() && fresh(repr - old(repr))
      ensures accepted == Accepts(old(Model()), b)
      ensures Model() == Add(old(Model()), b)
    {
      ghost var t := Model();
      AddKeepsValid(t, b);
      if b.id in nodes {
        return true;
      }
      var node := new TreeNode(b);
      if root == null {
        Plant(node);
        return true;
      }
      if b.parent !in nodes {
        return false;
      }
      Grow(node, nodes[b.parent]);
      accepted := true;
    }

    method Grow(node: TreeNode, parent: TreeNode)
      requires Valid() && parent in repr && node !in repr
      requires node.block.id !in nodes && node.block.parent == parent.block.id
      requires node.parent == null && node.children == []
      modifies this, repr, node
      ensures Shape() && repr == old(repr) + {node}
      ensures Model() == Add(old(Model()), node.block)
    {
      ghost var t := Model();
      NodeFacts(parent);
      NodeFacts(tip);
      assert t == Tree(root.block.id, tip.block.id, Infos());
      assert t.nodes[t.tip].weight == tip.weight && t.nodes[node.block.parent].weight == parent.weight;
      ghost var next := Add(t, node.block);
      assert next == Tree(root.block.id, if parent.weight + 1 > tip.weight then node.block.id else tip.block.id,
                          Infos()[node.block.id := Info(Some(parent.block.id), node.block.parent,
                                                        parent.weight + 1, parent.depth + 1)]);
      Join(node, parent);
      UpdateTip(node);
      assert Infos() == next.nodes;
    }

    method Plant(node: TreeNode)
      requires Shape() && root == null && node.parent == null && node.children == [] && node.depth == 0
      modifies this, node`weight
      ensures Shape() && repr == {node} && Model() == Add(Empty, node.block)
    {
      root, tip := node, node;
      node.weight := 1;
      assert nodes == map[];
      nodes := nodes[node.block.id := node];
      repr := {node};
      assert Linked(node);
      assert Infos() == map[node.block.id := Info(None, node.block.parent, 1, 0)];
    }

    // Attaching changes no other node's record.
    method Join(node: TreeNode, parent: TreeNode)
      requires Shape() && parent in repr && node !in repr
      requires node.block.id !in nodes && node.block.parent == parent.block.id
      requires node.parent == null && node.children == []
      modifies this`nodes, this`repr, parent`children, node`parent, node`depth, node`weight
      ensures Shape() && repr == old(repr) + {node} && nodes == old(nodes)[node.block.id := node]
      ensures Infos() == old(Infos())[node.block.id := Info(Some(parent.block.id), node.block.parent,
                                                            old(parent.weight) + 1, old(parent.depth) + 1)]
      ensures node.weight == old(parent.weight) + 1 && forall n :: n in old(repr) ==> n.weight == old(n.weight)
    {
      Attach(node, parent);
    }

    method Attach(node: TreeNode, parent: TreeNode)
      requires Shape() && parent in repr && node !in repr
      requires node.block.id !in nodes && node.block.parent == parent.block.id
      requires node.parent == null && node.children == []
      modifies this`nodes, this`repr, parent`children, node`parent, node`depth, node`weight
      ensures Shape() && repr == old(repr) + {node}
      ensures nodes == old(nodes)[node.block.id := node]
      ensures node.parent == parent && node.depth == old(parent.depth) + 1 && node.weight == old(parent.weight) + 1
      ensures forall n :: n in old(repr) ==> n.parent == old(n.parent) && n.depth == old(n.depth) && n.weight == old(n.weight)
    {
      assert Linked(parent);
      parent.AddChild(node);
      node.weight := parent.weight + 1;
      nodes := nodes[node.block.id := node];
      repr := repr + {node};
      assert Linked(node);
      forall n | n in old(repr)
        ensures Linked(n)
      {
        assert old(Linked(n));
        assert node !in old(n.children);
      }
    }

    method UpdateTip(c: TreeNode)
      requires Shape() && c in repr
      modifies this`tip
      ensures Shape() && Infos() == old(Infos())
      ensures tip == if old(tip) == null || c.weight > old(tip.weight) then c else old(tip)
    {
      if tip == null || c.weight > tip.weight {
        tip := c;
      }
      assert forall n :: n in repr ==> old(Linked(n)) && Linked(n);
    }

    method CanonicalBlocks() returns (chain: seq<TreeNode>)
      requires Valid()
      ensures |chain| == |CanonicalChain(Model())|
      ensures forall i :: 0 <= i < |chain| ==> chain[i] in repr && chain[i].block.id == CanonicalChain(Model())[i]
    {
      var cur := tip;
      chain := [];
      ghost var ids: seq<Id> := [];
      while cur != null
        invariant cur != null ==> cur in repr
        invariant Named(repr, chain, ids)
        invariant CanonicalChain(Model()) == (if cur == null then [] else Upward(cur)) + ids
        decreases if cur == null then -1 else cur.depth
      {
        NodeFacts(cur);
        WeightIsDepth(Model(), cur.block.id);
        ghost var rest := Upward(cur);
        NamedCons(repr, cur, chain, ids);
        chain := [cur] + chain;
        ids := [cur.block.id] + ids;
        if cur.parent != null {
          NodeFacts(cur.parent);
          assert rest == Upward(cur.parent) + [cur.block.id];
        }
        cur := cur.parent;
      }
    }

    ghost function Upward(n: TreeNode): seq<Id>
      requires Valid() && n in repr
      reads this, repr
    {
      NodeFacts(n);
      Chain(Model(), n.block.id)
    }

    method TrimTree(keepDepth: int)
      requires Valid()
      modifies this, repr
      ensures Valid() && repr <= old(repr)
      ensures Model() == Trim(old(Model()), keepDepth)
    {
      if tip == null || root == null {
        return;
      }
      TrimKeepsValid(Model(), keepDepth);
      var newRoot := AncestorOfTip(keepDepth);
      if newRoot == root {
        return;
      }
      NodeFacts(newRoot);
      NodeFacts(root);
      TrimTo(newRoot);
    }

    method TrimTo(r: TreeNode)
      requires Valid() && r in repr && tip != null
      requires IsBelow(r, tip)
      modifies this`nodes, this`root, this`repr, repr`parent, repr`depth
      ensures Shape() && repr <= old(repr) && r.block.id in old(Infos())
      ensures old(Model()).Tree? && r.block.id in old(Model()).nodes
      ensures Model() == Subtree(old(Model()), r.block.id)
    {
      ghost var t := Model();
      var keep := CollectSubtree(r);
      KeptIds(r, keep);
      SubtreeRetainable(r, keep);
      Retain(r, keep, LinksOf());
    }

    ghost function IdsOf(keep: set<TreeNode>): set<Id>
      reads `nodes
    {
      set x | x in nodes && nodes[x] in keep
    }

    // The collected subtree, said of IDs.
    lemma KeptIds(r: TreeNode, keep: set<TreeNode>)
      requires Valid() && r in repr && keep <= repr
      requires forall n :: n in repr ==> (n in keep <==> IsBelow(r, n))
      ensures Model().Tree? && r.block.id in Model().nodes && Model().nodes == Infos()
      ensures tip in repr && (IsBelow(r, tip) ==> tip in keep)
      ensures IdsOf(keep) == DescendantsOf(Model(), r.block.id)
    {
      NodeFacts(r);
      NodeFacts(tip);
    }

    ghost predicate Retainable(r: TreeNode, keep: set<TreeNode>, g: Links)
      reads this, repr
    {
      && r in keep && tip in keep && keep <= repr
      && TreeLinks(g) && Frontier(g, r, keep, []) && keep <= g.rank.Keys
      && (forall n :: n in keep ==> n.children == g.kids[n] && n.depth == g.rank[n])
      && (forall n :: n in keep && n != r ==> n.parent != null && n.parent in keep)
      && (forall n, i :: n in keep && 0 <= i < |n.children| ==> n.children[i] in keep && n.children[i] != r)
    }

    lemma SubtreeRetainable(r: TreeNode, keep: set<TreeNode>)
      requires Valid() && r in repr && tip in keep && keep <= repr
      requires Frontier(LinksOf(), r, keep, [])
      ensures Retainable(r, keep, LinksOf())
    {
      var g := LinksOf();
      LinksAreTree();
      forall n | n in keep
        ensures n != r ==> n.parent != null && n.parent in keep
        ensures forall i :: 0 <= i < |n.children| ==> n.children[i] in keep && n.children[i] != r
      {
        KeptLinks(g, r, keep, n);
      }
    }

    // Drop everything outside keep and make r the root, at depth 0.
    method Retain(r: TreeNode, keep: set<TreeNode>, ghost g: Links)
      requires Shape() && Retainable(r, keep, g)
      modifies this`nodes, this`root, this`repr, repr`parent, repr`depth
      ensures Shape() && repr == keep && root == r
      ensures r.block.id in old(nodes) && Infos() == Kept(old(Infos()), old(IdsOf(keep)), r.block.id)
    {
      assert Linked(r);
      ghost var before, ids, was := Infos(), IdsOf(keep), nodes;
      Reroot(r, keep, g);
      forall x | x in nodes
        ensures x in ids && InfoOf(nodes[x]) == Kept(before, ids, r.block.id)[x]
      {
        var n := nodes[x];
        assert n in keep && n.block.id == x && was[x] == n;
        assert before[x] == old(InfoOf(n)) && before[r.block.id] == old(InfoOf(r));
      }
    }

    method Reroot(r: TreeNode, keep: set<TreeNode>, ghost g: Links)
      requires Shape() && Retainable(r, keep, g)
      modifies this`nodes, this`root, this`repr, repr`parent, repr`depth
      ensures Shape() && repr == keep && root == r && r.parent == null
      ensures nodes == map x | x in old(nodes) && old(nodes)[x] in keep :: old(nodes)[x]
      ensures forall n :: n in keep && n != r ==> n.parent == old(n.parent)
      ensures forall n :: n in keep ==> n.depth == old(n.depth) - old(r.depth)
    {
      assert Linked(r);
      Prune(r, keep);
      Renumber(r, g);
      assert Linked(r);
    }

    method Prune(r: TreeNode, keep: set<TreeNode>)
      requires Shape() && r in keep && keep <= repr && tip in keep
      requires forall n :: n in keep && n != r ==> n.parent != null && n.parent in keep
      requires forall n, i :: n in keep && 0 <= i < |n.children| ==> n.children[i] in keep && n.children[i] != r
      modifies this`nodes, this`root, this`repr, r`parent, r`depth
      ensures Shape() && repr == keep && root == r
      ensures nodes == map x | x in old(nodes) && old(nodes)[x] in keep :: old(nodes)[x]
      ensures forall n :: n in keep && n != r ==> n.parent == old(n.parent)
    {
      var toRemove := set x | x in nodes && nodes[x] !in keep;
      nodes := nodes - toRemove;
      r.DetachParent();
      root := r;
      repr := keep;
      forall n | n in keep
        ensures Linked(n)
      {
        assert old(Linked(n));
      }
    }

    method EnqueueChildren(queue: seq<(TreeNode, int)>, node: TreeNode, d: int) returns (all: seq<(TreeNode, int)>)
      ensures all == queue + Tagged(node.children, d)
    {
      all := queue;
      for k := 0 to |node.children|
        invariant all == queue + Tagged(node.children[..k], d)
      {
        all := all + [(node.children[k], d)];
      }
      assert node.children[..|node.children|] == node.children;
    }

    // Breadth first from r again, counting depths from 0.
    method Renumber(r: TreeNode, ghost g: Links)
      requires Shape() && root == r && TreeLinks(g) && Frontier(g, r, repr, [])
      requires forall n :: n in repr ==> n.children == g.kids[n]
      modifies repr`depth
      ensures Shape()
      ensures forall n :: n in repr ==> n.depth == Rank(g, r, n)
    {
      var queue: seq<(TreeNode, int)> := [(r, 0)];
      ghost var all, done: set<TreeNode>, waiting := repr, {}, [r];
      while queue != []
        invariant Worklist(g, r, all, done, waiting, queue)
        invariant forall n :: n in done ==> n.depth == Rank(g, r, n)
        decreases all - done
      {
        var node := queue[0].0;
        queue, waiting := NumberNext(g, r, all, done, waiting, queue, node);
        done := done + {node};
      }
      WorklistDone(g, r, all, done, waiting);
    }

    // Numbers the first waiting node and queues its children.
    method NumberNext(ghost g: Links, ghost r: TreeNode, ghost all: set<TreeNode>, ghost done: set<TreeNode>,
                      ghost waiting: seq<TreeNode>, queue: seq<(TreeNode, int)>, node: TreeNode)
      returns (rest: seq<(TreeNode, int)>, ghost left: seq<TreeNode>)
      requires TreeLinks(g) && Frontier(g, r, all, []) && Worklist(g, r, all, done, waiting, queue)
      requires queue != [] && queue[0].0 == node
      requires forall n :: n in all ==> n in g.kids && n.children == g.kids[n]
      modifies node`depth
      ensures node in all && node !in done && node.depth == Rank(g, r, node)
      ensures Worklist(g, r, all, done + {node}, left, rest)
    {
      WorklistStep(g, r, all, done, waiting, queue);
      var d := queue[0].1;
      node.depth := d;
      rest := EnqueueChildren(queue[1..], node, d + 1);
      left := waiting[1..] + g.kids[node];
    }

    method AncestorOfTip(keepDepth: int) returns (newRoot: TreeNode)
      requires Valid() && tip != null
      ensures newRoot in repr && Model().Tree?
      ensures Model().tip in Model().nodes
      ensures newRoot.block.id == Up(Model(), Model().tip, if keepDepth < 0 then 0 else keepDepth)
    {
      newRoot := tip;
      NodeFacts(tip);
      var i := 0;
      while i < keepDepth
        invariant newRoot in repr && 0 <= i && (i <= keepDepth || i == 0)
        invariant newRoot.block.id in Model().nodes
        invariant Up(Model(), newRoot.block.id, if keepDepth < 0 then 0 else keepDepth - i)
               == Up(Model(), Model().tip, if keepDepth < 0 then 0 else keepDepth)
      {
        NodeFacts(newRoot);
        if newRoot.parent == null {
          break;
        }
        NodeFacts(newRoot.parent);
        newRoot := newRoot.parent;
        i := i + 1;
      }
    }

    ghost function LinksOf(): Links
      requires Shape()
      reads this, repr
    {
      Links(map n | n in repr :: n.children, map n | n in repr :: n.parent, map n | n in repr :: n.depth)
    }

    lemma LinksAreTree()
      requires Valid()
      ensures TreeLinks(LinksOf())
    {
      forall n, i | n in repr && 0 <= i < |n.children|
        ensures n.children[i] in repr && n.children[i].parent == n && n.children[i].depth == n.depth + 1
      {
        NodeFacts(n);
        NodeFacts(n.children[i]);
      }
      forall n | n in repr
        ensures Linked(n)
      {
      }
    }

    ghost predicate IsBelow(r: TreeNode, n: TreeNode)
      requires Valid() && r in repr && n in repr
      reads this, repr
    {
      NodeFacts(n);
      Descends(Model(), r.block.id, n.block.id)
    }

    // Breadth first from r: everything that descends from it, and nothing else.
    method CollectSubtree(r: TreeNode) returns (keep: set<TreeNode>)
      requires Valid() && r in repr
      ensures keep <= repr && Frontier(LinksOf(), r, keep, [])
      ensures forall n :: n in repr ==> (n in keep <==> IsBelow(r, n))
    {
      ghost var g := LinksOf();
      LinksAreTree();
      var queue := [r];
      keep := {};
      while queue != []
        invariant keep <= repr && Frontier(g, r, keep, queue)
        decreases repr - keep
      {
        FrontierStep(g, r, keep, queue);
        var cur := queue[0];
        keep := keep + {cur};
        queue := WithChildren(queue[1..], cur);
      }
      KeptAreBelow(r, keep);
    }

    method WithChildren(queue: seq<TreeNode>, node: TreeNode) returns (all: seq<TreeNode>)
      ensures all == queue + node.children
    {
      all := queue;
      for k := 0 to |node.children|
        invariant all == queue + node.children[..k]
      {
        all := all + [node.children[k]];
      }
      assert node.children[..|node.children|] == node.children;
    }

    lemma KeptAreBelow(r: TreeNode, keep: set<TreeNode>)
      requires Valid() && r in repr && keep <= repr && Frontier(LinksOf(), r, keep, [])
      ensures forall n :: n in repr ==> (n in keep <==> IsBelow(r, n))
    {
      forall n | n in repr
        ensures n in keep <==> IsBelow(r, n)
      {
        KeptIsBelow(r, keep, n);
      }
    }

    lemma {:induction false} KeptIsBelow(r: TreeNode, keep: set<TreeNode>, n: TreeNode)
      requires Valid() && r in repr && n in repr && keep <= repr && Frontier(LinksOf(), r, keep, [])
      ensures n in keep <==> IsBelow(r, n)
      decreases n.depth
    {
      NodeFacts(n);
      NodeFacts(r);
      if n != r && n.parent != null {
        NodeFacts(n.parent);
        KeptIsBelow(r, keep, n.parent);
      }
    }
  }

  // ---- walking down a tree of nodes ----------------------------------------------------

  // A snapshot of the pointers and depths of a set of nodes.
  datatype Links = Links(kids: map<TreeNode, seq<TreeNode>>, up: map<TreeNode, TreeNode?>, rank: map<TreeNode, int>)

  ghost predicate TreeLinks(g: Links) {
    && g.kids.Keys == g.up.Keys == g.rank.Keys
    && (forall n, i :: n in g.kids && 0 <= i < |g.kids[n]| ==>
          g.kids[n][i] in g.kids && g.up[g.kids[n][i]] == n && g.rank[g.kids[n][i]] == g.rank[n] + 1)
    && (forall n, i, j :: n in g.kids && 0 <= i < j < |g.kids[n]| ==> g.kids[n][i] != g.kids[n][j])
  }

  ghost function Rank(g: Links, r: TreeNode, n: TreeNode): int {
    if n in g.rank && r in g.rank then g.rank[n] - g.rank[r] else 0
  }

  // Nodes paired with their depth below r.
  ghost function Paired(g: Links, r: TreeNode, nodes: seq<TreeNode>): seq<(TreeNode, int)> {
    seq(|nodes|, i requires 0 <= i < |nodes| => (nodes[i], Rank(g, r, nodes[i])))
  }

  function Tagged(nodes: seq<TreeNode>, d: int): seq<(TreeNode, int)> {
    seq(|nodes|, i requires 0 <= i < |nodes| => (nodes[i], d))
  }

  lemma PairedStep(g: Links, r: TreeNode, waiting: seq<TreeNode>)
    requires TreeLinks(g) && waiting != [] && waiting[0] in g.kids && r in g.kids
    ensures Paired(g, r, waiting[1..] + g.kids[waiting[0]])
         == Paired(g, r, waiting)[1..] + Tagged(g.kids[waiting[0]], Rank(g, r, waiting[0]) + 1)
  {
  }

  // Nodes of a set, and the IDs of their blocks.
  ghost predicate Named(all: set<TreeNode>, chain: seq<TreeNode>, ids: seq<Id>) {
    |chain| == |ids| && forall i :: 0 <= i < |chain| ==> chain[i] in all && chain[i].block.id == ids[i]
  }

  lemma NamedCons(all: set<TreeNode>, n: TreeNode, chain: seq<TreeNode>, ids: seq<Id>)
    requires n in all && Named(all, chain, ids)
    ensures Named(all, [n] + chain, [n.block.id] + ids)
  {
  }

  // A numbering worklist under way: it lists the waiting nodes, all of the tree, with their depths.
  ghost predicate Worklist(g: Links, r: TreeNode, all: set<TreeNode>, done: set<TreeNode>, waiting: seq<TreeNode>,
                           queue: seq<(TreeNode, int)>)
  {
    Frontier(g, r, done, waiting) && queue == Paired(g, r, waiting) && done <= all && forall n :: n in waiting ==> n in all
  }

  lemma WorklistStep(g: Links, r: TreeNode, all: set<TreeNode>, done: set<TreeNode>, waiting: seq<TreeNode>,
                     queue: seq<(TreeNode, int)>)
    requires TreeLinks(g) && Frontier(g, r, all, []) && Worklist(g, r, all, done, waiting, queue) && queue != []
    ensures var node := queue[0].0;
            node in all && node !in done && node in g.kids && queue[0].1 == Rank(g, r, node)
            && Worklist(g, r, all, done + {node}, waiting[1..] + g.kids[node],
                        queue[1..] + Tagged(g.kids[node], queue[0].1 + 1))
  {
    assert waiting[0] in waiting;
    FrontierStep(g, r, done, waiting);
    PairedStep(g, r, waiting);
  }

  lemma WorklistDone(g: Links, r: TreeNode, all: set<TreeNode>, done: set<TreeNode>, waiting: seq<TreeNode>)
    requires TreeLinks(g) && Frontier(g, r, all, []) && Worklist(g, r, all, done, waiting, [])
    ensures all <= done
  {
    assert |Paired(g, r, waiting)| == |waiting|;
    forall n | n in all
      ensures n in done
    {
      FrontierUnique(g, r, all, done, n);
    }
  }

  // Kept nodes keep all their children, never the new root among them, and their parent.
  lemma KeptLinks(g: Links, r: TreeNode, keep: set<TreeNode>, n: TreeNode)
    requires TreeLinks(g) && Frontier(g, r, keep, []) && n in keep
    ensures n in g.kids && forall i :: 0 <= i < |g.kids[n]| ==> g.kids[n][i] in keep && g.kids[n][i] != r
    ensures n != r ==> g.up[n] != null && g.up[n] in keep
  {
    assert Reached(g, r, keep, n);
    forall i | 0 <= i < |g.kids[n]|
      ensures g.kids[n][i] in keep && g.kids[n][i] != r
    {
      assert g.kids[n][i] in keep && g.rank[g.kids[n][i]] == g.rank[n] + 1;
    }
  }

  // n is r or hangs from a visited node, no higher than r.
  ghost predicate Reached(g: Links, r: TreeNode, done: set<TreeNode>, n: TreeNode)
    requires g.kids.Keys == g.up.Keys == g.rank.Keys && r in g.kids
  {
    && n in g.kids && g.rank[r] <= g.rank[n]
    && (n != r ==> g.up[n] != null && g.up[n] in done && g.up[n] in g.kids && n in g.kids[g.up[n]])
  }

  // done was visited and queue waits: together they are closed downwards from r and upwards to r.
  ghost predicate Frontier(g: Links, r: TreeNode, done: set<TreeNode>, queue: seq<TreeNode>) {
    && g.kids.Keys == g.up.Keys == g.rank.Keys && r in g.kids
    && (r in done || r in queue)
    && (forall n :: n in done ==> Reached(g, r, done, n))
    && (forall n :: n in queue ==> n !in done && Reached(g, r, done, n))
    && (forall i, j :: 0 <= i < j < |queue| ==> queue[i] != queue[j])
    && (forall n, i :: n in done && 0 <= i < |g.kids[n]| ==> g.kids[n][i] in done || g.kids[n][i] in queue)
  }

  // Visiting the head keeps the frontier: its children were neither visited nor waiting.
  lemma FrontierStep(g: Links, r: TreeNode, done: set<TreeNode>, queue: seq<TreeNode>)
    requires TreeLinks(g) && Frontier(g, r, done, queue) && queue != []
    ensures queue[0] in g.kids && queue[0] !in done
    ensures Frontier(g, r, done + {queue[0]}, queue[1..] + g.kids[queue[0]])
  {
    var cur := queue[0];
    assert cur in queue;
    var kids := g.kids[cur];
    forall i | 0 <= i < |kids|
      ensures kids[i] !in done && kids[i] !in queue
    {
      assert g.up[kids[i]] == cur && g.rank[kids[i]] == g.rank[cur] + 1;
    }
    assert queue == [cur] + queue[1..];
    assert forall n :: n in queue <==> n == cur || n in queue[1..];
    assert cur !in queue[1..];
  }

  // Two completed walks visited the same nodes.
  lemma {:induction false} FrontierUnique(g: Links, r: TreeNode, a: set<TreeNode>, b: set<TreeNode>, n: TreeNode)
    requires TreeLinks(g) && Frontier(g, r, a, []) && Frontier(g, r, b, []) && n in a
    ensures n in b
    decreases g.rank[n] - g.rank[r]
  {
    if n != r {
      var p := g.up[n];
      var i :| 0 <= i < |g.kids[p]| && g.kids[p][i] == n;
      FrontierUnique(g, r, a, b, p);
    }
  }
}
