/** `_build_psi_structure` and `_build_psi_layers`: leaves from chunks, the merge tree, its
    rebalancing, and the summary layers read off the tree bottom-up. */
module PsiPipeline {
  import opened PsiNodes
  import opened PsiRebalance
  import opened PsiMergeTree
  import opened PsiGraft
  import opened PsiBuilder

  function MaxChildren(maxCluster: int): (m: nat)
    ensures m >= 2 && m >= maxCluster && (m == 2 || m == maxCluster)
  {
    if maxCluster < 2 then 2 else maxCluster
  }

  ghost function Bare(leaves: seq<PsiTreeNode>): (ts: seq<Shape>)
    ensures |ts| == |leaves| && forall k :: 0 <= k < |ts| ==> ts[k] == Shape(leaves[k], [])
  {
    seq(|leaves|, k requires 0 <= k < |leaves| => Shape(leaves[k], []))
  }

  /** Leaf `k` carries the text of chunk `k` and the index `k`. */
  ghost predicate LeafTexts(leaves: seq<PsiTreeNode>, chunks: seq<string>)
    reads (set x | x in leaves)`text
  {
    |leaves| == |chunks| && forall k :: 0 <= k < |leaves| ==> leaves[k].index == k && leaves[k].text == chunks[k]
  }

  ghost predicate Unlinked(leaves: seq<PsiTreeNode>)
    reads (set x | x in leaves)`children, (set x | x in leaves)`parent
  {
    && (forall k :: 0 <= k < |leaves| ==> leaves[k].children == [] && leaves[k].parent == null)
    && (forall j, k :: 0 <= j < k < |leaves| ==> leaves[j] != leaves[k])
  }

  /** One node per chunk, numbered from 0. */
  method MakeLeaves(chunks: seq<string>) returns (leaves: seq<PsiTreeNode>)
    ensures LeafTexts(leaves, chunks) && Unlinked(leaves) && |leaves| == |chunks|
    ensures fresh(set x | x in leaves)
  {
    leaves := [];
    for i := 0 to |chunks|
      invariant |leaves| == i && LeafTexts(leaves, chunks[..i]) && Unlinked(leaves)
      invariant fresh(set x | x in leaves)
    {
      var leaf := new PsiTreeNode(i);
      leaf.text := chunks[i];
      leaves := leaves + [leaf];
    }
    assert chunks[..|chunks|] == chunks;
  }

  lemma BareInputs(leaves: seq<PsiTreeNode>)
    requires leaves != []
    requires Unlinked(leaves)
    ensures Inputs(leaves, Bare(leaves)) && NodesOf(Bare(leaves)) == set x | x in leaves
    ensures HeadSet(Bare(leaves)) == set x | x in leaves
  {
    BareNodes(leaves);
    var ts := Bare(leaves);
    forall k | 0 <= k < |ts| ensures Nodes(ts[k]) == {leaves[k]} && Separate(ts[k]) && Wired(ts[k]) { }
    forall j, k | 0 <= j < k < |ts| ensures Nodes(ts[j]) !! Nodes(ts[k]) { assert leaves[j] != leaves[k]; }
    forall x | x in leaves ensures x in HeadSet(ts) {
      var k :| 0 <= k < |leaves| && leaves[k] == x;
      assert ts[k].node == x;
    }
  }

  lemma BareNodes(leaves: seq<PsiTreeNode>)
    ensures NodesOf(Bare(leaves)) == set x | x in leaves
    ensures BranchingAll(Bare(leaves))
  {
    var ts := Bare(leaves);
    forall k | 0 <= k < |ts| ensures Nodes(ts[k]) == {leaves[k]} && Branching(ts[k]) { }
    forall x | x in leaves ensures x in NodesOf(ts) {
      var k :| 0 <= k < |leaves| && leaves[k] == x;
      assert ts[k] in ts && ts[k].node == x;
    }
  }

  lemma {:induction false} BareLeaves(leaves: seq<PsiTreeNode>)
    ensures LeavesOf(Bare(leaves)) == leaves
    decreases |leaves|
  {
    if leaves == [] {
    } else {
      var init, last := leaves[..|leaves| - 1], leaves[|leaves| - 1];
      BareLeaves(init);
      assert Bare(leaves) == Bare(init) + [Shape(last, [])];
      LeavesConcat(Bare(init), [Shape(last, [])]);
      LeavesOne(Shape(last, []));
    }
  }

  /** The finished Psi tree over `leaves`. */
  ghost predicate PsiTree(root: PsiTreeNode, t: Shape, leaves: seq<PsiTreeNode>, made: set<PsiTreeNode>, max: nat)
    reads Nodes(t)`children, Nodes(t)`parent
  {
    && t.node == root && root.parent == null && Separate(t) && Wired(t)
    && Nodes(t) == (set x | x in leaves) + made
    && multiset(Leaves(t)) == multiset(leaves)
    && Branching(t) && FanoutAtMost(t, max)
    && Numbered(made, |leaves|, |leaves| + |made|)
  }

  /** Where the finished tree comes from: the tree that was grown over the leaves, how it was grown,
      the first index after it, and the nodes that regrouping added. */
  datatype Origin = Origin(grown: Shape, growth: Growth, next: nat, extra: set<PsiTreeNode>)

  /** `t` is the tree grown over `leaves`, regrouped; the grown tree itself if no node of it has too
      many children. */
  ghost predicate Stems(t: Shape, leaves: seq<PsiTreeNode>, l: Limits, o: Oracle, max: nat, h: Origin)
    requires OracleOk(o) && LimitsOk(l) && max >= 2
  {
    && GrownAs(h.grown, Bare(leaves), |leaves|, h.next, l, o, h.growth)
    && SkeletonOf(t, h.extra) == Regrouped(h.grown, max)
    && Numbered(h.extra, h.next, h.next + NewNodes(h.grown, max))
    && (FanoutAtMost(h.grown, max) ==> t == h.grown)
  }

  /** Leaves from chunks, merge tree, rebalanced fanout. */
  method BuildPsiStructure(chunks: seq<string>, l: Limits, maxCluster: int, o: Oracle)
    returns (root: PsiTreeNode, leaves: seq<PsiTreeNode>, ghost t: Shape, ghost made: set<PsiTreeNode>,
        ghost h: Origin)
    requires chunks != [] && LimitsOk(l) && OracleOk(o)
    ensures PsiTree(root, t, leaves, made, MaxChildren(maxCluster))
    ensures Stems(t, leaves, l, o, MaxChildren(maxCluster), h)
    ensures LeafTexts(leaves, chunks) && |leaves| == |chunks| && fresh(Nodes(t)) && NoText(made)
  {
    hide Inputs, OracleOk, NodesOf, HeadSet, Nodes, Bare, PsiTree, LeavesOf, BranchingAll, LeafTexts, Unlinked,
         Stems;
    leaves := MakeLeaves(chunks);
    ghost var ts := Bare(leaves);
    BareInputs(leaves);
    assert fresh(NodesOf(ts));
    root, t, made, h := GrowTree(leaves, l, maxCluster, o, ts);
  }

  /** The merge tree over the leaves, rebalanced; a single leaf is its own tree. */
  method GrowTree(leaves: seq<PsiTreeNode>, l: Limits, maxCluster: int, o: Oracle, ghost ts: seq<Shape>)
    returns (root: PsiTreeNode, ghost t: Shape, ghost made: set<PsiTreeNode>, ghost h: Origin)
    requires Inputs(leaves, ts) && ts == Bare(leaves) && LimitsOk(l) && OracleOk(o) && leaves != []
    modifies NodesOf(ts)`children, NodesOf(ts)`parent
    ensures PsiTree(root, t, leaves, made, MaxChildren(maxCluster))
    ensures Stems(t, leaves, l, o, MaxChildren(maxCluster), h)
    ensures Nodes(t) == NodesOf(ts) + made && fresh(made) && NoText(made)
  {
    hide PsiTree, Stems, Inputs, OracleOk, Bare, MaxChildren;
    assert allocated(NodesOf(ts));
    if |leaves| == 1 {
      OneLeaf(leaves, ts, MaxChildren(maxCluster));
      OneStem(leaves, ts, l, o, MaxChildren(maxCluster));
      root, t, made, h := leaves[0], ts[0], {}, Origin(ts[0], Given, 1, {});
    } else {
      root, t, made, h := GrowMany(leaves, l, MaxChildren(maxCluster), o, ts);
    }
  }

  /** Grow the merge tree, then regroup it. */
  method GrowMany(leaves: seq<PsiTreeNode>, l: Limits, max: nat, o: Oracle, ghost ts: seq<Shape>)
    returns (root: PsiTreeNode, ghost t: Shape, ghost made: set<PsiTreeNode>, ghost h: Origin)
    requires Inputs(leaves, ts) && ts == Bare(leaves) && LimitsOk(l) && OracleOk(o) && leaves != [] && max >= 2
    modifies NodesOf(ts)`children, NodesOf(ts)`parent
    ensures PsiTree(root, t, leaves, made, max) && Stems(t, leaves, l, o, max, h)
    ensures Nodes(t) == NodesOf(ts) + made && fresh(made) && NoText(made)
  {
    hide Inputs, OracleOk, Built, NodesOf, HeadSet, Nodes, Numbered, Grafted, Separate, Wired, Covers, FanoutAtMost,
         Branching, BranchingAll, Bare, LeavesOf, Leaves, PsiTree, Stems, GrownAs, SkeletonOf, Regrouped, NewNodes,
         NoText;
    HeadsInNodes(ts);
    assert allocated(NodesOf(ts));
    var next, merges;
    ghost var t0, grown, w;
    root, next, merges, t0, grown, w := BuildFromNodes(leaves, |leaves|, l, o, ts);
    BuiltParts(root, t0, ts, grown, |leaves|, next);
    assert allocated(grown);
    var next', t1, more := Rebalance(root, max, next, t0);
    TreeReady(root, t0, ts, grown, t1, more, leaves, next, next', max);
    NoTextUnion(grown, more);
    t, made, h := t1, grown + more, Origin(t0, w, next, more);
    StemIntro(t, leaves, l, o, max, h);
  }

  lemma OneStem(leaves: seq<PsiTreeNode>, ts: seq<Shape>, l: Limits, o: Oracle, max: nat)
    requires |leaves| == 1 && ts == Bare(leaves) && OracleOk(o) && LimitsOk(l) && max >= 2
    ensures |ts| == 1 && Stems(ts[0], leaves, l, o, max, Origin(ts[0], Given, 1, {}))
  {
    GrownGiven(ts[0], 1, l, o);
    assert ts == [ts[0]] && ts[0].kids == [];
    assert SkeletonsOf([], {}) == RegroupedAll([], max);
  }

  lemma StemIntro(t: Shape, leaves: seq<PsiTreeNode>, l: Limits, o: Oracle, max: nat, h: Origin)
    requires OracleOk(o) && LimitsOk(l) && max >= 2
    requires GrownAs(h.grown, Bare(leaves), |leaves|, h.next, l, o, h.growth)
    requires SkeletonOf(t, h.extra) == Regrouped(h.grown, max)
    requires Numbered(h.extra, h.next, h.next + NewNodes(h.grown, max))
    requires FanoutAtMost(h.grown, max) ==> t == h.grown
    ensures Stems(t, leaves, l, o, max, h)
  {
  }

  lemma OneLeaf(leaves: seq<PsiTreeNode>, ts: seq<Shape>, max: nat)
    requires |leaves| == 1 && ts == Bare(leaves) && Inputs(leaves, ts)
    ensures PsiTree(leaves[0], ts[0], leaves, {}, max) && Nodes(ts[0]) == {leaves[0]}
  {
    assert ts[0] == Shape(leaves[0], []);
    assert Leaves(ts[0]) == leaves;
    assert leaves[0].parent == null by { assert ts[0].node.parent == null; }
  }

  /** Rebalancing what was built over the bare leaves gives the finished tree. */
  lemma TreeReady(root: PsiTreeNode, t0: Shape, ts: seq<Shape>, grown: set<PsiTreeNode>, t1: Shape,
                  more: set<PsiTreeNode>,
                  leaves: seq<PsiTreeNode>, next: nat, next': nat, max: nat)
    requires leaves != [] && ts == Bare(leaves)
    requires Grafted([t0], ts, grown) && Numbered(grown, |leaves|, next)
    requires Covers([t1], [t0], more) && Numbered(more, next, next')
    requires t1.node == root && root.parent == null && Separate(t1) && Wired(t1)
    requires FanoutAtMost(t1, max) && (Branching(t0) ==> Branching(t1))
    ensures PsiTree(root, t1, leaves, grown + more, max)
    ensures Nodes(t1) == NodesOf(ts) + (grown + more)
  {
    hide Separate, Wired, FanoutAtMost, Branching, Bare, SeparateAll, NodesOf, LeavesOf, FrontierOf, Leaves, Nodes,
         Numbered, BranchingAll,
         PsiTree;
    BareNodes(leaves);
    BareLeaves(leaves);
    NumberedUnion(grown, more, |leaves|, next, next');
    NumberedCount(grown + more, |leaves|, next');
    BranchingOne(t0);
    assert Nodes(t1) == NodesOf(ts) + (grown + more) && multiset(Leaves(t1)) == multiset(leaves) by {
      LeavesOne(t0);
      LeavesOne(t1);
    }
    TreeIntro(root, t1, leaves, grown + more, max);
  }

  lemma NumberedCount(made: set<PsiTreeNode>, lo: nat, hi: nat)
    requires Numbered(made, lo, hi)
    ensures hi == lo + |made|
  {
  }

  lemma TreeIntro(root: PsiTreeNode, t: Shape, leaves: seq<PsiTreeNode>, made: set<PsiTreeNode>, max: nat)
    requires t.node == root && root.parent == null && Separate(t) && Wired(t)
    requires Nodes(t) == (set x | x in leaves) + made && multiset(Leaves(t)) == multiset(leaves)
    requires Branching(t) && FanoutAtMost(t, max) && Numbered(made, |leaves|, |leaves| + |made|)
    ensures PsiTree(root, t, leaves, made, max)
  {
  }
}
