/** How high the trees are: those of the exact builder, those of any builder, and those after
    rebalancing. */
module PsiHeight {
  import opened PsiForest
  import opened PsiDendrogram
  import opened PsiNodes
  import opened PsiRebalance
  import opened PsiMergeTree
  import opened PsiGraft
  import opened PsiBuilder
  import opened PsiLayers
  import opened PsiPipeline

  ghost predicate BareAll(ts: seq<Shape>) {
    forall k :: 0 <= k < |ts| ==> ts[k].kids == []
  }

  /** A node above the leaves has the node one level down in its own history as a child. */
  lemma OwnChild(f: Forest, id: nat) returns (c: nat)
    requires Valid(f) && id < |f.owner| && Level(f, id) > 0
    ensures c < |f.owner| && Parent(f, c) == id
  {
    var s := f.owner[id];
    assert f.ids[s.leaf][s.level] == id;
    c := f.ids[s.leaf][s.level - 1];
    NodeParent(f, s.leaf, s.level - 1);
  }

  /** Over bare inputs the subtree at a tree node is as high as the level of the node. */
  lemma {:induction false} HeightIsLevel(f: Forest, local: Locals, ts: seq<Shape>, id: nat)
    requires Ready(f, local, ts) && BareAll(ts) && id < |f.owner|
    ensures Height(ShapeAt(f, local, ts, id)) == Level(f, id)
    decreases Level(f, id), |f.owner| + 1
  {
    hide Valid, Parent;
    LevelZero(f, id);
    if Level(f, id) == 0 {
      assert ts[id].kids == [];
    } else {
      var c := OwnChild(f, id);
      KidHeights(f, local, ts, id, |f.owner|, c);
    }
  }

  lemma {:induction false} KidHeights(f: Forest, local: Locals, ts: seq<Shape>, id: nat, m: nat, c: nat)
    requires Ready(f, local, ts) && BareAll(ts) && id < |f.owner| && m <= |f.owner| && Level(f, id) > 0
    requires c < |f.owner| && Parent(f, c) == id
    ensures var kids := KidShapes(f, local, ts, id, m);
            (c < m ==> kids != []) && forall k :: 0 <= k < |kids| ==> Height(kids[k]) == Level(f, id) - 1
    decreases Level(f, id), m
  {
    hide Valid, Parent, ShapeAt, Height;
    if m == 0 {
    } else {
      KidHeights(f, local, ts, id, m - 1, c);
      if Parent(f, m - 1) == id {
        ParentLevel(f, m - 1);
        HeightIsLevel(f, local, ts, m - 1);
      }
    }
  }

  /** The tree that the exact builder links over leaves is as high as the rank of the root of its
      run, so at most logarithmic in the number of leaves. */
  lemma ExactHeight(t: Shape, n: nat, pairs: Pairs, names: Locals, ts: seq<Shape>, made: set<PsiTreeNode>)
    requires n > 0 && InRange(pairs, n) && BareAll(ts) && HangsAs(t, Run(n, pairs), names, ts, made)
    ensures var f := Run(n, pairs);
            Height(t) == f.rank[Root(f, 0)] && Pow2(Height(t)) <= n == |ts|
  {
    hide Labelled, Height, ShapeAt, Run;
    var f := Run(n, pairs);
    HeightIsLevel(f, names, ts, Top(f, Root(f, 0)));
    LogHeight(n, pairs, 0);
  }

  // ---------- over inputs that are trees themselves

  ghost predicate HeightsAtMost(ts: seq<Shape>, h: nat) {
    forall k :: 0 <= k < |ts| ==> Height(ts[k]) <= h
  }

  lemma {:induction false} HeightOver(f: Forest, local: Locals, ts: seq<Shape>, id: nat, h: nat)
    requires Ready(f, local, ts) && HeightsAtMost(ts, h) && id < |f.owner|
    ensures Height(ShapeAt(f, local, ts, id)) <= h + Level(f, id)
    decreases Level(f, id), |f.owner| + 1
  {
    hide Valid, Parent;
    LevelZero(f, id);
    if Level(f, id) == 0 {
    } else {
      KidsOver(f, local, ts, id, |f.owner|, h);
    }
  }

  lemma {:induction false} KidsOver(f: Forest, local: Locals, ts: seq<Shape>, id: nat, m: nat, h: nat)
    requires Ready(f, local, ts) && HeightsAtMost(ts, h) && id < |f.owner| && m <= |f.owner| && Level(f, id) > 0
    ensures HeightsAtMost(KidShapes(f, local, ts, id, m), h + Level(f, id) - 1)
    decreases Level(f, id), m
  {
    hide Valid, Parent, ShapeAt, Height;
    if m == 0 {
    } else {
      KidsOver(f, local, ts, id, m - 1, h);
      if Parent(f, m - 1) == id {
        ParentLevel(f, m - 1);
        HeightOver(f, local, ts, m - 1, h);
      }
    }
  }

  /** Joining `n` trees, as bucket roots are joined, adds at most the logarithm of `n` to the height
      of the highest. */
  lemma JoinedHeight(t: Shape, n: nat, pairs: Pairs, names: Locals, ts: seq<Shape>, made: set<PsiTreeNode>, h: nat)
    requires n > 0 && InRange(pairs, n) && HeightsAtMost(ts, h) && HangsAs(t, Run(n, pairs), names, ts, made)
    ensures var r := Run(n, pairs).rank[Root(Run(n, pairs), 0)]; Height(t) <= h + r && Pow2(r) <= n == |ts|
  {
    hide Labelled, Height, ShapeAt, Run;
    var f := Run(n, pairs);
    HeightOver(f, names, ts, Top(f, Root(f, 0)), h);
    LogHeight(n, pairs, 0);
  }

  // ---------- any tree

  lemma {:induction false} LeavesAround(ts: seq<Shape>, k: nat)
    requires k < |ts|
    ensures |LeavesOf(ts)| >= |Leaves(ts[k])| + |ts| - 1
    decreases |ts|
  {
    hide Leaves;
    if k == 0 {
      LeavesEach(ts[1..]);
    } else {
      LeavesAround(ts[1..], k - 1);
    }
  }

  lemma {:induction false} LeavesEach(ts: seq<Shape>)
    ensures |LeavesOf(ts)| >= |ts|
    decreases |ts|
  {
    hide Leaves;
    if ts == [] {
    } else {
      LeavesEach(ts[1..]);
    }
  }

  /** A tree whose internal nodes branch is lower than it has leaves. */
  lemma {:induction false} BranchingHeight(t: Shape)
    requires Branching(t)
    ensures Height(t) < |Leaves(t)|
    decreases t
  {
    if t.kids == [] {
    } else {
      var k :| 0 <= k < |t.kids| && Height(t.kids[k]) == Tallest(t.kids);
      BranchingHeight(t.kids[k]);
      LeavesAround(t.kids, k);
    }
  }

  function Power(b: nat, e: nat): nat {
    if e == 0 then 1 else b * Power(b, e - 1)
  }

  lemma {:induction false} PowerGrows(b: nat, e: nat, e': nat)
    requires b > 0 && e <= e'
    ensures 0 < Power(b, e) <= Power(b, e')
    decreases e'
  {
    if e == e' {
      if e == 0 {
      } else {
        PowerGrows(b, e - 1, e - 1);
        Scaled(b, Power(b, e - 1));
      }
    } else {
      PowerGrows(b, e, e' - 1);
      Scaled(b, Power(b, e' - 1));
    }
  }

  lemma Scaled(b: nat, p: nat)
    requires b > 0 && p > 0
    ensures b * p >= p > 0
  {
    assert (b - 1) * p >= 0;
  }

  /** And a tree of bounded fanout has no more leaves than its height allows. */
  lemma {:induction false} FanoutLeaves(t: Shape, max: nat)
    requires FanoutAtMost(t, max) && max > 0
    ensures |Leaves(t)| <= Power(max, Height(t))
    decreases t, 1
  {
    if t.kids == [] {
    } else {
      var h := Tallest(t.kids);
      FanoutLeavesOf(t.kids, max, h);
      PowerGrows(max, h, h);
      Widened(|t.kids|, max, Power(max, h));
    }
  }

  lemma Widened(n: nat, m: nat, p: nat)
    requires n <= m
    ensures n * p <= m * p
  {
    assert (m - n) * p >= 0;
  }

  lemma {:induction false} FanoutLeavesOf(ts: seq<Shape>, max: nat, h: nat)
    requires max > 0 && HeightsAtMost(ts, h) && forall k :: 0 <= k < |ts| ==> FanoutAtMost(ts[k], max)
    ensures |LeavesOf(ts)| <= |ts| * Power(max, h)
    decreases ts, 0
  {
    hide Height, Leaves, FanoutAtMost;
    if ts == [] {
    } else {
      FanoutLeaves(ts[0], max);
      PowerGrows(max, Height(ts[0]), h);
      FanoutLeavesOf(ts[1..], max, h);
      assert |ts| * Power(max, h) == Power(max, h) + |ts[1..]| * Power(max, h);
    }
  }

  /** Whatever builder made it, over whatever inputs: the height stays below the number of leaves. */
  lemma BuiltHeight(t: Shape, ts: seq<Shape>, made: set<PsiTreeNode>)
    requires Grafted([t], ts, made) && BranchingAll(ts)
    ensures Height(t) < |LeavesOf(ts)|
  {
    hide Leaves, LeavesOf, Branching, Height;
    assert [t][0] == t && Branching(t);
    LeavesOne(t);
    assert |multiset(LeavesOf([t]))| == |multiset(LeavesOf(ts))|;
    BranchingHeight(t);
  }

  /** The finished, rebalanced tree: lower than it has leaves, and high enough for them. */
  lemma FinishedHeight(root: PsiTreeNode, t: Shape, leaves: seq<PsiTreeNode>, made: set<PsiTreeNode>, max: nat)
    requires PsiTree(root, t, leaves, made, max) && max > 0
    ensures Height(t) < |leaves| <= Power(max, Height(t))
  {
    hide Leaves, Height, Wired, Separate, Numbered;
    assert |multiset(Leaves(t))| == |multiset(leaves)|;
    BranchingHeight(t);
    FanoutLeaves(t, max);
  }
}
