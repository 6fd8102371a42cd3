/** Where two leaves meet in the linked tree: the subtrees that hold both, and how high the
    lowest of them is. */
module PsiMeeting {
  import opened PsiForest
  import opened PsiDendrogram
  import opened PsiNodes
  import opened PsiRebalance
  import opened PsiMergeTree
  import opened PsiBuilder
  import opened PsiLayers
  import opened PsiHeight
  import opened PsiPipeline

  // ---------- subtrees are the shapes at tree nodes

  /** Some tree node stands for the shape `s`. */
  ghost predicate Stands(f: Forest, local: Locals, ts: seq<Shape>, s: Shape)
    requires Ready(f, local, ts)
  {
    exists c: nat :: c < |f.owner| && s == ShapeAt(f, local, ts, c)
  }

  lemma {:induction false} SubtreeStands(f: Forest, local: Locals, ts: seq<Shape>, id: nat, s: Shape)
    requires Ready(f, local, ts) && BareAll(ts) && id < |f.owner| && s in Subtrees(ShapeAt(f, local, ts, id))
    ensures Stands(f, local, ts, s)
    decreases Level(f, id), |f.owner| + 1
  {
    hide Valid, Parent;
    LevelZero(f, id);
    if Level(f, id) == 0 {
      assert ts[id].kids == [];
      assert Subtrees(ts[id]) == [ts[id]];
    } else if s != ShapeAt(f, local, ts, id) {
      KidStands(f, local, ts, id, |f.owner|, s);
    }
  }

  lemma {:induction false} KidStands(f: Forest, local: Locals, ts: seq<Shape>, id: nat, m: nat, s: Shape)
    requires Ready(f, local, ts) && BareAll(ts) && id < |f.owner| && m <= |f.owner|
    requires s in SubtreesOf(KidShapes(f, local, ts, id, m))
    ensures Stands(f, local, ts, s)
    decreases Level(f, id), m
  {
    hide Valid, Parent, ShapeAt, Stands, Subtrees;
    if m == 0 {
    } else if Parent(f, m - 1) != id {
      KidStands(f, local, ts, id, m - 1, s);
    } else {
      ParentLevel(f, m - 1);
      SubtreesSnoc(KidShapes(f, local, ts, id, m - 1), ShapeAt(f, local, ts, m - 1));
      if s in Subtrees(ShapeAt(f, local, ts, m - 1)) {
        SubtreeStands(f, local, ts, m - 1, s);
      } else {
        KidStands(f, local, ts, id, m - 1, s);
      }
    }
  }

  lemma SubtreesSnoc(ts: seq<Shape>, t: Shape)
    ensures SubtreesOf(ts + [t]) == SubtreesOf(ts) + Subtrees(t)
  {
    assert (ts + [t])[..|ts + [t]| - 1] == ts;
  }

  /** What can be climbed to is above: the shape at `c` is a subtree of the shape it climbs to. */
  lemma {:induction false} ClimbedSubtree(f: Forest, local: Locals, ts: seq<Shape>, c: nat, id: nat, k: nat)
    requires Ready(f, local, ts) && c < |f.owner| && id < |f.owner| && Climb(f, c, k) == id
    ensures ShapeAt(f, local, ts, c) in Subtrees(ShapeAt(f, local, ts, id))
    decreases k
  {
    hide Valid, ShapeAt;
    if k == 0 {
    } else {
      var b := Climb(f, c, k - 1);
      ClimbedSubtree(f, local, ts, c, b, k - 1);
      ParentSubtree(f, local, ts, b, id);
      SubtreeTrans(ShapeAt(f, local, ts, c), ShapeAt(f, local, ts, b), ShapeAt(f, local, ts, id));
    }
  }

  lemma ParentSubtree(f: Forest, local: Locals, ts: seq<Shape>, b: nat, id: nat)
    requires Ready(f, local, ts) && b < |f.owner| && id < |f.owner| && Parent(f, b) == id
    ensures ShapeAt(f, local, ts, b) in Subtrees(ShapeAt(f, local, ts, id))
  {
    hide Valid, Parent;
    ParentLevel(f, b);
    KidListed(f, local, ts, b, id, |f.owner|);
    var kids := KidShapes(f, local, ts, id, |f.owner|);
    var k :| 0 <= k < |kids| && kids[k] == ShapeAt(f, local, ts, b);
    MemberIsSubtree(kids, k);
  }

  lemma {:induction false} KidListed(f: Forest, local: Locals, ts: seq<Shape>, b: nat, id: nat, m: nat)
    requires Ready(f, local, ts) && id < |f.owner| && b < m <= |f.owner| && Parent(f, b) == id
    ensures ShapeAt(f, local, ts, b) in KidShapes(f, local, ts, id, m)
    decreases m
  {
    hide Valid, Parent, ShapeAt;
    if Parent(f, m - 1) == id { ParentLevel(f, m - 1); }
    if b < m - 1 { KidListed(f, local, ts, b, id, m - 1); }
  }

  lemma {:induction false} SubtreeTrans(a: Shape, b: Shape, c: Shape)
    requires a in Subtrees(b) && b in Subtrees(c)
    ensures a in Subtrees(c)
    decreases c, 1
  {
    if b != c { SubtreeTransOf(a, b, c.kids); }
  }

  lemma {:induction false} SubtreeTransOf(a: Shape, b: Shape, cs: seq<Shape>)
    requires a in Subtrees(b) && b in SubtreesOf(cs)
    ensures a in SubtreesOf(cs)
    decreases cs, 0
  {
    hide Subtrees;
    var init, last := cs[..|cs| - 1], cs[|cs| - 1];
    if b in SubtreesOf(init) {
      SubtreeTransOf(a, b, init);
    } else {
      SubtreeTrans(a, b, last);
    }
  }

  // ---------- which leaves a subtree holds

  /** The leaves of bare inputs are their nodes. */
  lemma {:induction false} BareHeads(ts: seq<Shape>)
    requires BareAll(ts)
    ensures LeavesOf(ts) == Heads(ts)
    decreases |ts|
  {
    if ts == [] {
    } else {
      var init, last := ts[..|ts| - 1], ts[|ts| - 1];
      assert ts == init + [last];
      BareHeads(init);
      LeavesConcat(init, [last]);
      LeavesOne(last);
      HeadsSnoc(init, last);
    }
  }

  lemma HeadsApart(ts: seq<Shape>, x: nat, y: nat)
    requires SeparateAll(ts) && x < |ts| && y < |ts|
    ensures x != y ==> ts[x].node != ts[y].node
  {
    if x < y { assert Nodes(ts[x]) !! Nodes(ts[y]); }
    if y < x { assert Nodes(ts[y]) !! Nodes(ts[x]); }
  }

  /** Input `x` is a leaf below tree node `c` exactly if it climbs to `c`. */
  lemma LeafBelow(f: Forest, local: Locals, ts: seq<Shape>, c: nat, x: nat)
    requires Ready(f, local, ts) && TwoKids(f) && BareAll(ts) && SeparateAll(ts)
    requires c < |f.owner| && x < |f.rank|
    ensures x < |f.owner|
    ensures ts[x].node in Leaves(ShapeAt(f, local, ts, c)) <==> Climb(f, x, Level(f, c)) == c
  {
    hide Labelled, Shaped, TwoKids, ShapeAt, CutIds, Leaves, LeavesOf, SeparateAll, Climb, Level;
    LeafInside(f, x);
    ShapeLeaves(f, local, ts, c);
    CutCount(f, c, x);
    var order := CutIds(f, c);
    BareHeads(Sel(ts, order));
    assert x in order <==> x in multiset(order);
    if ts[x].node in Heads(Sel(ts, order)) {
      var k :| 0 <= k < |order| && ts[order[k]].node == ts[x].node;
      HeadsApart(ts, x, order[k]);
    }
    if x in order {
      var k :| 0 <= k < |order| && order[k] == x;
      assert Heads(Sel(ts, order))[k] == ts[x].node;
    }
  }

  // ---------- the lowest common subtree

  ghost predicate Holds(s: Shape, a: PsiTreeNode, b: PsiTreeNode) {
    a in Leaves(s) && b in Leaves(s)
  }

  /** In the tree linked over leaves the two ends of a successful union have a common subtree one
      level above the lower of the two ranks that their roots had at that moment, and no lower
      one. */
  lemma MeetingHeight(t: Shape, n: nat, pairs: Pairs, names: Locals, ts: seq<Shape>, made: set<PsiTreeNode>, m: nat)
    returns (s: Shape)
    requires InRange(pairs, n) && BareAll(ts) && SeparateAll(ts) && HangsAs(t, Run(n, pairs), names, ts, made)
    requires forall x :: 0 <= x < n ==> Root(Run(n, pairs), x) == Root(Run(n, pairs), 0)
    requires m < |pairs| && !Same(Run(n, pairs[..m]), pairs[m].0, pairs[m].1)
    ensures pairs[m].0 < |ts| && pairs[m].1 < |ts|
    ensures s in Subtrees(t) && Holds(s, ts[pairs[m].0].node, ts[pairs[m].1].node)
    ensures Height(s) == MeetLevel(Run(n, pairs[..m]), pairs[m].0, pairs[m].1)
    ensures forall u :: u in Subtrees(t) && Holds(u, ts[pairs[m].0].node, ts[pairs[m].1].node) ==>
                Height(s) <= Height(u)
  {
    hide Run, Labelled, Shaped, TwoKids, ShapeAt, Leaves, SeparateAll, Climb, Level, MeetLevel, Root, Forked, Height,
         Subtrees, Parent, FreshLocals, BareAll;
    var f, h := Run(n, pairs), MeetLevel(Run(n, pairs[..m]), pairs[m].0, pairs[m].1);
    var (i, j) := pairs[m];
    RunForked(n, pairs);
    ForkedKids(f);
    HangsReady(t, f, names, ts, made);
    Dendrogram(n, pairs, m, h);
    var id := Climb(f, i, h);
    ClimbLevel(f, i, h);
    LeafBelow(f, names, ts, id, i);
    LeafBelow(f, names, ts, id, j);
    HeightIsLevel(f, names, ts, id);
    s := ShapeAt(f, names, ts, id);
    UnderTop(f, id);
    ClimbedSubtree(f, names, ts, id, Top(f, Root(f, 0)), Level(f, Top(f, Root(f, 0))) - Level(f, id));
    forall u | u in Subtrees(t) && Holds(u, ts[i].node, ts[j].node) ensures h <= Height(u) {
      SubtreeStands(f, names, ts, Top(f, Root(f, 0)), u);
      var c: nat :| c < |f.owner| && u == ShapeAt(f, names, ts, c);
      LeafBelow(f, names, ts, c, i);
      LeafBelow(f, names, ts, c, j);
      HeightIsLevel(f, names, ts, c);
      if Level(f, c) < h { Dendrogram(n, pairs, m, Level(f, c)); }
    }
  }

  lemma BareApart(leaves: seq<PsiTreeNode>)
    requires forall j, k :: 0 <= j < k < |leaves| ==> leaves[j] != leaves[k]
    ensures SeparateAll(Bare(leaves)) && BareAll(Bare(leaves))
  {
    var ts := Bare(leaves);
    forall k | 0 <= k < |ts| ensures Separate(ts[k]) && Nodes(ts[k]) == {leaves[k]} { }
  }

  /** In the finished tree over few enough leaves, if no regrouping was needed: the ends of a union
      that succeeded hang together at that height, and no lower. */
  lemma LeavesMeet(t: Shape, leaves: seq<PsiTreeNode>, l: Limits, o: Oracle, max: nat, h: Origin, m: nat)
    returns (s: Shape)
    requires OracleOk(o) && LimitsOk(l) && max >= 2 && Stems(t, leaves, l, o, max, h)
    requires FanoutAtMost(h.grown, max) && 2 <= |leaves| <= l.exactMaxLeaves
    requires forall j, k :: 0 <= j < k < |leaves| ==> leaves[j] != leaves[k]
    requires var pairs := o.ranking(|leaves|, |leaves|);
             m < |pairs| && !Same(Run(|leaves|, pairs[..m]), pairs[m].0, pairs[m].1)
    ensures var (i, j) := o.ranking(|leaves|, |leaves|)[m];
            && i < |leaves| && j < |leaves| && s in Subtrees(t) && Holds(s, leaves[i], leaves[j])
            && Height(s) == MeetLevel(Run(|leaves|, o.ranking(|leaves|, |leaves|)[..m]), i, j)
            && forall u :: u in Subtrees(t) && Holds(u, leaves[i], leaves[j]) ==> Height(s) <= Height(u)
  {
    hide Run, HangsAs, MeetLevel, Height, Subtrees, SeparateAll, Same, Holds, Root, SkeletonOf, Regrouped, NewNodes,
         FanoutAtMost, Numbered;
    var n, ts, pairs := |leaves|, Bare(leaves), o.ranking(|leaves|, |leaves|);
    assert RanksAll(pairs, n);
    BareApart(leaves);
    assert pairs[..|pairs|] == pairs;
    OneRoot(n, pairs, |pairs|);
    s := MeetingHeight(t, n, pairs, h.growth.names, ts, h.growth.made, m);
  }

  lemma HangsReady(t: Shape, f: Forest, names: Locals, ts: seq<Shape>, made: set<PsiTreeNode>)
    requires HangsAs(t, f, names, ts, made)
    ensures Ready(f, names, ts) && |f.rank| > 0 && Root(f, 0) < |f.rank| && Top(f, Root(f, 0)) < |f.owner|
    ensures t == ShapeAt(f, names, ts, Top(f, Root(f, 0)))
  {
  }

  /** Climbing `k` steps from a leaf ends at level `k`. */
  lemma {:induction false} ClimbLevel(f: Forest, x: nat, k: nat)
    requires Valid(f) && x < |f.rank| && x < |f.owner| && Climb(f, x, k) != -1
    ensures Level(f, Climb(f, x, k)) == k
    decreases k
  {
    if k == 0 {
      LeafSlot(f, x);
    } else {
      ClimbLevel(f, x, k - 1);
      ParentLevel(f, Climb(f, x, k - 1));
    }
  }

  lemma UnderTop(f: Forest, c: nat)
    requires Valid(f) && |f.rank| > 0 && c < |f.owner|
    requires forall x :: 0 <= x < |f.rank| ==> Root(f, x) == Root(f, 0)
    ensures Root(f, 0) < |f.rank| && Level(f, c) <= Level(f, Top(f, Root(f, 0)))
    ensures Climb(f, c, Level(f, Top(f, Root(f, 0))) - Level(f, c)) == Top(f, Root(f, 0))
  {
    AllUnderTop(f, Root(f, 0), c);
  }
}
